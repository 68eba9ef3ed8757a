/** Which managed document an open file belongs to: three user-defined
    properties in the file's own property bag. */
module LinkStore {
  import opened Wrappers
  import opened Text

  const DOCUMENT_ID := "ogdoc_document_id"
  const VERSION_NUMBER := "ogdoc_version_number"
  const CONTENT_TYPE := "ogdoc_content_type"
  const ODT := "application/vnd.oasis.opendocument.text"
  const LINK_NAMES: set<string> := {DOCUMENT_ID, VERSION_NUMBER, CONTENT_TYPE}

  /** The user-defined properties by name. */
  type Bag = map<string, string>

  datatype Linked = Linked(documentId: string, versionNumber: int, contentType: string)

  /** `UnknownProperty` and `NotANumber` are the exceptions reading a damaged bag raises. */
  datatype Failure = UnknownProperty | NotANumber

  // ------------------------------------------------------------ int()

  /** Whether `str.isspace` of Python holds, which is what `int` skips around a number. */
  predicate IsBlank(c: char) {
    || '\t' <= c <= '\r' || '\U{001C}' <= c <= ' ' || c == '\U{0085}' || c == '\U{00A0}' || c == '\U{1680}'
    || '\U{2000}' <= c <= '\U{200A}' || c == '\U{2028}' || c == '\U{2029}' || c == '\U{202F}' || c == '\U{205F}' || c == '\U{3000}'
  }

  function StripLeft(s: string): string { if s != [] && IsBlank(s[0]) then StripLeft(s[1..]) else s }

  function StripRight(s: string): string { if s != [] && IsBlank(s[|s| - 1]) then StripRight(s[..|s| - 1]) else s }

  /** Digits, with single underscores between them. */
  function Digits(s: string): Option<nat> {
    if s == [] then None
    else
      match DigitValue(s[|s| - 1])
      case None => None
      case Some(d) =>
        if |s| == 1 then Some(d)
        else match Digits(if s[|s| - 2] == '_' then s[..|s| - 2] else s[..|s| - 1])
          case None => None
          case Some(n) => Some(10 * n + d)
  }

  /** `int(s)`; `None` where it raises. */
  function IntOf(s: string): Option<int> {
    var t := StripRight(StripLeft(s));
    if t != [] && (t[0] == '-' || t[0] == '+') then
      match Digits(t[1..])
      case None => None
      case Some(n) => if t[0] == '-' then Some(-(n as int)) else Some(n)
    else
      match Digits(t) case None => None case Some(n) => Some(n)
  }

  lemma {:induction false} DigitsWithoutUnderscore(s: string)
    requires '_' !in s
    ensures Digits(s) == ParseNat(s)
  {
    if |s| > 1 {
      assert s[|s| - 2] in s;
      DigitsWithoutUnderscore(s[..|s| - 1]);
    }
  }

  /** What `str` prints `int` reads. */
  lemma IntOfPrinted(n: int)
    ensures IntOf(PrintInt(n)) == Some(n)
  {
    hide PrintNat, ParseNat, Digits;
    var size: nat := if n < 0 then -n else n;
    var digits := PrintNat(size);
    ParsePrintNat(size);
    DigitsWithoutUnderscore(digits);
    var s := PrintInt(n);
    assert digits[0] in digits && digits[|digits| - 1] in digits;
    assert s[|s| - 1] == digits[|digits| - 1] && (n < 0 ==> s[0] == '-' && s[1..] == digits);
  }

  lemma {:induction false} StripLeftSkips(blank: string, s: string)
    requires (forall c :: c in blank ==> IsBlank(c)) && s != [] && !IsBlank(s[0])
    ensures StripLeft(blank + s) == s
  {
    if blank == [] {
      assert blank + s == s;
    } else {
      assert blank[0] in blank && (blank + s)[1..] == blank[1..] + s;
      StripLeftSkips(blank[1..], s);
    }
  }

  lemma {:induction false} StripRightSkips(s: string, blank: string)
    requires (forall c :: c in blank ==> IsBlank(c)) && s != [] && !IsBlank(s[|s| - 1])
    ensures StripRight(s + blank) == s
  {
    if blank == [] {
      assert s + blank == s;
    } else {
      var n := |blank| - 1;
      assert blank[n] in blank && (s + blank)[..|s| + n] == s + blank[..n];
      StripRightSkips(s, blank[..n]);
    }
  }

  lemma PrintedEnds(n: int)
    ensures var s := PrintInt(n); s != [] && !IsBlank(s[0]) && !IsBlank(s[|s| - 1])
  {
    var digits := PrintNat(if n < 0 then -n else n);
    ParsePrintNat(if n < 0 then -n else n);
    assert digits[0] in digits && digits[|digits| - 1] in digits;
    assert PrintInt(n)[|PrintInt(n)| - 1] == digits[|digits| - 1];
    hide PrintNat;
  }

  lemma Stripped(before: string, s: string, after: string)
    requires forall c :: c in before + after ==> IsBlank(c)
    requires s != [] && !IsBlank(s[0]) && !IsBlank(s[|s| - 1])
    ensures StripRight(StripLeft(before + s + after)) == s
  {
    assert (forall c :: c in before ==> c in before + after) && forall c :: c in after ==> c in before + after;
    assert before + s + after == before + (s + after);
    StripLeftSkips(before, s + after);
    StripRightSkips(s, after);
  }

  lemma IntOfStripped(s: string, t: string)
    requires StripRight(StripLeft(s)) == StripRight(StripLeft(t))
    ensures IntOf(s) == IntOf(t)
  {
  }

  /** Blanks around the number do not matter. */
  lemma BlanksSkipped(before: string, n: int, after: string)
    requires forall c :: c in before + after ==> IsBlank(c)
    ensures IntOf(before + PrintInt(n) + after) == Some(n)
  {
    hide PrintInt, StripLeft, StripRight, IntOf, IsBlank;
    var s := PrintInt(n);
    PrintedEnds(n);
    Stripped(before, s, after);
    Stripped([], s, []);
    assert [] + s + [] == s;
    IntOfStripped(before + s + after, s);
    IntOfPrinted(n);
  }

  lemma {:induction false} UnderscoreSkipped(a: string, b: string)
    requires '_' !in a && '_' !in b && a != "" && b != ""
    ensures Digits(a + "_" + b) == Digits(a + b)
  {
    var s, n := a + "_" + b, |b| - 1;
    assert b[n] in b && s[|s| - 1] == b[n] && (a + b)[|a| + n] == b[n];
    if n == 0 {
      assert s[..|s| - 2] == a && (a + b)[..|a|] == a && a[|a| - 1] in a;
    } else {
      assert b[n - 1] in b && s[..|s| - 1] == a + "_" + b[..n] && (a + b)[..|a| + n] == a + b[..n];
      UnderscoreSkipped(a, b[..n]);
    }
  }

  // ------------------------------------------------------------ the link

  function Get(bag: Bag): Result<Option<Linked>, Failure> {
    if DOCUMENT_ID !in bag || bag[DOCUMENT_ID] == "" then Ok(None)
    else if VERSION_NUMBER !in bag then Err(UnknownProperty)
    else
      match IntOf(bag[VERSION_NUMBER])
      case None => Err(NotANumber)
      case Some(v) => Ok(Some(Linked(bag[DOCUMENT_ID], v, if CONTENT_TYPE in bag then bag[CONTENT_TYPE] else ODT)))
  }

  function Set(bag: Bag, link: Linked): Bag {
    bag[DOCUMENT_ID := link.documentId][VERSION_NUMBER := PrintInt(link.versionNumber)][CONTENT_TYPE := link.contentType]
  }

  function Clear(bag: Bag): Bag { bag - LINK_NAMES }

  // ------------------------------------------------------------ laws

  /** What was set is read back, the version number through its decimal text, exactly when the id is
      not empty; an empty id reads as no link. */
  lemma GetSet(bag: Bag, link: Linked)
    ensures Get(Set(bag, link)) == Ok(Some(link)) <==> link.documentId != ""
    ensures link.documentId == "" ==> Get(Set(bag, link)) == Ok(None)
  {
    Names();
    IntOfPrinted(link.versionNumber);
  }

  /** Under which names the link is stored. */
  lemma SetNames(bag: Bag, link: Linked)
    ensures var after := Set(bag, link);
            && after["ogdoc_document_id"] == link.documentId
            && after["ogdoc_version_number"] == PrintInt(link.versionNumber)
            && after["ogdoc_content_type"] == link.contentType
  {
    Names();
  }

  /** A link without a content type is one to a text document of the office program. */
  lemma GetDefault(id: string, v: int)
    ensures var bag := map["ogdoc_document_id" := id, "ogdoc_version_number" := PrintInt(v)];
            id != "" ==> Get(bag) == Ok(Some(Linked(id, v, "application/vnd.oasis.opendocument.text")))
  {
    Names();
    IntOfPrinted(v);
  }

  lemma Names()
    ensures DOCUMENT_ID != VERSION_NUMBER && DOCUMENT_ID != CONTENT_TYPE && VERSION_NUMBER != CONTENT_TYPE
  {
    assert DOCUMENT_ID[6] == 'd' && VERSION_NUMBER[6] == 'v' && CONTENT_TYPE[6] == 'c';
  }

  datatype Call = SetLink(link: Linked) | ClearLink

  function Apply(bag: Bag, c: Call): Bag {
    match c case SetLink(link) => Set(bag, link) case ClearLink => Clear(bag)
  }

  function Run(bag: Bag, calls: seq<Call>): Bag
    decreases |calls|
  {
    if calls == [] then bag else Apply(Run(bag, calls[..|calls| - 1]), calls[|calls| - 1])
  }

  /** What the last call says is the link, whatever came before. */
  function Meaning(c: Call): Option<Linked> {
    if c.SetLink? && c.link.documentId != "" then Some(c.link) else None
  }

  /** Over any sequence of calls every other user-defined property is untouched, and the last call
      alone decides what is read. */
  lemma {:induction false} RunIs(bag: Bag, calls: seq<Call>)
    ensures Run(bag, calls) - LINK_NAMES == bag - LINK_NAMES
    ensures calls != [] ==> Get(Run(bag, calls)) == Ok(Meaning(calls[|calls| - 1]))
    decreases |calls|
  {
    if calls != [] {
      var before, c := Run(bag, calls[..|calls| - 1]), calls[|calls| - 1];
      RunIs(bag, calls[..|calls| - 1]);
      ApplyFrame(before, c);
      if c.SetLink? {
        GetSet(before, c.link);
      }
    }
  }

  lemma ApplyFrame(bag: Bag, c: Call)
    ensures Apply(bag, c) - LINK_NAMES == bag - LINK_NAMES
  {
  }

  // ------------------------------------------------------------ the property container

  /** The container of the office program: setting and removing need the property to be there,
      adding needs it not to be. */
  class PropertyBag {
    var values: Bag

    constructor (values: Bag)
      ensures this.values == values
    {
      this.values := values;
    }

    method SetPropertyValue(name: string, value: string)
      requires name in values
      modifies this
      ensures values == old(values)[name := value]
    {
      values := values[name := value];
    }

    method AddProperty(name: string, value: string)
      requires name !in values
      modifies this
      ensures values == old(values)[name := value]
    {
      values := values[name := value];
    }

    method RemoveProperty(name: string)
      requires name in values
      modifies this
      ensures values == old(values) - {name}
    {
      values := values - {name};
    }
  }

  /** `_set_property`. */
  method SetProperty(props: PropertyBag, name: string, value: string)
    modifies props
    ensures props.values == old(props.values)[name := value]
  {
    if name in props.values {
      props.SetPropertyValue(name, value);
    } else {
      props.AddProperty(name, value);
    }
  }

  method GetLinkedDocument(props: PropertyBag) returns (r: Result<Option<Linked>, Failure>)
    ensures r == Get(props.values)
  {
    if DOCUMENT_ID !in props.values {
      return Ok(None);
    }
    var documentId := props.values[DOCUMENT_ID];
    if documentId == "" {
      return Ok(None);
    }
    if VERSION_NUMBER !in props.values {
      return Err(UnknownProperty);
    }
    var version := IntOf(props.values[VERSION_NUMBER]);
    var contentType := if CONTENT_TYPE in props.values then props.values[CONTENT_TYPE] else ODT;
    r := match version case None => Err(NotANumber) case Some(v) => Ok(Some(Linked(documentId, v, contentType)));
  }

  method SetLinkedDocument(props: PropertyBag, link: Linked)
    modifies props
    ensures props.values == Set(old(props.values), link)
  {
    SetProperty(props, DOCUMENT_ID, link.documentId);
    SetProperty(props, VERSION_NUMBER, PrintInt(link.versionNumber));
    SetProperty(props, CONTENT_TYPE, link.contentType);
  }

  method ClearLinkedDocument(props: PropertyBag)
    modifies props
    ensures props.values == Clear(old(props.values))
  {
    var names := [DOCUMENT_ID, VERSION_NUMBER, CONTENT_TYPE];
    for i := 0 to |names|
      invariant props.values == old(props.values) - (set n | n in names[..i])
    {
      assert names[..i + 1] == names[..i] + [names[i]];
      if names[i] in props.values {
        props.RemoveProperty(names[i]);
      }
    }
    assert names[..|names|] == names && (set n | n in names) == LINK_NAMES;
  }
}
