/** The comma-separated lists of the settings screens: printed with `join(", ")`,
    read back with split, trim and filter. */
module CommaList {
  import opened Text

  function Print(xs: seq<string>): string {
    if xs == [] then ""
    else if |xs| == 1 then xs[0]
    else xs[0] + ", " + Print(xs[1..])
  }

  /** The trimmed pieces that are not empty. */
  function Entries(pieces: seq<string>): seq<string> {
    if pieces == [] then []
    else (if Trim(pieces[0]) == "" then [] else [Trim(pieces[0])]) + Entries(pieces[1..])
  }

  function Parse(raw: string): seq<string> { Entries(Split(raw, ',')) }

  /** Entries as they can stand in a list: not empty, trimmed, free of commas. */
  ghost predicate Normal(xs: seq<string>) {
    forall x :: x in xs ==> x != "" && Trimmed(x) && ',' !in x
  }

  lemma {:induction false} EntriesNormal(pieces: seq<string>)
    requires forall p :: p in pieces ==> ',' !in p
    ensures Normal(Entries(pieces))
  {
    if pieces != [] {
      assert pieces[0] in pieces && forall p :: p in pieces[1..] ==> p in pieces;
      EntriesNormal(pieces[1..]);
      TrimIs(pieces[0]);
    }
  }

  lemma ParseNormal(raw: string)
    ensures Normal(Parse(raw))
  {
    SplitPieces(raw, ',');
    EntriesNormal(Split(raw, ','));
  }

  lemma {:induction false} EntriesConcat(a: seq<string>, b: seq<string>)
    ensures Entries(a + b) == Entries(a) + Entries(b)
  {
    if a == [] {
      assert a + b == b;
    } else {
      assert (a + b)[1..] == a[1..] + b;
      EntriesConcat(a[1..], b);
    }
  }

  lemma SplitCons(c: char, s: string, sep: char)
    ensures Split([c] + s, sep) ==
            if c == sep then [[]] + Split(s, sep) else [[c] + Split(s, sep)[0]] + Split(s, sep)[1..]
  {
    assert ([c] + s)[1..] == s;
  }

  lemma FirstPiece(c: char, sep: char, p: seq<string>, q: seq<string>)
    requires p != []
    ensures (if c == sep then [[]] + (p + q) else [[c] + (p + q)[0]] + (p + q)[1..]) ==
            (if c == sep then [[]] + p else [[c] + p[0]] + p[1..]) + q
  {
    assert (p + q)[1..] == p[1..] + q;
  }

  lemma {:induction false} SplitConcat(a: string, b: string, sep: char)
    ensures Split(a + [sep] + b, sep) == Split(a, sep) + Split(b, sep)
  {
    hide *;
    SplitCons(sep, b, sep);
    if a == [] {
      SplitOne(a, sep);
      assert a + [sep] + b == [sep] + b;
    } else {
      var t := a[1..] + [sep] + b;
      SplitConcat(a[1..], b, sep);
      SplitCons(a[0], a[1..], sep);
      SplitCons(a[0], t, sep);
      FirstPiece(a[0], sep, Split(a[1..], sep), Split(b, sep));
      assert a + [sep] + b == [a[0]] + t && a == [a[0]] + a[1..];
    }
  }

  /** Reading is done entry by entry, in order: the entries before a comma, then those behind it, and a text
      without a comma is one entry, trimmed, or none if it is blank. */
  lemma ParseIs(a: string, b: string, entry: string)
    requires ',' !in entry
    ensures Parse(a + [','] + b) == Parse(a) + Parse(b)
    ensures Parse(entry) == if Trim(entry) == "" then [] else [Trim(entry)]
  {
    SplitConcat(a, b, ',');
    EntriesConcat(Split(a, ','), Split(b, ','));
    SplitOne(entry, ',');
    hide Trim;
    assert Entries([entry]) == (if Trim(entry) == "" then [] else [Trim(entry)]) + Entries([]);
  }

  /** `raw[i..j]` stands between two neighbouring commas or ends. */
  ghost predicate Between(raw: string, i: int, j: int) {
    && 0 <= i <= j <= |raw| && ',' !in raw[i..j]
    && (i == 0 || raw[i - 1] == ',') && (j == |raw| || raw[j] == ',')
  }

  lemma SliceBehind(a: string, b: string, i: int, j: int)
    requires 0 <= i <= j <= |b|
    ensures (a + b)[|a| + i..|a| + j] == b[i..j]
  {
  }

  lemma BetweenShifted(a: string, b: string, i: int, j: int)
    ensures 0 <= i ==> (Between(b, i, j) <==> Between(a + [','] + b, |a| + 1 + i, |a| + 1 + j))
  {
    var raw := a + [','] + b;
    assert raw[|a|] == ',';
    if 0 <= i <= j <= |b| {
      SliceBehind(a + [','], b, i, j);
    }
  }

  lemma BetweenFirst(a: string, b: string, i: int, j: int)
    requires ',' !in a
    ensures i <= |a| ==> (Between(a + [','] + b, i, j) <==> i == 0 && j == |a|)
  {
    var raw := a + [','] + b;
    assert raw[0..|a|] == a && raw[|a|] == ',';
    forall k | 0 <= k < |a| ensures raw[k] != ',' {
      assert raw[k] == a[k] && a[k] in a;
    }
    assert 0 <= i <= |a| < j <= |raw| ==> raw[i..j][|a| - i] == ',';
  }

  lemma BetweenAlone(raw: string, i: int, j: int)
    requires ',' !in raw
    ensures Between(raw, i, j) <==> i == 0 && j == |raw|
  {
    forall k | 0 <= k < |raw| ensures raw[k] != ',' {
      assert raw[k] in raw;
    }
    assert raw[0..|raw|] == raw;
  }

  /** `x` is the trimmed text between two neighbouring commas or ends. */
  ghost predicate StandsIn(raw: string, x: string) {
    exists i, j :: Between(raw, i, j) && Trim(raw[i..j]) == x
  }

  lemma StandsAlone(raw: string, x: string)
    requires ',' !in raw
    ensures StandsIn(raw, x) <==> Trim(raw) == x
  {
    hide Trim;
    BetweenAlone(raw, 0, |raw|);
    assert raw[0..|raw|] == raw;
    if i, j :| Between(raw, i, j) && Trim(raw[i..j]) == x {
      BetweenAlone(raw, i, j);
    }
  }

  lemma StandsAt(raw: string, i: int, j: int, x: string)
    requires Between(raw, i, j) && Trim(raw[i..j]) == x
    ensures StandsIn(raw, x)
  {
    hide Trim;
  }

  lemma StandsInFront(a: string, b: string, x: string)
    requires ',' !in a && (Trim(a) == x || StandsIn(b, x))
    ensures StandsIn(a + [','] + b, x)
  {
    hide Trim;
    var raw, n := a + [','] + b, |a| + 1;
    if Trim(a) == x {
      BetweenFirst(a, b, 0, |a|);
      assert raw[0..|a|] == a;
      StandsAt(raw, 0, |a|, x);
    } else {
      var i, j :| Between(b, i, j) && Trim(b[i..j]) == x;
      BetweenShifted(a, b, i, j);
      SliceBehind(a + [','], b, i, j);
      StandsAt(raw, n + i, n + j, x);
    }
  }

  lemma StandsInEither(a: string, b: string, x: string)
    requires ',' !in a
    ensures StandsIn(a + [','] + b, x) <==> Trim(a) == x || StandsIn(b, x)
  {
    hide Trim;
    var raw, n := a + [','] + b, |a| + 1;
    if i, j :| Between(raw, i, j) && Trim(raw[i..j]) == x {
      BetweenFirst(a, b, i, j);
      if i > |a| {
        BetweenShifted(a, b, i - n, j - n);
        SliceBehind(a + [','], b, i - n, j - n);
      } else {
        assert raw[0..|a|] == a;
      }
    }
    if Trim(a) == x || StandsIn(b, x) {
      StandsInFront(a, b, x);
    }
  }

  /** What is read: the trimmed texts between neighbouring commas or ends that are not empty. */
  lemma {:induction false} ParseHas(raw: string, x: string)
    ensures x in Parse(raw) <==> x != "" && StandsIn(raw, x)
    decreases |raw|
  {
    hide *;
    if ',' !in raw {
      ParseIs("", "", raw);
      StandsAlone(raw, x);
    } else {
      var a, b := CutAtComma(raw);
      ParseIs(a, b, a);
      ParseHas(b, x);
      StandsInEither(a, b, x);
    }
  }

  lemma CutAtComma(raw: string) returns (a: string, b: string)
    requires ',' in raw
    ensures raw == a + [','] + b && ',' !in a
  {
    if raw[0] == ',' {
      a, b := "", raw[1..];
    } else {
      a, b := CutAtComma(raw[1..]);
      a := [raw[0]] + a;
    }
  }

  /** The blank after a printed comma does not matter. */
  lemma LeadingBlank(s: string)
    ensures Parse(" " + s) == Parse(s)
  {
    var pieces := Split(s, ',');
    assert (" " + s)[1..] == s;
    assert Split(" " + s, ',') == [" " + pieces[0]] + pieces[1..];
    assert (" " + pieces[0])[1..] == pieces[0];
    assert Trim(" " + pieces[0]) == Trim(pieces[0]);
    assert pieces == [pieces[0]] + pieces[1..];
  }

  /** Lists are printed entry by entry with a comma and a blank between them. */
  lemma {:induction false} PrintIs(x: string, xs: seq<string>, ys: seq<string>)
    ensures Print([x]) == x
    ensures xs != [] && ys != [] ==> Print(xs + ys) == Print(xs) + ", " + Print(ys)
  {
    if xs != [] && ys != [] {
      assert (xs + ys)[1..] == xs[1..] + ys && (xs + ys)[0] == xs[0];
      if |xs| == 1 {
        assert xs[1..] + ys == ys;
      } else {
        PrintIs(x, xs[1..], ys);
        var a, b, c := xs[0], Print(xs[1..]), Print(ys);
        assert a + ", " + (b + ", " + c) == a + ", " + b + ", " + c;
      }
    }
  }

  lemma ParseNothing()
    ensures Parse("") == []
  {
    assert Split("", ',') == [""];
    assert Entries([""]) == [];
  }

  /** A normal entry in front of a comma, and alone, is read as it stands. */
  lemma ParseFirst(x: string, s: string)
    requires x != "" && Trimmed(x) && ',' !in x
    ensures Parse(x) == [x] && Parse(x + [','] + s) == [x] + Parse(s)
  {
    hide Split, Trim;
    TrimIs(x);
    SplitOne(x, ',');
    assert Entries([x]) == [x] + Entries([]);
    SplitAt(x, s, ',');
    assert ([x] + Split(s, ','))[1..] == Split(s, ',');
  }

  lemma {:induction false} ParsePrintNormal(xs: seq<string>)
    requires Normal(xs)
    ensures Parse(Print(xs)) == xs
  {
    hide Parse;
    if xs == [] {
      ParseNothing();
    } else {
      assert xs[0] in xs && forall x :: x in xs[1..] ==> x in xs;
      assert xs == [xs[0]] + xs[1..];
      var rest := Print(xs[1..]);
      ParseFirst(xs[0], " " + rest);
      if |xs| > 1 {
        ParsePrintNormal(xs[1..]);
        LeadingBlank(rest);
        assert Print(xs) == xs[0] + [','] + (" " + rest);
      }
    }
  }

  /** A list survives being shown and saved exactly when its entries are normal. */
  lemma ParsePrintIff(xs: seq<string>)
    ensures Parse(Print(xs)) == xs <==> Normal(xs)
  {
    ParseNormal(Print(xs));
    if Normal(xs) {
      ParsePrintNormal(xs);
    }
  }

  /** Showing what was read and reading it again gives the same list, for every raw text. */
  lemma ParsePrintParse(raw: string)
    ensures Parse(Print(Parse(raw))) == Parse(raw)
  {
    ParseNormal(raw);
    ParsePrintNormal(Parse(raw));
  }

  // ------------------------------------------------------------ group names

  /** `Array.from(new Set(xs))`: first occurrences in order. */
  function Dedup(xs: seq<string>): seq<string> {
    if xs == [] then []
    else
      var d, last := Dedup(xs[..|xs| - 1]), xs[|xs| - 1];
      if last in d then d else d + [last]
  }

  function ParseGroups(raw: string): seq<string> { Dedup(Parse(raw)) }

  ghost predicate AllDistinct(xs: seq<string>) {
    forall i, j :: 0 <= i < j < |xs| ==> xs[i] != xs[j]
  }

  lemma {:induction false} DedupIs(xs: seq<string>)
    ensures AllDistinct(Dedup(xs))
    ensures forall x :: x in Dedup(xs) <==> x in xs
    ensures AllDistinct(xs) ==> Dedup(xs) == xs
  {
    if xs != [] {
      DedupIs(xs[..|xs| - 1]);
      assert xs == xs[..|xs| - 1] + [xs[|xs| - 1]];
      if AllDistinct(xs) {
        assert xs[|xs| - 1] !in xs[..|xs| - 1];
      }
    }
  }

  /** First-occurrence order: what a prefix yields comes first, in the same order. */
  lemma {:induction false} DedupOrder(xs: seq<string>, k: nat)
    requires k <= |xs|
    ensures Dedup(xs[..k]) <= Dedup(xs)
    decreases |xs|
  {
    if k < |xs| {
      DedupOrder(xs[..|xs| - 1], k);
      assert xs[..|xs| - 1][..k] == xs[..k];
    } else {
      assert xs[..k] == xs;
    }
  }

  /** The group list is normal, free of duplicates, holds exactly the entries typed, and survives printing. */
  lemma ParseGroupsIs(raw: string)
    ensures Normal(ParseGroups(raw)) && AllDistinct(ParseGroups(raw))
    ensures forall x :: x in ParseGroups(raw) <==> x in Parse(raw)
    ensures ParseGroups(Print(ParseGroups(raw))) == ParseGroups(raw)
  {
    ParseNormal(raw);
    DedupIs(Parse(raw));
    ParsePrintNormal(ParseGroups(raw));
    DedupIs(ParseGroups(raw));
  }

  /** `handleCreateCompositeRule` goes on with these names. */
  predicate AcceptsComposite(raw: string) { |ParseGroups(raw)| >= 2 }

  /** A composite rule is accepted exactly when two different names were typed. */
  lemma CompositeNeedsTwo(raw: string)
    ensures AcceptsComposite(raw) <==> exists x, y :: x in Parse(raw) && y in Parse(raw) && x != y
  {
    hide Dedup, Parse;
    var d := ParseGroups(raw);
    DedupIs(Parse(raw));
    if |d| >= 2 {
      assert d[0] in d && d[1] in d && d[0] != d[1];
    } else {
      forall x, y | x in Parse(raw) && y in Parse(raw) ensures x == y {
        assert x in d && y in d;
      }
    }
  }
}
