/** The multipart/form-data encoder of the LibreOffice add-in and a reference
    decoder written from RFC 2046 section 5.1.1 and RFC 7578 section 4.

    Names, values, file names and content types are their UTF-8 bytes; UTF-8
    encodes a concatenation as the concatenation of the encodings, so building
    the text first and encoding it afterwards gives the same bytes. */
module Multipart {
  import opened Wrappers
  import opened Search
  import opened Octets

  const SPACE: byte := 32
  const TAB: byte := 9
  const CR: byte := 13
  const LF: byte := 10
  const QUOTE: byte := 34
  const DASH: byte := 45
  const CRLF: Bytes := [CR, LF]
  const BLANK_LINE: Bytes := CRLF + CRLF
  const DASHES: Bytes := [DASH, DASH]

  function Ascii(s: string): (b: Bytes)
    requires forall i :: 0 <= i < |s| ==> s[i] as int < 128
    ensures |b| == |s| && forall i :: 0 <= i < |s| ==> b[i] as int == s[i] as int
  {
    seq(|s|, i requires 0 <= i < |s| => s[i] as int as byte)
  }

  const DISPOSITION: Bytes := Ascii("Content-Disposition: form-data; name=\"")
  const FILENAME: Bytes := Ascii("; filename=\"")
  const CONTENT_TYPE: Bytes := Ascii("Content-Type: ")
  const MEDIA_TYPE: Bytes := Ascii("multipart/form-data; boundary=")

  // ------------------------------------------------------------ encoder

  /** One entry of the `fields` dictionary; `None` values are skipped. */
  datatype Field = Field(name: Bytes, value: Option<Bytes>)
  datatype FileField = FileField(fieldName: Bytes, filename: Bytes, contentType: Bytes, data: Bytes)

  datatype FileHead = FileHead(filename: Bytes, contentType: Bytes)
  /** What the receiver is meant to see: one form part. */
  datatype Part = Part(name: Bytes, file: Option<FileHead>, data: Bytes)

  /** The part of a field, none if its value is None. */
  function FieldPart(f: Field): seq<Part> {
    match f.value case None => [] case Some(v) => [Part(f.name, None, v)]
  }

  /** The non-None fields in dictionary order. */
  function FieldParts(fields: seq<Field>): seq<Part> {
    if fields == [] then [] else FieldParts(fields[..|fields| - 1]) + FieldPart(fields[|fields| - 1])
  }

  function FileParts(file: Option<FileField>): seq<Part> {
    match file
    case None => []
    case Some(f) => [Part(f.fieldName, Some(FileHead(f.filename, f.contentType)), f.data)]
  }

  function Header(p: Part): Bytes {
    DISPOSITION + p.name + [QUOTE] +
    match p.file
    case None => []
    case Some(h) => FILENAME + h.filename + [QUOTE] + CRLF + CONTENT_TYPE + h.contentType
  }

  function DashBoundary(boundary: Bytes): Bytes { DASHES + boundary }

  /** Header, blank line and body of one part. */
  function Content(p: Part): Bytes { Header(p) + BLANK_LINE + p.data }

  function EncodePart(boundary: Bytes, p: Part): Bytes {
    DashBoundary(boundary) + CRLF + Content(p) + CRLF
  }

  function EncodeParts(boundary: Bytes, ps: seq<Part>): Bytes {
    if ps == [] then [] else EncodePart(boundary, ps[0]) + EncodeParts(boundary, ps[1..])
  }

  /** The whole message body. */
  function Encode(boundary: Bytes, ps: seq<Part>): Bytes {
    EncodeParts(boundary, ps) + DashBoundary(boundary) + DASHES + CRLF
  }

  lemma FieldPartsAppend(fields: seq<Field>, f: Field)
    ensures FieldParts(fields + [f]) == FieldParts(fields) + FieldPart(f)
  {
    assert (fields + [f])[..|fields|] == fields;
  }

  lemma {:induction false} EncodePartsAppend(boundary: Bytes, ps: seq<Part>, p: Part)
    ensures EncodeParts(boundary, ps + [p]) == EncodeParts(boundary, ps) + EncodePart(boundary, p)
  {
    if ps == [] {
      assert ps + [p] == [p];
    } else {
      assert (ps + [p])[1..] == ps[1..] + [p];
      EncodePartsAppend(boundary, ps[1..], p);
    }
  }

  /** The bytes of one text field, as the loop builds them. */
  lemma FieldBytes(boundary: Bytes, name: Bytes, value: Bytes)
    ensures DashBoundary(boundary) + CRLF + DISPOSITION + name + [QUOTE] + BLANK_LINE + value + CRLF
            == EncodePart(boundary, Part(name, None, value))
  {
    assert DISPOSITION + name + [QUOTE] + [] == DISPOSITION + name + [QUOTE];
    Regroup3(DashBoundary(boundary) + CRLF, DISPOSITION + name + [QUOTE], BLANK_LINE, value);
    assert DashBoundary(boundary) + CRLF + DISPOSITION + name + [QUOTE] ==
           DashBoundary(boundary) + CRLF + (DISPOSITION + name + [QUOTE]);
  }

  lemma FileBytes(boundary: Bytes, f: FileField)
    ensures (DashBoundary(boundary) + CRLF + DISPOSITION + f.fieldName + [QUOTE] + FILENAME + f.filename + [QUOTE] + CRLF
             + CONTENT_TYPE + f.contentType + BLANK_LINE) + f.data + CRLF
            == EncodePart(boundary, FileParts(Some(f))[0])
  {
    hide DashBoundary;
    var a, n := DashBoundary(boundary) + CRLF, DISPOSITION + f.fieldName + [QUOTE];
    var h := FILENAME + f.filename + [QUOTE] + CRLF + CONTENT_TYPE + f.contentType;
    Regroup2(a, DISPOSITION, f.fieldName, [QUOTE]);
    Regroup5(a + n, FILENAME, f.filename, [QUOTE] + CRLF, CONTENT_TYPE, f.contentType);
    HeadText(a + n, f);
    assert a + n + h == a + (n + h);
    Regroup3(a, n + h, BLANK_LINE, f.data);
  }

  lemma HeadText(a: Bytes, f: FileField)
    ensures a + FILENAME + f.filename + [QUOTE] + CRLF + CONTENT_TYPE + f.contentType ==
            a + FILENAME + f.filename + ([QUOTE] + CRLF) + CONTENT_TYPE + f.contentType
    ensures FILENAME + f.filename + [QUOTE] + CRLF + CONTENT_TYPE + f.contentType ==
            FILENAME + f.filename + ([QUOTE] + CRLF) + CONTENT_TYPE + f.contentType
  {
    assert a + FILENAME + f.filename + [QUOTE] + CRLF == a + FILENAME + f.filename + ([QUOTE] + CRLF);
    assert FILENAME + f.filename + [QUOTE] + CRLF == FILENAME + f.filename + ([QUOTE] + CRLF);
  }

  lemma Regroup2(a: Bytes, b: Bytes, c: Bytes, d: Bytes)
    ensures a + b + c + d == a + (b + c + d)
  {
  }

  lemma Regroup5(a: Bytes, b: Bytes, c: Bytes, d: Bytes, e: Bytes, f: Bytes)
    ensures a + b + c + d + e + f == a + (b + c + d + e + f)
  {
    Regroup2(a, b, c, d);
    Regroup2(a, b + c + d, e, f);
  }

  lemma Regroup3(a: Bytes, b: Bytes, c: Bytes, d: Bytes)
    ensures a + b + c + d + CRLF == a + (b + c + d) + CRLF
  {
  }

  lemma NothingEncoded(boundary: Bytes)
    ensures Join([]) == EncodeParts(boundary, FieldParts([]))
  {
  }

  lemma SkippedField(fields: seq<Field>, f: Field)
    requires f.value.None?
    ensures FieldParts(fields + [f]) == FieldParts(fields)
  {
    FieldPartsAppend(fields, f);
  }

  lemma AppendedField(boundary: Bytes, fields: seq<Field>, f: Field)
    requires f.value.Some?
    ensures EncodeParts(boundary, FieldParts(fields + [f])) ==
            EncodeParts(boundary, FieldParts(fields)) + EncodePart(boundary, Part(f.name, None, f.value.value))
  {
    FieldPartsAppend(fields, f);
    EncodePartsAppend(boundary, FieldParts(fields), Part(f.name, None, f.value.value));
  }

  lemma AppendedFile(boundary: Bytes, ps: seq<Part>, file: Option<FileField>)
    ensures EncodeParts(boundary, ps + FileParts(file)) ==
            if file.None? then EncodeParts(boundary, ps)
            else EncodeParts(boundary, ps) + EncodePart(boundary, FileParts(file)[0])
  {
    if file.Some? {
      EncodePartsAppend(boundary, ps, FileParts(file)[0]);
    } else {
      assert ps + FileParts(file) == ps;
    }
  }

  lemma ClosingLine(boundary: Bytes, all: Bytes)
    ensures all + (DashBoundary(boundary) + DASHES + CRLF) == all + DashBoundary(boundary) + DASHES + CRLF
  {
  }

  /** `_build_multipart`: the boundary is the fresh hexadecimal uuid. */
  method BuildMultipart(boundary: Bytes, fields: seq<Field>, file: Option<FileField>)
    returns (body: Bytes, contentType: Bytes)
    ensures body == Encode(boundary, FieldParts(fields) + FileParts(file))
    ensures contentType == MEDIA_TYPE + boundary
  {
    hide EncodePart, DashBoundary, EncodeParts, Join, FieldParts, FileParts;
    var parts: seq<Bytes> := [];
    NothingEncoded(boundary);
    for i := 0 to |fields|
      invariant Join(parts) == EncodeParts(boundary, FieldParts(fields[..i]))
    {
      assert fields[..i + 1] == fields[..i] + [fields[i]];
      if fields[i].value.None? {
        SkippedField(fields[..i], fields[i]);
        continue;
      }
      var part := DashBoundary(boundary) + CRLF + DISPOSITION + fields[i].name + [QUOTE] + BLANK_LINE
                  + fields[i].value.value + CRLF;
      FieldBytes(boundary, fields[i].name, fields[i].value.value);
      AppendedField(boundary, fields[..i], fields[i]);
      JoinAppend(parts, part);
      parts := parts + [part];
    }
    assert fields[..|fields|] == fields;
    AppendedFile(boundary, FieldParts(fields), file);
    if file.Some? {
      var f := file.value;
      var head := DashBoundary(boundary) + CRLF + DISPOSITION + f.fieldName + [QUOTE] + FILENAME
                  + f.filename + [QUOTE] + CRLF + CONTENT_TYPE + f.contentType + BLANK_LINE;
      FileBytes(boundary, f);
      JoinAppend(parts, head + f.data + CRLF);
      parts := parts + [head + f.data + CRLF];
    }
    ghost var all := Join(parts);
    assert all == EncodeParts(boundary, FieldParts(fields) + FileParts(file));
    JoinAppend(parts, DashBoundary(boundary) + DASHES + CRLF);
    ClosingLine(boundary, all);
    parts := parts + [DashBoundary(boundary) + DASHES + CRLF];
    body := Join(parts);
    contentType := MEDIA_TYPE + boundary;
  }

  /** The bytes of a text part, written out. */
  lemma FieldText(boundary: Bytes, name: Bytes, value: Bytes)
    ensures EncodePart(boundary, Part(name, None, value)) ==
            Ascii("--") + boundary + Ascii("\r\n")
            + Ascii("Content-Disposition: form-data; name=\"") + name + Ascii("\"") + Ascii("\r\n\r\n") + value + Ascii("\r\n")
  {
    FieldBytes(boundary, name, value);
    WrittenTexts();
    hide EncodePart, Ascii;
  }

  /** The bytes of a file part, written out. */
  lemma FileText(boundary: Bytes, f: FileField)
    ensures EncodePart(boundary, FileParts(Some(f))[0]) ==
            Ascii("--") + boundary + Ascii("\r\n")
            + Ascii("Content-Disposition: form-data; name=\"") + f.fieldName + Ascii("\"")
            + Ascii("; filename=\"") + f.filename + Ascii("\"") + Ascii("\r\n")
            + Ascii("Content-Type: ") + f.contentType + Ascii("\r\n\r\n") + f.data + Ascii("\r\n")
  {
    FileBytes(boundary, f);
    WrittenTexts();
    hide EncodePart, Ascii;
  }

  /** The closing line and the content type, written out. */
  lemma ClosingText(boundary: Bytes)
    ensures Encode(boundary, []) == Ascii("--") + boundary + Ascii("--") + Ascii("\r\n")
    ensures MEDIA_TYPE == Ascii("multipart/form-data; boundary=")
  {
    WrittenTexts();
    hide Ascii;
    assert [] + DashBoundary(boundary) == DashBoundary(boundary);
  }

  lemma WrittenTexts()
    ensures Ascii("--") == DASHES && Ascii("\"") == [QUOTE] && Ascii("\r\n") == CRLF && Ascii("\r\n\r\n") == BLANK_LINE
  {
  }

  /** Each field with a value is one part, in dictionary order, and a field without one is none. */
  lemma {:induction false} FieldPartsInOrder(a: seq<Field>, b: seq<Field>, name: Bytes, value: Bytes)
    ensures FieldParts([]) == [] && FieldParts(a + b) == FieldParts(a) + FieldParts(b)
    ensures FieldParts([Field(name, None)]) == [] && FieldParts([Field(name, Some(value))]) == [Part(name, None, value)]
  {
    hide *;
    SingleField(name, value);
    if b == [] {
      assert a + b == a && FieldParts(a) + [] == FieldParts(a);
    } else {
      var front, f := b[..|b| - 1], b[|b| - 1];
      FieldPartsInOrder(a, front, name, value);
      FieldPartsAppend(a + front, f);
      FieldPartsAppend(front, f);
      assert b == front + [f] && a + b == a + front + [f];
      assert FieldParts(a) + (FieldParts(front) + FieldPart(f)) == FieldParts(a) + FieldParts(front) + FieldPart(f);
    }
  }

  lemma SingleField(name: Bytes, value: Bytes)
    ensures FieldParts([]) == []
    ensures FieldParts([Field(name, None)]) == [] && FieldParts([Field(name, Some(value))]) == [Part(name, None, value)]
  {
    FieldPartsAppend([], Field(name, None));
    FieldPartsAppend([], Field(name, Some(value)));
    assert [] + [Field(name, None)] == [Field(name, None)] && [] + [Field(name, Some(value))] == [Field(name, Some(value))];
  }

  // ------------------------------------------------------------ reference decoder

  /** `delimiter := CRLF "--" boundary` (RFC 2046 section 5.1.1). */
  function Delimiter(boundary: Bytes): Bytes { CRLF + DashBoundary(boundary) }

  function SkipPadding(s: Bytes): (r: Bytes)
    ensures |r| <= |s|
    ensures s != [] && s[0] != SPACE && s[0] != TAB ==> r == s
  {
    if s != [] && (s[0] == SPACE || s[0] == TAB) then SkipPadding(s[1..]) else s
  }

  /** Reads `prefix`, then the text up to the next quote; yields that text and what follows the quote. */
  function ParseQuoted(s: Bytes, prefix: Bytes): Option<(Bytes, Bytes)> {
    if !(prefix <= s) then None
    else
      var rest := s[|prefix|..];
      match Find(rest, [QUOTE], 0)
      case None => None
      case Some(i) => Some((rest[..i], rest[i + 1..]))
  }

  function ParseHead(name: Bytes, afterName: Bytes, typeLine: Bytes): Option<(Bytes, Option<FileHead>)> {
    match ParseQuoted(afterName, FILENAME)
    case None => None
    case Some((filename, rest)) =>
      if rest == [] && CONTENT_TYPE <= typeLine
      then Some((name, Some(FileHead(filename, typeLine[|CONTENT_TYPE|..])))) else None
  }

  function ParseHeader(h: Bytes): Option<(Bytes, Option<FileHead>)> {
    var line := match Find(h, CRLF, 0) case None => h case Some(i) => h[..i];
    var typeLine := match Find(h, CRLF, 0) case None => None case Some(i) => Some(h[i + 2..]);
    match ParseQuoted(line, DISPOSITION)
    case None => None
    case Some((name, rest)) =>
      if typeLine.Some? then ParseHead(name, rest, typeLine.value)
      else if rest == [] then Some((name, None)) else None
  }

  function ParsePart(content: Bytes): Option<Part> {
    match Find(content, BLANK_LINE, 0)
    case None => None
    case Some(i) =>
      match ParseHeader(content[..i])
      case None => None
      case Some((name, file)) => Some(Part(name, file, content[i + 4..]))
  }

  /** `s` is what follows a delimiter that does not close the body: one part, and what follows it. */
  function NextPart(boundary: Bytes, s: Bytes): (r: Option<(Part, Bytes)>)
    ensures r.Some? ==> |r.value.1| < |s|
  {
    var line := SkipPadding(s);
    if !(CRLF <= line) then None
    else
      match Find(line[2..], Delimiter(boundary), 0)
      case None => None
      case Some(i) =>
        match ParsePart(line[2..][..i])
        case None => None
        case Some(p) => Some((p, line[2..][i + |Delimiter(boundary)|..]))
  }

  function DecodeParts(boundary: Bytes, s: Bytes): Option<seq<Part>>
    decreases |s|
  {
    if DASHES <= s then Some([])
    else
      match NextPart(boundary, s)
      case None => None
      case Some((p, rest)) =>
        match DecodeParts(boundary, rest)
        case None => None
        case Some(ps) => Some([p] + ps)
  }

  /** The first boundary needs no CRLF of its own at the very start of the body; a preamble is skipped. */
  function Decode(boundary: Bytes, body: Bytes): Option<seq<Part>> {
    match Find(CRLF + body, Delimiter(boundary), 0)
    case None => None
    case Some(i) => DecodeParts(boundary, (CRLF + body)[i + |Delimiter(boundary)|..])
  }

  // ------------------------------------------------------------ round trip

  /** A text that ends where the encoder closes its quotation, since that escapes nothing. */
  ghost predicate Quotable(s: Bytes) { QUOTE !in s && Absent(s, CRLF) }

  function TypeText(p: Part): Bytes {
    match p.file case None => [] case Some(h) => h.contentType
  }

  /** The header of `p` can be read back: no quotation in it ends early and no blank line comes before its end. */
  ghost predicate ReadableHeader(p: Part) {
    && Quotable(p.name) && (p.file.Some? ==> Quotable(p.file.value.filename))
    && Absent(TypeText(p) + CRLF, BLANK_LINE)
  }

  /** The body of `p` neither starts with `--boundary` nor holds CRLF`--boundary`. */
  ghost predicate Clean(boundary: Bytes, p: Part) {
    Absent(CRLF + p.data, Delimiter(boundary))
  }

  /** Nothing in `p` is taken for a quote, a line end, a blank line or a delimiter of the encoder's. */
  ghost predicate Readable(boundary: Bytes, p: Part) {
    ReadableHeader(p) && Absent(TypeText(p), Delimiter(boundary)) && Clean(boundary, p)
  }

  lemma AbsentJoined(a: Bytes, b: Bytes)
    requires Absent(a, CRLF) && Absent(b, CRLF)
    requires a != [] && b != [] ==> a[|a| - 1] != CR || b[0] != LF
    ensures Absent(a + b, CRLF)
  {
    forall i | OccursAt(a + b, CRLF, i) ensures false {
      OccursPoint(a + b, CRLF, i, 0);
      OccursPoint(a + b, CRLF, i, 1);
      if i >= |a| {
        OccursJoined(a, b, CRLF, i - |a|);
      } else {
        OccursJoined(a, b, CRLF, i);
      }
    }
  }

  lemma AbsentWithoutCr(s: Bytes)
    requires CR !in s
    ensures Absent(s, CRLF)
  {
    assert CRLF[0] == CR;
  }

  /** The first line of the header. */
  function FirstLine(p: Part): Bytes {
    DISPOSITION + p.name + [QUOTE] +
    match p.file case None => [] case Some(h) => FILENAME + h.filename + [QUOTE]
  }

  function TypeStart(p: Part): Bytes { if p.file.None? then [] else CRLF + CONTENT_TYPE }

  lemma HeaderIs(p: Part)
    ensures Header(p) == FirstLine(p) + TypeStart(p) + TypeText(p)
    ensures p.file.Some? ==> Header(p) == FirstLine(p) + CRLF + (CONTENT_TYPE + TypeText(p))
    ensures Content(p) == (FirstLine(p) + TypeStart(p)) + (TypeText(p) + BLANK_LINE + p.data)
  {
  }

  lemma QuotedLine(prefix: Bytes, text: Bytes)
    requires CR !in prefix && Absent(text, CRLF)
    ensures Absent(prefix + text + [QUOTE], CRLF)
  {
    AbsentWithoutCr(prefix);
    AbsentWithoutCr([QUOTE]);
    AbsentJoined(prefix, text);
    AbsentJoined(prefix + text, [QUOTE]);
  }

  lemma FirstLineIs(p: Part)
    requires Quotable(p.name) && (p.file.Some? ==> Quotable(p.file.value.filename))
    ensures Absent(FirstLine(p), CRLF) && FirstLine(p) != [] && FirstLine(p)[|FirstLine(p)| - 1] == QUOTE
  {
    assert CR !in DISPOSITION && CR !in FILENAME;
    QuotedLine(DISPOSITION, p.name);
    var name := DISPOSITION + p.name + [QUOTE];
    match p.file
    case None =>
      assert FirstLine(p) == name;
    case Some(h) =>
      QuotedLine(FILENAME, h.filename);
      AbsentJoined(name, FILENAME + h.filename + [QUOTE]);
  }

  /** The first line ends where the encoder ends it. */
  lemma FindLineEnd(line: Bytes, rest: Bytes)
    requires Absent(line, CRLF) && line != [] && line[|line| - 1] != CR
    ensures Find(line, CRLF, 0) == None && Find(line + CRLF + rest, CRLF, 0) == Some(|line|)
  {
    var s := line + CRLF + rest;
    assert s == line + (CRLF + rest);
    forall j | 0 <= j < |line| ensures !OccursAt(s, CRLF, j) {
      if j == |line| - 1 {
        Mismatch(s, CRLF, j, 0);
      } else {
        OccursJoined(line, CRLF + rest, CRLF, j);
      }
    }
    FindIs(s, CRLF, |line|);
  }

  lemma FindElement(s: Bytes, x: byte, i: nat)
    requires i < |s| && s[i] == x && forall j :: 0 <= j < i ==> s[j] != x
    ensures Find(s, [x], 0) == Some(i)
  {
    forall j | 0 <= j < i ensures !OccursAt(s, [x], j) {
      assert [x][0] == x && s[j + 0] == s[j];
    }
    FindIs(s, [x], i);
  }

  lemma ParseQuotedText(prefix: Bytes, text: Bytes, rest: Bytes)
    requires QUOTE !in text
    ensures ParseQuoted(prefix + text + [QUOTE] + rest, prefix) == Some((text, rest))
  {
    var s := prefix + text + [QUOTE] + rest;
    var tail := s[|prefix|..];
    assert prefix <= s && tail == text + [QUOTE] + rest;
    FindElement(tail, QUOTE, |text|);
    assert tail[..|text|] == text && tail[|text| + 1..] == rest;
  }

  /** A header of one line, and a header of that line and another. */
  lemma ParseHeaderLines(line: Bytes, typeLine: Bytes)
    requires Absent(line, CRLF) && line != [] && line[|line| - 1] != CR
    ensures ParseHeader(line) ==
            match ParseQuoted(line, DISPOSITION)
            case None => None
            case Some((name, rest)) => if rest == [] then Some((name, None)) else None
    ensures ParseHeader(line + CRLF + typeLine) ==
            match ParseQuoted(line, DISPOSITION)
            case None => None
            case Some((name, rest)) => ParseHead(name, rest, typeLine)
  {
    hide ParseHead, ParseQuoted;
    FindLineEnd(line, typeLine);
    var h := line + CRLF + typeLine;
    assert h[..|line|] == line && h[|line| + 2..] == typeLine;
  }

  lemma ParseHeadOf(name: Bytes, h: FileHead)
    requires QUOTE !in h.filename
    ensures ParseHead(name, FILENAME + h.filename + [QUOTE], CONTENT_TYPE + h.contentType) == Some((name, Some(h)))
  {
    ParseQuotedText(FILENAME, h.filename, []);
    var typeLine := CONTENT_TYPE + h.contentType;
    assert FILENAME + h.filename + [QUOTE] == FILENAME + h.filename + [QUOTE] + [];
    assert CONTENT_TYPE <= typeLine && typeLine[|CONTENT_TYPE|..] == h.contentType;
  }

  lemma ParseHeaderOf(p: Part)
    requires Quotable(p.name) && (p.file.Some? ==> Quotable(p.file.value.filename))
    ensures ParseHeader(Header(p)) == Some((p.name, p.file))
  {
    hide ParseHeader, ParseHead, ParseQuoted;
    FirstLineIs(p);
    HeaderIs(p);
    ParseHeaderLines(FirstLine(p), CONTENT_TYPE + TypeText(p));
    match p.file
    case None =>
      ParseQuotedText(DISPOSITION, p.name, []);
      assert Header(p) == FirstLine(p) == DISPOSITION + p.name + [QUOTE] + [];
    case Some(h) =>
      ParseQuotedText(DISPOSITION, p.name, FILENAME + h.filename + [QUOTE]);
      ParseHeadOf(p.name, h);
  }

  /** Reading up to a quote takes nothing away. */
  lemma ParseQuotedIs(s: Bytes, prefix: Bytes)
    requires ParseQuoted(s, prefix).Some? && Absent(s, CRLF)
    ensures var (text, rest) := ParseQuoted(s, prefix).value;
            s == prefix + text + [QUOTE] + rest && Quotable(text) && Absent(rest, CRLF)
  {
    var tail := s[|prefix|..];
    var i := Find(tail, [QUOTE], 0).value;
    var text, rest := tail[..i], tail[i + 1..];
    OccursPoint(tail, [QUOTE], i, 0);
    forall j | 0 <= j < i ensures tail[j] != QUOTE {
      assert !OccursAt(tail, [QUOTE], j);
    }
    var front := prefix + text + [QUOTE];
    assert s == prefix + (text + ([QUOTE] + rest)) && s == front + rest;
    forall j | OccursAt(text, CRLF, j) ensures false {
      OccursJoined(text, [QUOTE] + rest, CRLF, j);
      OccursJoined(prefix, text + ([QUOTE] + rest), CRLF, j);
    }
    forall j | OccursAt(rest, CRLF, j) ensures false {
      OccursJoined(front, rest, CRLF, j);
    }
  }

  lemma ParseHeadStrict(name: Bytes, afterName: Bytes, typeLine: Bytes, result: (Bytes, Option<FileHead>))
    requires ParseHead(name, afterName, typeLine) == Some(result) && Absent(afterName, CRLF)
    ensures result.0 == name && result.1.Some? && Quotable(result.1.value.filename)
    ensures afterName == FILENAME + result.1.value.filename + [QUOTE] && typeLine == CONTENT_TYPE + result.1.value.contentType
  {
    ParseQuotedIs(afterName, FILENAME);
    assert typeLine == CONTENT_TYPE + typeLine[|CONTENT_TYPE|..];
  }

  /** A header that is read is the header the encoder writes for what was read. */
  lemma ParseHeaderStrict(h: Bytes, p: Part)
    requires ParseHeader(h) == Some((p.name, p.file))
    ensures h == Header(p) && Quotable(p.name) && (p.file.Some? ==> Quotable(p.file.value.filename))
  {
    hide ParseHead, ParseQuoted, OccursAt;
    match Find(h, CRLF, 0)
    case None =>
      forall j | OccursAt(h, CRLF, j) ensures false {
        OccursStart(h, CRLF, j);
      }
      ParseQuotedIs(h, DISPOSITION);
    case Some(i) =>
      OccursStart(h, CRLF, i);
      var line, typeLine := h[..i], h[i + 2..];
      OccursPoint(h, CRLF, i, 0);
      OccursPoint(h, CRLF, i, 1);
      assert h == line + CRLF + typeLine && h == line + (CRLF + typeLine);
      forall j | OccursAt(line, CRLF, j) ensures false {
        OccursStart(line, CRLF, j);
        OccursJoined(line, CRLF + typeLine, CRLF, j);
      }
      ParseQuotedIs(line, DISPOSITION);
      var (name, rest) := ParseQuoted(line, DISPOSITION).value;
      ParseHeadStrict(name, rest, typeLine, (p.name, p.file));
      assert line == FirstLine(p);
      HeaderIs(p);
  }

  lemma TypeStartIs(p: Part)
    ensures forall k :: 1 <= k < |TypeStart(p)| ==> TypeStart(p)[k] != CR
    ensures p.file.Some? ==> |TypeStart(p)| > 2 && TypeStart(p)[2] == CONTENT_TYPE[0]
  {
    assert CR !in CONTENT_TYPE;
    forall k | 1 <= k < |TypeStart(p)| ensures TypeStart(p)[k] != CR {
      assert k > 1 ==> TypeStart(p)[k] == CONTENT_TYPE[k - 2];
    }
  }

  /** Nothing that starts with CRLF, other than the line of the content type, starts before that type. */
  lemma NothingBeforeType(p: Part, rest: Bytes, pat: Bytes, j: nat)
    requires Quotable(p.name) && (p.file.Some? ==> Quotable(p.file.value.filename))
    requires |pat| > 2 && CRLF <= pat && pat[2] != CONTENT_TYPE[0] && j < |FirstLine(p) + TypeStart(p)|
    ensures !OccursAt(FirstLine(p) + TypeStart(p) + rest, pat, j)
  {
    FirstLineIs(p);
    TypeStartIs(p);
    hide FirstLine, TypeStart, OccursAt;
    assert pat[0] == CRLF[0] && pat[1] == CRLF[1];
    var line, start := FirstLine(p), TypeStart(p);
    if j < |line| {
      NothingInLine(line, start + rest, pat, j);
      assert line + start + rest == line + (start + rest);
    } else {
      NothingInStart(line, start, rest, pat, j - |line|);
    }
  }

  lemma NothingInLine(line: Bytes, rest: Bytes, pat: Bytes, j: nat)
    requires Absent(line, CRLF) && j < |line| && line[|line| - 1] == QUOTE
    requires |pat| > 1 && pat[0] == CR && pat[1] == LF
    ensures !OccursAt(line + rest, pat, j)
  {
    var s := line + rest;
    if j == |line| - 1 {
      Mismatch(s, pat, j, 0);
    } else {
      assert s[j] == line[j] && s[j + 1] == line[j + 1];
      assert !OccursAt(line, CRLF, j);
      Mismatch(s, pat, j, if line[j] == CR then 1 else 0);
    }
  }

  lemma NothingInStart(line: Bytes, start: Bytes, rest: Bytes, pat: Bytes, k: nat)
    requires k < |start| && |start| > 2 && forall i :: 1 <= i < |start| ==> start[i] != CR
    requires |pat| > 2 && pat[0] == CR && pat[2] != start[2]
    ensures !OccursAt(line + start + rest, pat, |line| + k)
  {
    var s := line + start + rest;
    assert s[|line| + k] == start[k] && s[|line| + 2] == start[2];
    Mismatch(s, pat, |line| + k, if k == 0 then 2 else 0);
  }

  lemma BlankLineStart(s: Bytes, j: nat)
    requires j < |s| && (s[j] != CR || (j + 1 < |s| && s[j + 1] != LF))
    ensures !OccursAt(s, BLANK_LINE, j)
  {
    assert BLANK_LINE[0] == CR && BLANK_LINE[1] == LF;
    Mismatch(s, BLANK_LINE, j, if s[j] != CR then 0 else 1);
  }

  /** A blank line starts inside the content type exactly where one starts in it with its line end. */
  lemma BlankLineInType(t: Bytes, data: Bytes, j: nat)
    requires j < |t|
    ensures OccursAt(t + BLANK_LINE + data, BLANK_LINE, j) <==> OccursAt(t + CRLF, BLANK_LINE, j)
  {
    var tail := t + BLANK_LINE + data;
    assert tail == (t + CRLF) + (CRLF + data);
    if j == |t| - 1 {
      BlankLineStart(tail, j);
    } else {
      OccursJoined(t + CRLF, CRLF + data, BLANK_LINE, j);
    }
  }

  /** The first blank line is the one behind the header exactly when the content type does not hold or complete one. */
  lemma BlankLineAfterHeader(p: Part)
    requires Quotable(p.name) && (p.file.Some? ==> Quotable(p.file.value.filename))
    ensures Find(Content(p), BLANK_LINE, 0) == Some(|Header(p)|) <==> Absent(TypeText(p) + CRLF, BLANK_LINE)
  {
    hide FirstLine, TypeStart, TypeText, Header, Content;
    var c, front, t := Content(p), FirstLine(p) + TypeStart(p), TypeText(p);
    var tail := t + BLANK_LINE + p.data;
    HeaderIs(p);
    assert c == front + tail && |Header(p)| == |front| + |t|;
    forall j | 0 <= j < |front| ensures !OccursAt(c, BLANK_LINE, j) {
      assert CONTENT_TYPE[0] == 67;
      NothingBeforeType(p, tail, BLANK_LINE, j);
    }
    forall i | 0 <= i < |t| ensures OccursAt(c, BLANK_LINE, |front| + i) <==> OccursAt(t + CRLF, BLANK_LINE, i) {
      OccursJoined(front, tail, BLANK_LINE, i);
      BlankLineInType(t, p.data, i);
    }
    assert OccursAt(c, BLANK_LINE, |front| + |t|) by {
      OccursJoined(front, tail, BLANK_LINE, |t|);
    }
    hide OccursAt;
    if Absent(t + CRLF, BLANK_LINE) {
      forall j | 0 <= j < |Header(p)| ensures !OccursAt(c, BLANK_LINE, j) {
        if j >= |front| {
          var i := j - |front|;
          assert !OccursAt(t + CRLF, BLANK_LINE, i) && |front| + i == j;
        }
      }
      FindIs(c, BLANK_LINE, |Header(p)|);
    } else {
      var i :| OccursAt(t + CRLF, BLANK_LINE, i);
      OccursStart(t + CRLF, BLANK_LINE, i);
      assert OccursAt(c, BLANK_LINE, |front| + i);
    }
  }

  /** What is read as `p` is the content of `p` and nothing else, provided its header can be read back. */
  lemma ParsePartIff(x: Bytes, p: Part)
    ensures ParsePart(x) == Some(p) <==> x == Content(p) && ReadableHeader(p)
  {
    hide ParseHeader, Header;
    if ParsePart(x) == Some(p) {
      var i := Find(x, BLANK_LINE, 0).value;
      ParseHeaderStrict(x[..i], p);
      forall k | 0 <= k < 4 ensures x[i + k] == BLANK_LINE[k] {
        OccursPoint(x, BLANK_LINE, i, k);
      }
      assert x == x[..i] + BLANK_LINE + x[i + 4..];
      BlankLineAfterHeader(p);
    }
    if x == Content(p) && ReadableHeader(p) {
      BlankLineAfterHeader(p);
      ParseHeaderOf(p);
      assert x[..|Header(p)|] == Header(p) && x[|Header(p)| + 4..] == p.data;
    }
  }

  lemma DelimiterShape(boundary: Bytes)
    requires CR !in boundary
    ensures var d := Delimiter(boundary);
            && CRLF <= d && |d| > 3 && d[0] == CR && d[1] == LF && d[2] == DASH && d[2] != CONTENT_TYPE[0]
            && forall k :: 0 < k < |d| ==> d[k] != CR
  {
    assert CONTENT_TYPE[0] == 67;
  }

  /** Behind a text without one, the next delimiter is in what follows its line end. */
  lemma DelimiterBehind(boundary: Bytes, t: Bytes, data: Bytes, i: nat)
    requires CR !in boundary && OccursAt(t + BLANK_LINE + data, Delimiter(boundary), i)
    ensures OccursAt(t, Delimiter(boundary), i) || OccursAt(CRLF + data, Delimiter(boundary), i - |t| - 2)
  {
    hide Delimiter;
    var d, body := Delimiter(boundary), CRLF + data;
    var tail := t + BLANK_LINE + data;
    DelimiterShape(boundary);
    assert tail == (t + CRLF) + body && tail == t + (CRLF + body);
    if i + |d| <= |t| {
      OccursJoined(t, CRLF + body, d, i);
    } else if i < |t| {
      OccursPoint(tail, d, i, |t| - i);
    } else {
      assert tail[|t| + 2] == CR && tail[|t| + 1] == LF;
      assert i != |t| && i != |t| + 1;
      OccursJoined(t + CRLF, body, d, i - |t| - 2);
    }
  }

  /** Where a delimiter can be in a content: in the content type, or in the body taken with the CRLF before it. */
  lemma DelimiterInContent(boundary: Bytes, p: Part)
    requires CR !in boundary && ReadableHeader(p)
    ensures Absent(Content(p), Delimiter(boundary)) <==> Absent(TypeText(p), Delimiter(boundary)) && Clean(boundary, p)
  {
    hide Delimiter, OccursAt, FirstLine, TypeStart, TypeText, Content;
    var c, front, t, d := Content(p), FirstLine(p) + TypeStart(p), TypeText(p), Delimiter(boundary);
    var body := CRLF + p.data;
    var tail := t + BLANK_LINE + p.data;
    HeaderIs(p);
    DelimiterShape(boundary);
    forall j | OccursAt(c, d, j) ensures !Absent(t, d) || !Absent(body, d) {
      OccursStart(c, d, j);
      if j < |front| {
        NothingBeforeType(p, tail, d, j);
      } else {
        OccursJoined(front, tail, d, j - |front|);
        DelimiterBehind(boundary, t, p.data, j - |front|);
      }
    }
    assert tail == (t + CRLF) + body && tail == t + (CRLF + body);
    forall i | OccursAt(t, d, i) ensures OccursAt(c, d, |front| + i) {
      OccursStart(t, d, i);
      OccursJoined(t, CRLF + body, d, i);
      OccursJoined(front, tail, d, i);
    }
    forall i | OccursAt(body, d, i) ensures OccursAt(c, d, |front| + (|t| + 2 + i)) {
      OccursStart(body, d, i);
      OccursJoined(t + CRLF, body, d, i);
      OccursJoined(front, tail, d, |t| + 2 + i);
    }
  }

  /** A delimiter after `content` starts where it is written: it cannot overlap its own beginning,
      because CR is its first byte only. */
  lemma FirstDelimiter(boundary: Bytes, content: Bytes, rest: Bytes)
    requires CR !in boundary
    ensures var r := Find(content + Delimiter(boundary) + rest, Delimiter(boundary), 0);
            && r.Some? && r.value <= |content|
            && (r.value == |content| <==> Absent(content, Delimiter(boundary)))
  {
    var d := Delimiter(boundary);
    var s, n := content + d + rest, |content|;
    assert OccursAt(s, d, n);
    assert s[n] == CR && forall k :: 0 < k < |d| ==> d[k] != CR;
    forall j | 0 <= j < n ensures OccursAt(s, d, j) <==> OccursAt(content, d, j) {
      assert n < j + |d| ==> s[j + (n - j)] != d[n - j];
    }
    var r := Find(s, d, 0);
    assert r.Some? && r.value <= n;
    if r.value < n {
      assert OccursAt(content, d, r.value);
    }
  }

  /** What follows the first delimiter when CRLF is put before the body. */
  function AfterDelimiter(boundary: Bytes, ps: seq<Part>): Bytes {
    if ps == [] then DASHES + CRLF
    else CRLF + Content(ps[0]) + Delimiter(boundary) + AfterDelimiter(boundary, ps[1..])
  }

  lemma EncodeUnfold(boundary: Bytes, ps: seq<Part>)
    requires ps != []
    ensures Encode(boundary, ps) == EncodePart(boundary, ps[0]) + Encode(boundary, ps[1..])
  {
    var a, b := EncodePart(boundary, ps[0]), EncodeParts(boundary, ps[1..]);
    var c := DashBoundary(boundary);
    assert EncodeParts(boundary, ps) == a + b;
    assert a + b + c + DASHES + CRLF == a + (b + c + DASHES + CRLF);
  }

  lemma {:induction false} EncodeStartsWithDelimiter(boundary: Bytes, ps: seq<Part>)
    ensures CRLF + Encode(boundary, ps) == Delimiter(boundary) + AfterDelimiter(boundary, ps)
  {
    var b := DashBoundary(boundary);
    if ps == [] {
      assert Encode(boundary, []) == b + (DASHES + CRLF);
      assert CRLF + (b + (DASHES + CRLF)) == CRLF + b + (DASHES + CRLF);
    } else {
      EncodeStartsWithDelimiter(boundary, ps[1..]);
      EncodeUnfold(boundary, ps);
      Regroup(b, Content(ps[0]), Encode(boundary, ps[1..]), Delimiter(boundary), AfterDelimiter(boundary, ps[1..]));
    }
  }

  lemma Regroup(b: Bytes, content: Bytes, encoded: Bytes, d: Bytes, after: Bytes)
    requires CRLF + encoded == d + after
    ensures CRLF + ((b + CRLF + content + CRLF) + encoded) == (CRLF + b) + (CRLF + content + d + after)
  {
    assert (b + CRLF + content + CRLF) + encoded == b + CRLF + content + (CRLF + encoded);
    assert (CRLF + content + d + after) == CRLF + content + (d + after);
    assert CRLF + (b + CRLF + content + (d + after)) == (CRLF + b) + (CRLF + content + (d + after));
  }

  /** One round of the decoder, on a delimiter line without padding. */
  lemma DecodeStep(boundary: Bytes, rest: Bytes)
    requires Find(rest, Delimiter(boundary), 0).Some?
    ensures var i := Find(rest, Delimiter(boundary), 0).value;
            var p := ParsePart(rest[..i]);
            && !(DASHES <= CRLF + rest)
            && NextPart(boundary, CRLF + rest) ==
               if p.Some? then Some((p.value, rest[i + |Delimiter(boundary)|..])) else None
  {
    hide ParsePart;
    var s := CRLF + rest;
    assert s[0] == CR && s[1] == LF && s[2..] == rest && SkipPadding(s) == s;
    assert CRLF <= s;
  }

  lemma {:induction false} DecodeAfterDelimiter(boundary: Bytes, ps: seq<Part>)
    requires CR !in boundary
    ensures DecodeParts(boundary, AfterDelimiter(boundary, ps)) == Some(ps) <==> AllReadable(boundary, ps)
  {
    hide ParsePart, NextPart, Clean, ReadableHeader, Content, TypeText;
    if ps != [] {
      var p, tail, d := ps[0], AfterDelimiter(boundary, ps[1..]), Delimiter(boundary);
      var rest := Content(p) + d + tail;
      assert AfterDelimiter(boundary, ps) == CRLF + rest;
      FirstDelimiter(boundary, Content(p), tail);
      DecodeStep(boundary, rest);
      var i := Find(rest, d, 0).value;
      assert rest[..i] == Content(p)[..i];
      ParsePartIff(Content(p)[..i], p);
      assert Content(p)[..i] == Content(p) <==> i == |Content(p)|;
      if ReadableHeader(p) {
        DelimiterInContent(boundary, p);
      }
      DecodeAfterDelimiter(boundary, ps[1..]);
      assert ps == [p] + ps[1..] && (AllReadable(boundary, ps) <==> Readable(boundary, p) && AllReadable(boundary, ps[1..]));
      assert i == |Content(p)| ==> rest[i + |d|..] == tail;
    }
  }

  ghost predicate AllReadable(boundary: Bytes, ps: seq<Part>) { forall p :: p in ps ==> Readable(boundary, p) }

  /** Exactly when the round trip holds: the receiver sees the parts in order, byte for byte, if and only if
      every header can be read back and no delimiter stands in a content type or body. */
  lemma {:induction false} RoundTripIff(boundary: Bytes, ps: seq<Part>)
    requires CR !in boundary
    ensures Decode(boundary, Encode(boundary, ps)) == Some(ps) <==> AllReadable(boundary, ps)
  {
    var d := Delimiter(boundary);
    EncodeStartsWithDelimiter(boundary, ps);
    var s := CRLF + Encode(boundary, ps);
    FindIs(s, d, 0);
    assert s[|d|..] == AfterDelimiter(boundary, ps);
    DecodeAfterDelimiter(boundary, ps);
  }

  ghost predicate ReadableField(boundary: Bytes, f: Field) {
    f.value.Some? ==> Quotable(f.name) && Absent(CRLF + f.value.value, Delimiter(boundary))
  }

  ghost predicate ReadableFile(boundary: Bytes, f: FileField) {
    && Quotable(f.fieldName) && Quotable(f.filename)
    && Absent(f.contentType + CRLF, BLANK_LINE) && Absent(f.contentType, Delimiter(boundary))
    && Absent(CRLF + f.data, Delimiter(boundary))
  }

  /** Round trip of the encoder's arguments: the non-None fields in order and then the file. */
  lemma {:induction false} RoundTrip(boundary: Bytes, fields: seq<Field>, file: Option<FileField>)
    requires CR !in boundary
    ensures var ps := FieldParts(fields) + FileParts(file);
            Decode(boundary, Encode(boundary, ps)) == Some(ps) <==>
            && (forall f :: f in fields ==> ReadableField(boundary, f))
            && (file.Some? ==> ReadableFile(boundary, file.value))
  {
    hide Decode, Encode, FieldParts;
    var ps := FieldParts(fields) + FileParts(file);
    RoundTripIff(boundary, ps);
    FieldsReadable(boundary, fields);
    assert AllReadable(boundary, ps) <==> AllReadable(boundary, FieldParts(fields)) && AllReadable(boundary, FileParts(file)) by {
      hide Readable;
      assert forall p :: p in ps <==> p in FieldParts(fields) || p in FileParts(file);
    }
    if file.Some? {
      assert FileParts(file)[0] in FileParts(file);
    }
  }

  lemma {:induction false} FieldsReadable(boundary: Bytes, fields: seq<Field>)
    ensures AllReadable(boundary, FieldParts(fields)) <==> forall f :: f in fields ==> ReadableField(boundary, f)
  {
    hide ReadableField, Readable;
    if fields != [] {
      var n := |fields| - 1;
      FieldsReadable(boundary, fields[..n]);
      assert fields == fields[..n] + [fields[n]];
      FieldReadable(boundary, fields[n]);
      assert forall p :: p in FieldParts(fields) <==> p in FieldParts(fields[..n]) || p in FieldPart(fields[n]);
    }
  }

  lemma FieldReadable(boundary: Bytes, f: Field)
    ensures AllReadable(boundary, FieldPart(f)) <==> ReadableField(boundary, f)
  {
    NoTypeText(boundary);
    if f.value.Some? {
      var p := Part(f.name, None, f.value.value);
      assert FieldPart(f) == [p] && TypeText(p) == [];
      assert p in FieldPart(f);
    }
  }

  lemma NoTypeText(boundary: Bytes)
    ensures Absent([] + CRLF, BLANK_LINE) && Absent([], Delimiter(boundary))
  {
  }

  /** Single-line header texts can be read back. */
  lemma PlainHeader(boundary: Bytes, p: Part)
    requires QUOTE !in p.name && CR !in p.name && CR !in TypeText(p)
    requires p.file.Some? ==> QUOTE !in p.file.value.filename && CR !in p.file.value.filename
    ensures Readable(boundary, p) <==> Clean(boundary, p)
  {
    AbsentWithoutCr(p.name);
    if p.file.Some? {
      AbsentWithoutCr(p.file.value.filename);
    }
    var t := TypeText(p);
    assert BLANK_LINE[0] == CR;
    forall i ensures !OccursAt(t + CRLF, BLANK_LINE, i) {
      if 0 <= i < |t| {
        Mismatch(t + CRLF, BLANK_LINE, i, 0);
      }
    }
    forall i | OccursAt(t, Delimiter(boundary), i) ensures false {
      OccursPoint(t, Delimiter(boundary), i, 0);
    }
  }

  /** The freshness a uuid gives: if `--boundary` occurs nowhere in a body, the body is clean. */
  lemma AbsentBoundaryIsClean(boundary: Bytes, p: Part)
    requires Absent(p.data, DashBoundary(boundary))
    ensures Clean(boundary, p)
  {
    var d := Delimiter(boundary);
    forall i | OccursAt(CRLF + p.data, d, i) ensures false {
      forall k | 0 <= k < |d| - 2 ensures p.data[i + k] == DashBoundary(boundary)[k] {
        OccursPoint(CRLF + p.data, d, i, k + 2);
      }
      assert OccursAt(p.data, DashBoundary(boundary), i);
    }
  }
}
