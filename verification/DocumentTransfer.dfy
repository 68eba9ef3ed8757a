/** Document transfer of the Word add-in: bytes collected from file slices, the
    `btoa`/`atob` pair (section 4 of RFC 4648, with the forgiving decoding of the
    WHATWG Infra standard), and the conversions from and to blobs. */
module DocumentTransfer {
  import opened Wrappers
  import opened Octets

  type Sextet = i: int | 0 <= i < 64

  // ------------------------------------------------------------ alphabet

  function Encode6(v: Sextet): (c: char)
    ensures IsAlphabet(c)
  {
    if v < 26 then 'A' + v as char
    else if v < 52 then 'a' + (v - 26) as char
    else if v < 62 then '0' + (v - 52) as char
    else if v == 62 then '+' else '/'
  }

  predicate IsAlphabet(c: char) {
    'A' <= c <= 'Z' || 'a' <= c <= 'z' || '0' <= c <= '9' || c == '+' || c == '/'
  }

  function Decode6(c: char): (v: Sextet)
    requires IsAlphabet(c)
  {
    if 'A' <= c <= 'Z' then (c - 'A') as int
    else if 'a' <= c <= 'z' then (c - 'a') as int + 26
    else if '0' <= c <= '9' then (c - '0') as int + 52
    else if c == '+' then 62 else 63
  }

  lemma AlphabetRoundTrip(v: Sextet)
    ensures Decode6(Encode6(v)) == v
    ensures v == 0 ==> Encode6(v) == 'A'
  {
  }

  /** Table 1 of RFC 4648, section 4. */
  function RfcTable(v: Sextet): char {
    if v < 13 then "ABCDEFGHIJKLM"[v]
    else if v < 26 then "NOPQRSTUVWXYZ"[v - 13]
    else if v < 39 then "abcdefghijklm"[v - 26]
    else if v < 52 then "nopqrstuvwxyz"[v - 39]
    else if v < 62 then "0123456789"[v - 52]
    else "+/"[v - 62]
  }

  lemma Letters(k: nat)
    requires k < 13
    ensures "ABCDEFGHIJKLM"[k] == 'A' + k as char && "NOPQRSTUVWXYZ"[k] == 'N' + k as char
    ensures "abcdefghijklm"[k] == 'a' + k as char && "nopqrstuvwxyz"[k] == 'n' + k as char
  {
    assert k == 0 || k == 1 || k == 2 || k == 3 || k == 4 || k == 5 || k == 6
           || k == 7 || k == 8 || k == 9 || k == 10 || k == 11 || k == 12;
  }

  lemma Numerals(k: nat)
    requires k < 10
    ensures "0123456789"[k] == '0' + k as char
  {
    assert k == 0 || k == 1 || k == 2 || k == 3 || k == 4 || k == 5 || k == 6 || k == 7 || k == 8 || k == 9;
  }

  /** The alphabet is the standard's, in both directions. */
  lemma AlphabetIs(v: Sextet)
    ensures Encode6(v) == RfcTable(v) && IsAlphabet(RfcTable(v)) && Decode6(RfcTable(v)) == v
  {
    AlphabetRoundTrip(v);
    hide Decode6;
    if v < 13 {
      Letters(v);
    } else if v < 26 {
      Letters(v - 13);
    } else if v < 39 {
      Letters(v - 26);
    } else if v < 52 {
      Letters(v - 39);
    } else if v < 62 {
      Numerals(v - 52);
    }
  }

  // ------------------------------------------------------------ btoa

  predicate AllAlphabet(s: string) { forall i :: 0 <= i < |s| ==> IsAlphabet(s[i]) }

  /** A 24-bit group as four characters. */
  function Quad(a: byte, b: byte, c: byte): (q: string)
    ensures |q| == 4 && AllAlphabet(q)
  {
    var x, y, z := a as int, b as int, c as int;
    [Encode6(x / 4), Encode6(x % 4 * 16 + y / 16), Encode6(y % 16 * 4 + z / 64), Encode6(z % 64)]
  }

  function Btoa(s: Bytes): string {
    if |s| == 0 then ""
    else if |s| == 1 then Quad(s[0], 0, 0)[..2] + "=="
    else if |s| == 2 then Quad(s[0], s[1], 0)[..3] + "="
    else Quad(s[0], s[1], s[2]) + Btoa(s[3..])
  }

  // ------------------------------------------------------------ atob

  predicate IsAsciiSpace(c: char) { c == '\t' || c == '\n' || c == '\U{000C}' || c == '\r' || c == ' ' }

  function StripSpace(s: string): string {
    if s == [] then [] else (if IsAsciiSpace(s[0]) then [] else [s[0]]) + StripSpace(s[1..])
  }

  /** One or two trailing `=` are dropped from a text of full groups. */
  function StripPadding(s: string): string {
    if |s| % 4 != 0 || s == [] || s[|s| - 1] != '=' then s
    else if s[|s| - 2] == '=' then s[..|s| - 2] else s[..|s| - 1]
  }

  /** Four characters as a 24-bit group. */
  function Ungroup(q: string): (r: Bytes)
    requires |q| == 4 && AllAlphabet(q)
    ensures |r| == 3
  {
    var a, b, c, d := Decode6(q[0]), Decode6(q[1]), Decode6(q[2]), Decode6(q[3]);
    [(a * 4 + b / 16) as byte, (b % 16 * 16 + c / 4) as byte, (c % 4 * 64 + d) as byte]
  }

  /** Groups of four sextets into bytes; of an incomplete last group the bits that fill no byte are discarded. */
  function DecodeGroups(s: string): Option<Bytes> {
    if |s| == 0 then Some([])
    else if |s| == 1 || !AllAlphabet(s) then None
    else if |s| == 2 then Some(Ungroup(s + "AA")[..1])
    else if |s| == 3 then Some(Ungroup(s + "A")[..2])
    else
      match DecodeGroups(s[4..])
      case None => None
      case Some(rest) => Some(Ungroup(s[..4]) + rest)
  }

  /** Forgiving base64 decoding: `None` where `atob` throws. */
  function Atob(s: string): Option<Bytes> {
    DecodeGroups(StripPadding(StripSpace(s)))
  }

  // ------------------------------------------------------------ round trip

  /** The encoding without its padding. */
  function Core(s: Bytes): string {
    if |s| == 0 then ""
    else if |s| == 1 then Quad(s[0], 0, 0)[..2]
    else if |s| == 2 then Quad(s[0], s[1], 0)[..3]
    else Quad(s[0], s[1], s[2]) + Core(s[3..])
  }

  function Padding(n: nat): string {
    if n % 3 == 0 then "" else if n % 3 == 1 then "==" else "="
  }

  lemma CoreStep(s: Bytes)
    requires |s| >= 3
    ensures Core(s) == Quad(s[0], s[1], s[2]) + Core(s[3..]) && Btoa(s) == Quad(s[0], s[1], s[2]) + Btoa(s[3..])
  {
  }

  lemma SizeStep(n: nat)
    requires n >= 3
    ensures n + (n + 2) / 3 == 4 + (n - 3) + (n - 3 + 2) / 3 && Padding(n) == Padding(n - 3)
  {
  }

  lemma AlphabetConcat(a: string, b: string)
    requires AllAlphabet(a) && AllAlphabet(b)
    ensures AllAlphabet(a + b)
  {
  }

  lemma ShortCore(s: Bytes)
    requires |s| < 3
    ensures Btoa(s) == Core(s) + Padding(|s|)
    ensures |Core(s)| == |s| + (|s| + 2) / 3 && AllAlphabet(Core(s))
  {
  }

  lemma {:induction false} CoreShape(s: Bytes)
    ensures Btoa(s) == Core(s) + Padding(|s|)
    ensures |Core(s)| == |s| + (|s| + 2) / 3 && AllAlphabet(Core(s))
  {
    hide Quad, Core, Btoa, Padding, AllAlphabet;
    if |s| < 3 {
      ShortCore(s);
    } else {
      CoreShape(s[3..]);
      CoreStep(s);
      SizeStep(|s|);
      var four := Quad(s[0], s[1], s[2]);
      AlphabetConcat(four, Core(s[3..]));
      assert four + (Core(s[3..]) + Padding(|s[3..]|)) == four + Core(s[3..]) + Padding(|s|);
    }
  }

  lemma {:induction false} NothingToStrip(t: string)
    requires forall i :: 0 <= i < |t| ==> !IsAsciiSpace(t[i])
    ensures StripSpace(t) == t
  {
    if t != [] {
      NothingToStrip(t[1..]);
    }
  }

  /** Padding and only padding is taken off. */
  lemma StripBtoa(s: Bytes)
    ensures StripPadding(StripSpace(Btoa(s))) == Core(s)
  {
    hide Core, Btoa, StripSpace;
    CoreShape(s);
    var t, core := Btoa(s), Core(s);
    NothingToStrip(t);
    StripPadded(core, |s|);
  }

  lemma NoPaddingIn(core: string)
    requires AllAlphabet(core)
    ensures StripPadding(core) == core
  {
    assert core != [] ==> IsAlphabet(core[|core| - 1]);
  }

  lemma StripOne(core: string)
    requires AllAlphabet(core) && |core| % 4 == 3
    ensures StripPadding(core + "=") == core
  {
    var t := core + "=";
    assert IsAlphabet(core[|core| - 1]) && t[|t| - 2] == core[|core| - 1] && t[..|t| - 1] == core;
  }

  lemma StripTwo(core: string)
    requires |core| % 4 == 2
    ensures StripPadding(core + "==") == core
  {
    var t := core + "==";
    assert t[|t| - 1] == '=' && t[|t| - 2] == '=' && t[..|t| - 2] == core;
  }

  lemma CoreSize(n: nat)
    ensures n % 3 == 1 ==> (n + (n + 2) / 3) % 4 == 2
    ensures n % 3 == 2 ==> (n + (n + 2) / 3) % 4 == 3
  {
    var k := n / 3;
    assert n == 3 * k + n % 3;
    assert n % 3 == 1 ==> n + (n + 2) / 3 == 4 * k + 2;
    assert n % 3 == 2 ==> n + (n + 2) / 3 == 4 * k + 3;
  }

  lemma StripPadded(core: string, n: nat)
    requires AllAlphabet(core) && |core| == n + (n + 2) / 3
    ensures StripPadding(core + Padding(n)) == core
  {
    hide AllAlphabet, StripPadding;
    CoreSize(n);
    if n % 3 == 0 {
      assert core + Padding(n) == core;
      NoPaddingIn(core);
    } else if n % 3 == 1 {
      StripTwo(core);
    } else {
      StripOne(core);
    }
  }

  lemma SplitBits(x: nat, y: nat, z: nat)
    requires x < 256 && y < 256 && z < 256
    ensures x / 4 * 4 + (x % 4 * 16 + y / 16) / 16 == x
    ensures (x % 4 * 16 + y / 16) % 16 * 16 + (y % 16 * 4 + z / 64) / 4 == y
    ensures (y % 16 * 4 + z / 64) % 4 * 64 + z % 64 == z
  {
  }

  /** Four encoded sextets, ungrouped. */
  lemma UngroupEncoded(w: Sextet, x: Sextet, y: Sextet, z: Sextet)
    ensures var q := [Encode6(w), Encode6(x), Encode6(y), Encode6(z)];
            AllAlphabet(q) && Ungroup(q) == [(w * 4 + x / 16) as byte, (x % 16 * 16 + y / 4) as byte, (y % 4 * 64 + z) as byte]
  {
    hide Encode6, Decode6;
    AlphabetRoundTrip(w);
    AlphabetRoundTrip(x);
    AlphabetRoundTrip(y);
    AlphabetRoundTrip(z);
  }

  lemma QuadRoundTrip(a: byte, b: byte, c: byte)
    ensures Ungroup(Quad(a, b, c)) == [a, b, c]
    ensures c == 0 ==> Quad(a, b, c)[3] == 'A'
    ensures b == 0 && c == 0 ==> Quad(a, b, c)[2] == 'A'
  {
    hide Encode6, Decode6, Ungroup;
    var x, y, z := a as int, b as int, c as int;
    SplitBits(x, y, z);
    UngroupEncoded(x / 4, x % 4 * 16 + y / 16, y % 16 * 4 + z / 64, z % 64);
    AlphabetRoundTrip(0);
  }

  lemma {:induction false} DecodeCore(s: Bytes)
    ensures DecodeGroups(Core(s)) == Some(s)
  {
    hide Quad, Ungroup;
    CoreShape(s);
    if |s| == 1 {
      QuadRoundTrip(s[0], 0, 0);
      assert Core(s) + "AA" == Quad(s[0], 0, 0);
      assert [s[0], 0, 0][..1] == s;
    } else if |s| == 2 {
      QuadRoundTrip(s[0], s[1], 0);
      assert Core(s) + "A" == Quad(s[0], s[1], 0);
      assert [s[0], s[1], 0][..2] == s;
    } else if |s| >= 3 {
      QuadRoundTrip(s[0], s[1], s[2]);
      DecodeCore(s[3..]);
      assert Core(s)[..4] == Quad(s[0], s[1], s[2]) && Core(s)[4..] == Core(s[3..]);
      assert s == [s[0], s[1], s[2]] + s[3..];
    }
  }

  /** `atob` undoes `btoa` for every byte sequence, whatever the padding. */
  lemma AtobBtoa(s: Bytes)
    ensures Atob(Btoa(s)) == Some(s)
  {
    StripBtoa(s);
    DecodeCore(s);
  }

  /** The four sextets of a group are its 24 bits from the most significant on. */
  lemma QuadBits(a: byte, b: byte, c: byte)
    ensures var q := Quad(a, b, c);
            ((Decode6(q[0]) * 64 + Decode6(q[1])) * 64 + Decode6(q[2])) * 64 + Decode6(q[3]) ==
            (a as int * 256 + b as int) * 256 + c as int
  {
    hide Encode6, Decode6;
    var x, y, z := a as int, b as int, c as int;
    AlphabetRoundTrip(x / 4);
    AlphabetRoundTrip(x % 4 * 16 + y / 16);
    AlphabetRoundTrip(y % 16 * 4 + z / 64);
    AlphabetRoundTrip(z % 64);
    assert x == x / 4 * 4 + x % 4 && y == y / 16 * 16 + y % 16 && z == z / 64 * 64 + z % 64;
  }

  lemma {:induction false} GroupsAccepted(t: string)
    ensures DecodeGroups(t).Some? <==> |t| % 4 != 1 && AllAlphabet(t)
  {
    hide Ungroup;
    if |t| >= 4 {
      GroupsAccepted(t[4..]);
      assert AllAlphabet(t) ==> AllAlphabet(t[4..]);
    }
  }

  /** What `atob` accepts: after taking out blanks and then up to two `=` that fill the last group, only characters
      of the alphabet, and not one left over. */
  lemma AtobAccepts(s: string)
    ensures Atob(s).Some? <==>
            var t := StripPadding(StripSpace(s)); |t| % 4 != 1 && AllAlphabet(t)
  {
    GroupsAccepted(StripPadding(StripSpace(s)));
  }

  /** The five blanks it takes out, anywhere. */
  lemma {:induction false} AtobSkips(a: string, c: char, b: string)
    requires c in "\t\n\U{000C}\r "
    ensures Atob(a + [c] + b) == Atob(a + b)
  {
    StripSkips(a, c, b);
  }

  lemma {:induction false} StripSkips(a: string, c: char, b: string)
    requires IsAsciiSpace(c)
    ensures StripSpace(a + [c] + b) == StripSpace(a + b)
  {
    if a == [] {
      assert ([] + [c] + b)[1..] == b && a + b == b;
    } else {
      StripSkips(a[1..], c, b);
      assert (a + [c] + b)[1..] == a[1..] + [c] + b && (a + b)[1..] == a[1..] + b;
    }
  }

  /** The padding may be missing. */
  lemma AtobUnpadded(s: Bytes)
    ensures Atob(Btoa(s)[..|Btoa(s)| - |Padding(|s|)|]) == Some(s)
  {
    CoreShape(s);
    DecodeCore(s);
    NothingToStrip(Core(s));
    NoPaddingIn(Core(s));
    hide Core, Btoa, DecodeGroups, StripSpace, StripPadding, Padding;
    assert Btoa(s)[..|Btoa(s)| - |Padding(|s|)|] == Core(s);
  }

  // ------------------------------------------------------------ slices and blobs

  /** `bytesToBase64`: a binary string of one character per byte, then `btoa`. */
  method BytesToBase64(bytes: Bytes) returns (base64: string)
    ensures base64 == Btoa(bytes)
  {
    var binary: string := "";
    for i := 0 to |bytes|
      invariant |binary| == i && forall k :: 0 <= k < i ==> binary[k] as int == bytes[k] as int
    {
      binary := binary + [bytes[i] as int as char];
    }
    var octets := seq(|binary|, i requires 0 <= i < |binary| && binary[i] as int < 256 => binary[i] as int as byte);
    assert octets == bytes;
    base64 := Btoa(octets);
  }

  /** An opened Office file: its slices as the host delivers them, `None` where delivery fails. */
  class OfficeFile {
    const slices: seq<Option<Bytes>>
    var closed: bool

    constructor (slices: seq<Option<Bytes>>)
      ensures this.slices == slices && !closed
    {
      this.slices, closed := slices, false;
    }
  }

  ghost predicate Delivers(slices: seq<Option<Bytes>>, chunks: seq<Bytes>) {
    |slices| == |chunks| && forall i :: 0 <= i < |chunks| ==> slices[i] == Some(chunks[i])
  }

  /** Why a transfer is rejected. */
  datatype Rejection = OpenFailed | SliceFailed(index: nat)

  function FilesOf(handle: Option<OfficeFile>): set<OfficeFile> { if handle.Some? then {handle.value} else {} }

  lemma DeliversAll(slices: seq<Option<Bytes>>) returns (chunks: seq<Bytes>)
    requires None !in slices
    ensures Delivers(slices, chunks)
  {
    assert forall i :: 0 <= i < |slices| ==> slices[i].Some?;
    chunks := seq(|slices|, i requires 0 <= i < |slices| => slices[i].value);
  }

  lemma DeliversOne(slices: seq<Option<Bytes>>, chunks: seq<Bytes>)
    requires Delivers(slices, chunks)
    ensures None !in slices && forall other :: Delivers(slices, other) ==> other == chunks
  {
    forall other | Delivers(slices, other) ensures other == chunks {
      assert forall k :: 0 <= k < |chunks| ==> slices[k] == Some(chunks[k]) && slices[k] == Some(other[k]);
    }
  }

  /** `getCurrentDocumentAsBase64`, `handle` being what the host's opening call yields: the slices in order,
      then one encoding of all bytes; an opened file is closed on every path, the first failure rejects. */
  method CurrentDocumentAsBase64(handle: Option<OfficeFile>) returns (r: Result<string, Rejection>)
    modifies FilesOf(handle)
    ensures handle.None? <==> r == Err(OpenFailed)
    ensures handle.Some? ==> handle.value.closed
    ensures handle.Some? ==> forall chunks :: Delivers(handle.value.slices, chunks) ==> r == Ok(Btoa(Join(chunks)))
    ensures handle.Some? ==> (r.Err? <==> None in handle.value.slices)
    ensures r.Err? && handle.Some? ==>
              var slices := handle.value.slices;
              r.error.SliceFailed? && r.error.index < |slices| && slices[r.error.index].None? && None !in slices[..r.error.index]
  {
    if handle.None? {
      return Err(OpenFailed);
    }
    var file := handle.value;
    var chunks: seq<Bytes> := [];
    var i := 0;
    while i < |file.slices|
      invariant 0 <= i <= |file.slices| && Delivers(file.slices[..i], chunks) && None !in file.slices[..i]
    {
      if file.slices[i].None? {
        file.closed := true;
        return Err(SliceFailed(i));
      }
      chunks := chunks + [file.slices[i].value];
      i := i + 1;
    }
    assert file.slices[..i] == file.slices;
    DeliversOne(file.slices, chunks);
    var base64 := BytesToBase64(Join(chunks));
    file.closed := true;
    r := Ok(base64);
  }

  /** One character per byte. */
  function BinaryString(bytes: Bytes): (s: string)
    ensures |s| == |bytes| && forall i :: 0 <= i < |s| ==> s[i] as int == bytes[i] as int
  {
    seq(|bytes|, i requires 0 <= i < |bytes| => bytes[i] as int as char)
  }

  /** `base64ToBlob`: fills the byte array from the decoded binary string. */
  method Base64ToBlob(base64: string) returns (blob: Option<Bytes>)
    ensures blob == Atob(base64)
  {
    var decoded := Atob(base64);
    if decoded.None? {
      return None;
    }
    var data := decoded.value;
    var binary := BinaryString(data);
    var bytes := new byte[|binary|](_ => 0);
    for i := 0 to |binary|
      invariant bytes[..i] == data[..i]
    {
      bytes[i] := binary[i] as int as byte;
    }
    assert bytes[..] == bytes[..|binary|] && data == data[..|binary|];
    blob := Some(bytes[..]);
  }

  /** `blobToBase64`. */
  method BlobToBase64(blob: Bytes) returns (base64: string)
    ensures Atob(base64) == Some(blob) && base64 == Btoa(blob)
  {
    base64 := BytesToBase64(blob);
    AtobBtoa(blob);
  }

  /** The file part of saving the open document: read it as base64, make a blob of that. Whatever slices
      the host cuts the document into, the blob holds exactly the document's bytes. */
  method SaveDocument(handle: Option<OfficeFile>) returns (blob: Result<Bytes, Rejection>)
    modifies FilesOf(handle)
    ensures handle.None? <==> blob == Err(OpenFailed)
    ensures handle.Some? ==> handle.value.closed
    ensures handle.Some? ==> forall chunks :: Delivers(handle.value.slices, chunks) ==> blob == Ok(Join(chunks))
    ensures handle.Some? ==> (blob.Err? <==> None in handle.value.slices)
    ensures blob.Err? && handle.Some? ==>
              var slices := handle.value.slices;
              blob.error.SliceFailed? && blob.error.index < |slices| && slices[blob.error.index].None?
              && None !in slices[..blob.error.index]
  {
    var base64 := CurrentDocumentAsBase64(handle);
    if base64.Err? {
      return Err(base64.error);
    }
    ghost var chunks := DeliversAll(handle.value.slices);
    DeliversOne(handle.value.slices, chunks);
    AtobBtoa(Join(chunks));
    var decoded := Base64ToBlob(base64.value);
    blob := Ok(decoded.value);
  }

  // ------------------------------------------------------------ encoding slice by slice

  /** The encodings of the slices one after the other, which the add-in does not send. */
  function EncodePieces(chunks: seq<Bytes>): string {
    if chunks == [] then "" else Btoa(chunks[0]) + EncodePieces(chunks[1..])
  }

  /** Every slice that is not followed by empty ones only has a length divisible by three. */
  ghost predicate Aligned(chunks: seq<Bytes>) {
    forall i :: 0 <= i < |chunks| ==> |chunks[i]| % 3 == 0 || AllEmpty(chunks[i + 1..])
  }

  ghost predicate AllEmpty(chunks: seq<Bytes>) { forall i :: 0 <= i < |chunks| ==> chunks[i] == [] }

  lemma {:induction false} EmptyPieces(chunks: seq<Bytes>)
    ensures AllEmpty(chunks) <==> Join(chunks) == []
    ensures AllEmpty(chunks) ==> EncodePieces(chunks) == ""
  {
    if chunks != [] {
      EmptyPieces(chunks[1..]);
      assert chunks == [chunks[0]] + chunks[1..];
      JoinFirst(chunks[0], chunks[1..]);
      assert AllEmpty(chunks) <==> chunks[0] == [] && AllEmpty(chunks[1..]);
    }
  }

  lemma AlignedUnfold(chunks: seq<Bytes>)
    requires chunks != []
    ensures Aligned(chunks) <==> (|chunks[0]| % 3 == 0 || AllEmpty(chunks[1..])) && Aligned(chunks[1..])
  {
    var rest := chunks[1..];
    assert forall i :: 0 <= i < |rest| ==> rest[i] == chunks[i + 1] && rest[i + 1..] == chunks[i + 1 + 1..];
    if Aligned(rest) && (|chunks[0]| % 3 == 0 || AllEmpty(rest)) {
      forall i | 0 <= i < |chunks| ensures |chunks[i]| % 3 == 0 || AllEmpty(chunks[i + 1..]) {
        if i > 0 {
          assert |rest[i - 1]| % 3 == 0 || AllEmpty(rest[i - 1 + 1..]);
        }
      }
    }
  }

  /** Two pieces: what follows a piece that does not fill its last group has to be empty. */
  lemma PairIff(a: Bytes, b: Bytes)
    ensures Btoa(a) + Btoa(b) == Btoa(a + b) <==> |a| % 3 == 0 || b == []
    ensures |a| % 3 != 0 && b != [] ==> |Btoa(a)| <= |Btoa(a + b)| && Btoa(a) != Btoa(a + b)[..|Btoa(a)|]
  {
    hide Core, Btoa;
    CoreShape(a);
    CoreShape(b);
    CoreShape(a + b);
    if b == [] {
      assert a + b == a && Btoa(b) == "";
    } else if |a| % 3 == 0 {
      WholeGroups(a, b);
    } else {
      assert Btoa(a)[|Core(a)|] == '=';
      assert Btoa(a + b)[|Core(a)|] == Core(a + b)[|Core(a)|];
      assert (Btoa(a) + Btoa(b))[|Core(a)|] == '=';
    }
  }

  /** Encoding slice by slice would give the text of the whole exactly where every cut is at a multiple of three. */
  lemma {:induction false} PiecewiseIff(chunks: seq<Bytes>)
    ensures EncodePieces(chunks) == Btoa(Join(chunks)) <==> Aligned(chunks)
  {
    hide Aligned, AllEmpty;
    EmptyPieces(chunks);
    if chunks == [] {
      NoPieces();
    } else {
      var a, rest := chunks[0], chunks[1..];
      assert chunks == [a] + rest;
      JoinFirst(a, rest);
      EmptyPieces(rest);
      PiecewiseIff(rest);
      AlignedUnfold(chunks);
      PairIff(a, Join(rest));
      hide Btoa;
      assert (Btoa(a) + EncodePieces(rest))[..|Btoa(a)|] == Btoa(a);
      assert (Btoa(a) + Btoa(Join(rest)))[|Btoa(a)|..] == Btoa(Join(rest));
      assert (Btoa(a) + EncodePieces(rest))[|Btoa(a)|..] == EncodePieces(rest);
    }
  }

  lemma NoPieces()
    ensures EncodePieces([]) == Btoa(Join([])) && Aligned([])
  {
  }

  lemma WholeGroups(a: Bytes, b: Bytes)
    requires |a| % 3 == 0
    ensures Btoa(a + b) == Btoa(a) + Btoa(b)
  {
    WholeGroupsOf(a, b, |a| / 3);
  }

  lemma {:induction false} WholeGroupsOf(a: Bytes, b: Bytes, groups: nat)
    requires |a| == 3 * groups
    ensures Btoa(a + b) == Btoa(a) + Btoa(b)
  {
    hide Quad, Btoa;
    if groups == 0 {
      assert a + b == b && Btoa(a) == "" by { EmptyText(a); }
    } else {
      var four := Quad(a[0], a[1], a[2]);
      FirstGroup(a);
      FirstGroup(a + b);
      WholeGroupsOf(a[3..], b, groups - 1);
      assert (a + b)[3..] == a[3..] + b;
      JoinGroups(four, Btoa(a[3..]), Btoa(b));
    }
  }

  lemma EmptyText(a: Bytes)
    ensures a == [] ==> Btoa(a) == ""
  {
  }

  lemma FirstGroup(a: Bytes)
    requires |a| >= 3
    ensures Btoa(a) == Quad(a[0], a[1], a[2]) + Btoa(a[3..])
  {
    CoreStep(a);
  }

  lemma JoinGroups(x: string, y: string, z: string)
    ensures x + (y + z) == x + y + z
  {
  }
}
