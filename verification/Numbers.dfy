/** Numbers of the form fields: `Number(text)` (StringToNumber, section 7.1.4.1.1
    of ECMA-262) and `String(number)` (Number::toString, section 6.1.6.1.20),
    on exact decimals. */
module Numbers {
  import opened Wrappers
  import opened Text

  /** `Decimal(m, e)` is m times ten to the e. */
  datatype Value = NaN | Infinite(negative: bool) | Decimal(mantissa: int, exponent: int)

  function Size(n: int): nat { if n < 0 then -n else n }

  /** Each number once: the mantissa has no trailing zero. */
  predicate Canonical(x: Value) {
    x.Decimal? ==> Size(x.mantissa) % 10 != 0 || x == Decimal(0, 0)
  }

  type Number = x: Value | Canonical(x) witness NaN

  function Normal(m: nat, e: int): Number {
    if m == 0 then Decimal(0, 0) else if m % 10 == 0 then Normal(m / 10, e + 1) else Decimal(m, e)
  }

  function Negated(x: Number): Number {
    match x
    case NaN => NaN
    case Infinite(negative) => Infinite(!negative)
    case Decimal(m, e) => Decimal(-m, e)
  }

  // ------------------------------------------------------------ reading

  /** The text before and after the first of the separators. */
  function Cut(s: string, separators: string): (string, Option<string>) {
    if s == [] then ([], None)
    else if s[0] in separators then ([], Some(s[1..]))
    else var (before, after) := Cut(s[1..], separators); ([s[0]] + before, after)
  }

  /** Digits with at most one point and an exponent, or `Infinity`. */
  function Unsigned(s: string): Option<Number> {
    if s == "Infinity" then Some(Infinite(false))
    else
      var (number, exponent) := Cut(s, "eE");
      var (whole, fraction) := Cut(number, ".");
      match (ParseNat(whole + Or(fraction, "")), if exponent.None? then Some(0) else ParseInt(exponent.value))
      case (Some(m), Some(e)) => Some(Normal(m, e - |Or(fraction, "")|))
      case _ => None
  }

  function RadixDigit(c: char): nat {
    if '0' <= c <= '9' then (c - '0') as nat
    else if 'a' <= c <= 'f' then (c - 'a') as nat + 10
    else if 'A' <= c <= 'F' then (c - 'A') as nat + 10
    else 16
  }

  function ParseRadix(s: string, radix: nat): Option<nat> {
    if s == [] || RadixDigit(s[|s| - 1]) >= radix then None
    else if |s| == 1 then Some(RadixDigit(s[0]))
    else match ParseRadix(s[..|s| - 1], radix)
      case None => None
      case Some(n) => Some(n * radix + RadixDigit(s[|s| - 1]))
  }

  /** The base announced by `0x`, `0o` or `0b`. */
  function RadixOf(s: string): Option<nat> {
    if |s| < 2 || s[0] != '0' then None
    else if s[1] in "xX" then Some(16)
    else if s[1] in "oO" then Some(8)
    else if s[1] in "bB" then Some(2)
    else None
  }

  /** `Number(s)`. */
  function NumberOf(s: string): Number {
    var t := Trim(s);
    if t == "" then Decimal(0, 0)
    else if RadixOf(t).Some? then
      match ParseRadix(t[2..], RadixOf(t).value) case None => NaN case Some(n) => Normal(n, 0)
    else if t[0] == '-' then
      match Unsigned(t[1..]) case None => NaN case Some(x) => Negated(x)
    else
      match Unsigned(if t[0] == '+' then t[1..] else t) case None => NaN case Some(x) => x
  }

  // ------------------------------------------------------------ printing

  function Zeros(n: nat): string { seq(n, _ => '0') }

  function Pointed(whole: string, fraction: Option<string>): string {
    if fraction.None? then whole else whole + ['.'] + fraction.value
  }

  /** The digits of the mantissa with the point `point` digits from the left: padded with zeros, in between,
      or in exponent form. */
  function PrintDecimal(m: nat, e: int): string {
    var s := PrintNat(m);
    var point := |s| + e;
    if 0 <= e && point <= 21 then s + Zeros(e)
    else if 0 < point <= 21 then Pointed(s[..point], Some(s[point..]))
    else if -6 < point <= 0 then Pointed("0", Some(Zeros(-point) + s))
    else (if |s| == 1 then s else Pointed(s[..1], Some(s[1..]))) + ['e'] + PrintExponent(point - 1)
  }

  function PrintExponent(n: int): string { if n < 0 then "-" + PrintNat(-n) else "+" + PrintNat(n) }

  /** `String(x)`. */
  function StringOf(x: Number): string {
    match x
    case NaN => "NaN"
    case Infinite(negative) => if negative then "-Infinity" else "Infinity"
    case Decimal(m, e) => if m < 0 then "-" + PrintDecimal(-m, e) else PrintDecimal(m, e)
  }

  // ------------------------------------------------------------ round trip

  predicate AllDigits(s: string) { forall c :: c in s ==> '0' <= c <= '9' }

  lemma {:induction false} CutIs(a: string, c: char, b: string, separators: string)
    requires forall d :: d in a ==> d !in separators
    requires c in separators
    ensures Cut(a, separators) == (a, None) && Cut(a + [c] + b, separators) == (a, Some(b))
  {
    var s := a + [c] + b;
    if a == [] {
      assert s[1..] == b;
    } else {
      CutIs(a[1..], c, b, separators);
      assert s[1..] == a[1..] + [c] + b;
      assert [a[0]] + a[1..] == a;
    }
  }

  lemma UnsignedParts(s: string, number: string, exponent: Option<string>, whole: string, fraction: Option<string>)
    requires s != "" && s[0] != 'I' && Cut(s, "eE") == (number, exponent) && Cut(number, ".") == (whole, fraction)
    ensures Unsigned(s) ==
            match (ParseNat(whole + Or(fraction, "")), if exponent.None? then Some(0) else ParseInt(exponent.value))
            case (Some(m), Some(e)) => Some(Normal(m, e - |Or(fraction, "")|))
            case _ => None
  {
    hide Cut, ParseNat, ParseInt, Normal;
    assert "Infinity"[0] == 'I';
  }

  /** A text of digits and a fraction, with and without an exponent, reads as its digits shifted. */
  lemma UnsignedOf(whole: string, fraction: Option<string>, exponent: string, m: nat, e: int)
    requires AllDigits(whole) && AllDigits(Or(fraction, "")) && whole != ""
    requires ParseNat(whole + Or(fraction, "")) == Some(m) && ParseInt(exponent) == Some(e)
    ensures Unsigned(Pointed(whole, fraction)) == Some(Normal(m, -|Or(fraction, "")|))
    ensures Unsigned(Pointed(whole, fraction) + ['e'] + exponent) == Some(Normal(m, e - |Or(fraction, "")|))
  {
    hide Cut, ParseNat, ParseInt, Normal, Unsigned;
    var number := Pointed(whole, fraction);
    assert whole[0] in whole && number[0] == whole[0] && (number + ['e'] + exponent)[0] == whole[0];
    CutIs(number, 'e', exponent, "eE");
    CutIs(whole, '.', Or(fraction, ""), ".");
    UnsignedParts(number, number, None, whole, fraction);
    UnsignedParts(number + ['e'] + exponent, number, Some(exponent), whole, fraction);
  }

  lemma ParseLast(s: string, c: char)
    requires '0' <= c <= '9' && s != ""
    ensures ParseNat([c]) == Some((c - '0') as nat)
    ensures ParseNat(s + [c]) == match ParseNat(s) case None => None case Some(n) => Some(10 * n + (c - '0') as nat)
  {
    assert (s + [c])[..|s|] == s;
  }

  lemma ParseNotLast(s: string, c: char)
    requires !('0' <= c <= '9')
    ensures ParseNat(s + [c]) == None
  {
  }

  lemma {:induction false} ZerosAlone(n: nat)
    requires n > 0
    ensures ParseNat(Zeros(n)) == Some(0)
  {
    hide ParseNat;
    if n == 1 {
      ParseLast("0", '0');
      assert Zeros(1) == ['0'];
    } else {
      ZerosAlone(n - 1);
      ParseLast(Zeros(n - 1), '0');
      assert Zeros(n) == Zeros(n - 1) + ['0'];
    }
  }

  lemma {:induction false} ZerosInFront(n: nat, s: string)
    requires s != "" && n > 0
    ensures ParseNat(Zeros(n) + s) == ParseNat(s)
  {
    hide ParseNat;
    var front, c := s[..|s| - 1], s[|s| - 1];
    assert s == front + [c] && Zeros(n) + s == (Zeros(n) + front) + [c];
    if !('0' <= c <= '9') {
      ParseNotLast(front, c);
      ParseNotLast(Zeros(n) + front, c);
    } else {
      ParseLast(Zeros(n) + front, c);
      if front == [] {
        ZerosAlone(n);
        assert Zeros(n) + front == Zeros(n) && s == [c];
      } else {
        ParseLast(front, c);
        ZerosInFront(n, front);
      }
    }
  }

  lemma NormalTen(m: nat, e: int)
    ensures Normal(10 * m, e) == Normal(m, e + 1)
  {
  }

  lemma {:induction false} ZerosBehind(s: string, n: nat, e: int)
    requires ParseNat(s).Some?
    ensures ParseNat(s + Zeros(n)).Some? && Normal(ParseNat(s + Zeros(n)).value, e) == Normal(ParseNat(s).value, e + n)
  {
    hide Normal;
    if n == 0 {
      assert s + Zeros(0) == s;
    } else {
      ZerosBehind(s, n - 1, e + 1);
      hide ParseNat;
      ParseLast(s + Zeros(n - 1), '0');
      assert s + Zeros(n) == s + Zeros(n - 1) + ['0'];
      NormalTen(ParseNat(s + Zeros(n - 1)).value, e);
    }
  }

  lemma ParseExponent(n: int)
    ensures ParseInt(PrintExponent(n)) == Some(n)
  {
    hide PrintNat, ParseNat;
    var size := Size(n);
    ParsePrintNat(size);
    assert PrintExponent(n)[1..] == PrintNat(size);
  }

  predicate NumberChar(c: char) { '0' <= c <= '9' || c == '.' || c == 'e' || c == '+' || c == '-' }

  /** What a printed decimal looks like: it begins and ends with a digit and announces no base. */
  ghost predicate DecimalText(s: string) {
    && s != "" && '0' <= s[0] <= '9' && '0' <= s[|s| - 1] <= '9'
    && forall c :: c in s ==> NumberChar(c)
  }

  lemma ReadPadded(m: nat, e: nat)
    ensures Unsigned(PrintNat(m) + Zeros(e)) == Some(Normal(m, e))
  {
    hide PrintNat, ParseNat, Unsigned, Normal;
    var s := PrintNat(m) + Zeros(e);
    ParsePrintNat(m);
    ParseExponent(0);
    ZerosBehind(PrintNat(m), e, 0);
    assert s + "" == s;
    UnsignedOf(s, None, PrintExponent(0), ParseNat(s).value, 0);
  }

  lemma ReadPointed(m: nat, point: nat, exponent: int)
    requires 0 < point <= |PrintNat(m)|
    ensures var s := PrintNat(m);
            && Unsigned(Pointed(s[..point], Some(s[point..]))) == Some(Normal(m, point - |s|))
            && Unsigned(Pointed(s[..point], Some(s[point..])) + ['e'] + PrintExponent(exponent)) ==
               Some(Normal(m, exponent + point - |s|))
  {
    hide PrintNat, ParseNat, Unsigned, Normal, Pointed, PrintExponent;
    var s := PrintNat(m);
    ParsePrintNat(m);
    ParseExponent(exponent);
    assert s[..point] + s[point..] == s;
    assert (forall c :: c in s[..point] ==> c in s) && forall c :: c in s[point..] ==> c in s;
    UnsignedOf(s[..point], Some(s[point..]), PrintExponent(exponent), m, exponent);
  }

  lemma ReadSmall(m: nat, zeros: nat)
    ensures Unsigned(Pointed("0", Some(Zeros(zeros) + PrintNat(m)))) == Some(Normal(m, -(zeros + |PrintNat(m)|)))
  {
    hide PrintNat, ParseNat, Unsigned, Normal, Pointed;
    var s := PrintNat(m);
    ParsePrintNat(m);
    ParseExponent(0);
    ZerosInFront(zeros + 1, s);
    assert "0" + (Zeros(zeros) + s) == Zeros(zeros + 1) + s;
    UnsignedOf("0", Some(Zeros(zeros) + s), PrintExponent(0), m, 0);
  }

  lemma ReadScaled(m: nat, exponent: int)
    requires |PrintNat(m)| == 1
    ensures Unsigned(PrintNat(m) + ['e'] + PrintExponent(exponent)) == Some(Normal(m, exponent))
  {
    hide PrintNat, ParseNat, Unsigned, Normal, PrintExponent;
    ParsePrintNat(m);
    ParseExponent(exponent);
    assert PrintNat(m) + "" == PrintNat(m);
    UnsignedOf(PrintNat(m), None, PrintExponent(exponent), m, exponent);
  }

  lemma ReadPrinted(m: nat, e: int)
    ensures Unsigned(PrintDecimal(m, e)) == Some(Normal(m, e))
  {
    hide PrintNat, ParseNat, Unsigned, Normal, PrintExponent, Pointed;
    var s := PrintNat(m);
    var point := |s| + e;
    if 0 <= e && point <= 21 {
      ReadPadded(m, e);
    } else if 0 < point <= 21 {
      ReadPointed(m, point, 0);
    } else if -6 < point <= 0 {
      ReadSmall(m, -point);
    } else if |s| == 1 {
      ReadScaled(m, point - 1);
    } else {
      ReadPointed(m, 1, point - 1);
    }
  }

  lemma DigitsShape(s: string)
    requires AllDigits(s) && s != ""
    ensures DecimalText(s)
  {
    assert s[0] in s && s[|s| - 1] in s;
  }

  lemma JoinedShape(a: string, b: string, c: string)
    requires DecimalText(a) && DecimalText(c) && forall d :: d in b ==> NumberChar(d)
    ensures DecimalText(a + b + c)
  {
  }

  lemma PointedShape(s: string, point: nat)
    requires AllDigits(s) && 0 < point < |s|
    ensures DecimalText(Pointed(s[..point], Some(s[point..])))
  {
    assert (forall c :: c in s[..point] ==> c in s) && forall c :: c in s[point..] ==> c in s;
    DigitsShape(s[..point]);
    DigitsShape(s[point..]);
    JoinedShape(s[..point], ".", s[point..]);
  }

  lemma SmallShape(s: string, zeros: nat)
    requires AllDigits(s) && s != ""
    ensures DecimalText(Pointed("0", Some(Zeros(zeros) + s)))
  {
    DigitsShape("0");
    DigitsShape(Zeros(zeros) + s);
    JoinedShape("0", ".", Zeros(zeros) + s);
  }

  lemma ScaledShape(front: string, exponent: int)
    requires DecimalText(front)
    ensures DecimalText(front + ['e'] + PrintExponent(exponent))
  {
    hide PrintNat, DecimalText;
    var size := Size(exponent);
    var sign := if exponent < 0 then "-" else "+";
    ParsePrintNat(size);
    DigitsShape(PrintNat(size));
    JoinedShape(front, "e" + sign, PrintNat(size));
    assert front + ['e'] + (sign + PrintNat(size)) == front + ("e" + sign) + PrintNat(size);
  }

  lemma PrintedShape(m: nat, e: int)
    ensures DecimalText(PrintDecimal(m, e))
  {
    hide PrintNat, DecimalText, PrintExponent, Pointed;
    var s := PrintNat(m);
    var point := |s| + e;
    ParsePrintNat(m);
    DigitsShape(s);
    if 0 <= e && point <= 21 {
      DigitsShape(s + Zeros(e));
    } else if 0 < point <= 21 {
      PointedShape(s, point);
    } else if -6 < point <= 0 {
      SmallShape(s, -point);
    } else if |s| == 1 {
      ScaledShape(s, point - 1);
    } else {
      PointedShape(s, 1);
      ScaledShape(Pointed(s[..1], Some(s[1..])), point - 1);
    }
  }

  lemma ShapeIs(s: string)
    requires DecimalText(s)
    ensures Trim(s) == s && Trim("-" + s) == "-" + s && s[0] != '+' && s[0] != '-'
    ensures RadixOf(s).None? && RadixOf("-" + s).None?
  {
    TrimIs(s);
    TrimIs("-" + s);
    assert |s| > 1 ==> s[1] in s;
  }

  /** What `NumberOf` makes of a trimmed text, by its first characters. */
  lemma NumberOfTrimmed(t: string)
    requires Trimmed(t) && t != "" && RadixOf(t).None?
    ensures t[0] != '-' && t[0] != '+' ==> NumberOf(t) == Or(Unsigned(t), NaN)
    ensures t[0] == '+' ==> NumberOf(t) == Or(Unsigned(t[1..]), NaN)
    ensures t[0] == '-' ==> NumberOf(t) == Negated(Or(Unsigned(t[1..]), NaN))
  {
    TrimIs(t);
    hide Unsigned, Trim, RadixOf;
  }

  /** Blank text is zero, and blanks around a number do not matter. */
  lemma BlanksIgnored(s: string)
    ensures Trim(s) == "" ==> NumberOf(s) == Decimal(0, 0)
    ensures NumberOf(Trim(s)) == NumberOf(s)
  {
    TrimIs(s);
    hide Trim, Unsigned, RadixOf, ParseRadix;
  }

  /** A plus sign before digits does not matter. */
  lemma PlusIgnored(m: nat)
    ensures NumberOf("+" + PrintNat(m)) == NumberOf(PrintNat(m)) == Normal(m, 0)
  {
    var digits := PrintNat(m);
    ReadPadded(m, 0);
    assert digits + Zeros(0) == digits && ("+" + digits)[1..] == digits;
    DigitsTrimmed(m);
    hide PrintNat, Unsigned, Normal, RadixOf, NumberOf;
    NumberOfTrimmed(digits);
    NumberOfTrimmed("+" + digits);
  }

  lemma DigitsTrimmed(m: nat)
    ensures var s := PrintNat(m);
            && Trimmed(s) && Trimmed("+" + s) && s[0] != '-' && s[0] != '+'
            && RadixOf(s).None? && RadixOf("+" + s).None?
  {
    ParsePrintNat(m);
    var s := PrintNat(m);
    assert s[0] in s && s[|s| - 1] in s && (|s| > 1 ==> s[1] in s);
    hide PrintNat;
  }

  function RadixChar(d: nat): char
    requires d < 16
  {
    if d < 10 then '0' + d as char else 'a' + (d - 10) as char
  }

  function PrintRadix(n: nat, radix: nat): string
    requires radix in {2, 8, 16}
  {
    if n < radix then [RadixChar(n)] else PrintRadix(n / radix, radix) + [RadixChar(n % radix)]
  }

  lemma RadixQuotient(n: nat, radix: nat)
    requires radix in {2, 8, 16}
    ensures n == n / radix * radix + n % radix
  {
    assert n == n / 2 * 2 + n % 2 && n == n / 8 * 8 + n % 8 && n == n / 16 * 16 + n % 16;
  }

  lemma RadixCharIs(d: nat)
    requires d < 16
    ensures RadixDigit(RadixChar(d)) == d && !IsSpace(RadixChar(d))
  {
  }

  lemma ParseRadixLast(s: string, c: char, radix: nat)
    requires RadixDigit(c) < radix
    ensures ParseRadix([c], radix) == Some(RadixDigit(c))
    ensures s != [] ==> ParseRadix(s + [c], radix) ==
                        match ParseRadix(s, radix) case None => None case Some(n) => Some(n * radix + RadixDigit(c))
  {
    assert (s + [c])[..|s|] == s;
  }

  lemma {:induction false} ParsePrintRadix(n: nat, radix: nat)
    requires radix in {2, 8, 16}
    ensures PrintRadix(n, radix) != [] && ParseRadix(PrintRadix(n, radix), radix) == Some(n)
    ensures forall c :: c in PrintRadix(n, radix) ==> !IsSpace(c)
  {
    hide ParseRadix, RadixDigit, RadixChar, IsSpace;
    RadixCharIs(n % radix);
    if n < radix {
      RadixCharIs(n);
      ParseRadixLast([], RadixChar(n), radix);
    } else {
      RadixQuotient(n, radix);
      ParsePrintRadix(n / radix, radix);
      ParseRadixLast(PrintRadix(n / radix, radix), RadixChar(n % radix), radix);
    }
  }

  /** Numbers written with a base are read in it. */
  lemma RadixReads(n: nat)
    ensures NumberOf("0x" + PrintRadix(n, 16)) == NumberOf("0X" + PrintRadix(n, 16)) == Normal(n, 0)
    ensures NumberOf("0o" + PrintRadix(n, 8)) == NumberOf("0O" + PrintRadix(n, 8)) == Normal(n, 0)
    ensures NumberOf("0b" + PrintRadix(n, 2)) == NumberOf("0B" + PrintRadix(n, 2)) == Normal(n, 0)
  {
    RadixRead('x', 16, n);
    RadixRead('X', 16, n);
    RadixRead('o', 8, n);
    RadixRead('O', 8, n);
    RadixRead('b', 2, n);
    RadixRead('B', 2, n);
  }

  lemma RadixRead(c: char, radix: nat, n: nat)
    requires (c in "xX" && radix == 16) || (c in "oO" && radix == 8) || (c in "bB" && radix == 2)
    ensures NumberOf("0" + [c] + PrintRadix(n, radix)) == Normal(n, 0)
    ensures c == 'x' ==> "0" + [c] == "0x"
    ensures c == 'X' ==> "0" + [c] == "0X"
    ensures c == 'o' ==> "0" + [c] == "0o"
    ensures c == 'O' ==> "0" + [c] == "0O"
    ensures c == 'b' ==> "0" + [c] == "0b"
    ensures c == 'B' ==> "0" + [c] == "0B"
  {
    var digits := PrintRadix(n, radix);
    var s := "0" + [c] + digits;
    RadixShape(c, radix, n);
    ParsePrintRadix(n, radix);
    TrimIs(s);
    hide Trim, PrintRadix, ParseRadix, Normal, RadixOf;
    assert s[2..] == digits;
  }

  lemma RadixShape(c: char, radix: nat, n: nat)
    requires (c in "xX" && radix == 16) || (c in "oO" && radix == 8) || (c in "bB" && radix == 2)
    ensures var s := "0" + [c] + PrintRadix(n, radix); Trimmed(s) && RadixOf(s) == Some(radix)
  {
    ParsePrintRadix(n, radix);
    var digits := PrintRadix(n, radix);
    var s := "0" + [c] + digits;
    hide PrintRadix;
    assert digits[|digits| - 1] in digits && s[|s| - 1] == digits[|digits| - 1];
    assert s[0] == '0' && s[1] == c;
  }

  /** A decimal is printed with an exponent exactly when it is too large or too small: with more than 21 digits
      before the point, or more than five zeros behind it. */
  lemma ExponentFormIff(m: nat, e: int)
    ensures 'e' in PrintDecimal(m, e) <==> !(-6 < |PrintNat(m)| + e <= 21)
  {
    hide PrintNat, PrintExponent;
    ParsePrintNat(m);
    var s := PrintNat(m);
    var point := |s| + e;
    assert forall a: string :: AllDigits(a) ==> 'e' !in a;
    assert AllDigits(s) && AllDigits(Zeros(if point <= 0 then -point else if e >= 0 then e else 0));
    if 0 < point <= |s| {
      assert (forall c :: c in s[..point] ==> c in s) && forall c :: c in s[point..] ==> c in s;
    }
    if !(-6 < point <= 21) {
      var front := if |s| == 1 then s else Pointed(s[..1], Some(s[1..]));
      assert PrintDecimal(m, e)[|front|] == 'e';
    }
  }

  lemma NormalIs(m: int, e: int)
    requires Canonical(Decimal(m, e))
    ensures Normal(Size(m), e) == Decimal(Size(m), e)
  {
  }

  lemma TextOfNaN()
    ensures NumberOf("NaN") == NaN && Trim("NaN") == "NaN"
  {
    TrimIs("NaN");
    CutIs("NaN", 'e', "", "eE");
    CutIs("NaN", '.', "", ".");
    UnsignedParts("NaN", "NaN", None, "NaN", None);
    assert "NaN" + "" == "NaN" && ParseNat("NaN") == None;
  }

  lemma TextOfInfinity()
    ensures NumberOf("Infinity") == Infinite(false) && Trim("Infinity") == "Infinity"
    ensures NumberOf("-Infinity") == Infinite(true) && Trim("-Infinity") == "-Infinity"
  {
    TrimIs("Infinity");
    TrimIs("-Infinity");
    assert "-Infinity"[1..] == "Infinity";
  }

  /** Every number is read back from its text, and its text is never blank. */
  lemma NumberOfStringOf(x: Number)
    ensures NumberOf(StringOf(x)) == x
    ensures Trim(StringOf(x)) == StringOf(x) != ""
  {
    match x
    case NaN => TextOfNaN();
    case Infinite(_) => TextOfInfinity();
    case Decimal(m, e) =>
      hide PrintDecimal, Unsigned, DecimalText, Trim;
      var size := Size(m);
      var s := PrintDecimal(size, e);
      ReadPrinted(size, e);
      PrintedShape(size, e);
      ShapeIs(s);
      NormalIs(m, e);
      assert ("-" + s)[1..] == s;
  }
}
