/** Decimal text: what printf %ld / %.2f and Python's str and :.2f write, and how the
    server reads it back. Values are exact reals. */
module Decimal {
  import opened Prelude

  function DigitChar(d: nat): char
    requires d < 10
  {
    ('0' as int + d) as char
  }

  predicate IsDigit(c: char) {
    '0' <= c <= '9'
  }

  function DigitValue(c: char): nat
    requires IsDigit(c)
  {
    c as int - '0' as int
  }

  predicate AllDigits(s: string) {
    forall c | c in s :: IsDigit(c)
  }

  /** The decimal digits of n. */
  function Digits(n: nat): (s: string)
    ensures s != [] && AllDigits(s)
  {
    if n < 10 then [DigitChar(n)] else Digits(n / 10) + [DigitChar(n % 10)]
  }

  function Number(s: string): nat
    requires AllDigits(s)
  {
    if s == [] then 0
    else
      assert s[|s| - 1] in s;
      10 * Number(s[..|s| - 1]) + DigitValue(s[|s| - 1])
  }

  lemma {:induction false} NumberOfDigits(n: nat)
    ensures Number(Digits(n)) == n
  {
    if n >= 10 {
      NumberOfDigits(n / 10);
      SnocInit(Digits(n / 10), DigitChar(n % 10));
    }
  }

  lemma {:induction false} DigitsAreShort(n: nat, k: nat)
    requires k > 0 && n < Power10(k)
    ensures |Digits(n)| <= k
  {
    if n >= 10 {
      DigitsAreShort(n / 10, k - 1);
    }
  }

  function Power10(k: nat): (p: nat)
    ensures p >= 1
  {
    if k == 0 then 1 else 10 * Power10(k - 1)
  }

  /** parse_uint: digits only, at most `max`. */
  function ParseUint(text: string, max: nat): Option<nat> {
    if text != "" && AllDigits(text) && Number(text) <= max then Some(Number(text)) else None
  }

  function Magnitude(x: real): real {
    if x < 0.0 then -x else x
  }

  /** The number of hundredths nearest to |x|. */
  function Hundredths(x: real): nat {
    (Magnitude(x) * 100.0 + 0.5).Floor
  }

  function TwoDigits(n: nat): string
    requires n < 100
  {
    [DigitChar(n / 10), DigitChar(n % 10)]
  }

  /** %.2f */
  function ValueText(x: real): string {
    (if x < 0.0 then "-" else "") + Digits(Hundredths(x) / 100) + "." + TwoDigits(Hundredths(x) % 100)
  }

  /** The first index of `c` in `s`, or |s|. */
  function IndexOf(s: string, c: char): (i: nat)
    ensures i <= |s|
    ensures i < |s| ==> s[i] == c
    ensures forall k | 0 <= k < i :: s[k] != c
  {
    if s == [] || s[0] == c then 0 else 1 + IndexOf(s[1..], c)
  }

  /** What the digits after the point are worth. */
  function Fraction(s: string): real
    requires AllDigits(s)
  {
    if s == "" then 0.0
    else
      assert s[0] in s;
      (DigitValue(s[0]) as real + Fraction(s[1..])) / 10.0
  }

  /** digits, optionally a point and more digits, with at least one digit in all */
  function ParseMantissa(s: string): Option<real> {
    var point := IndexOf(s, '.');
    var whole, fraction := s[..point], if point < |s| then s[point + 1..] else "";
    if AllDigits(whole) && AllDigits(fraction) && |whole| + |fraction| > 0
    then Some(Number(whole) as real + Fraction(fraction))
    else None
  }

  /** The first index of an `e` or `E`, or |s|. */
  function ExponentAt(s: string): (i: nat)
    ensures i <= |s| && (i < |s| ==> s[i] == 'e' || s[i] == 'E')
    ensures forall k | 0 <= k < i :: s[k] != 'e' && s[k] != 'E'
  {
    if s == "" || s[0] == 'e' || s[0] == 'E' then 0 else 1 + ExponentAt(s[1..])
  }

  function ParseExponent(s: string): Option<int> {
    var signed := s != "" && (s[0] == '-' || s[0] == '+');
    var digits := if signed then s[1..] else s;
    if digits == "" || !AllDigits(digits) then None
    else
      var n: int := Number(digits);
      Some(if signed && s[0] == '-' then -n else n)
  }

  /** x times the power of ten. */
  function Scaled(x: real, exponent: int): real
    decreases if exponent < 0 then -exponent else exponent
  {
    if exponent > 0 then 10.0 * Scaled(x, exponent - 1)
    else if exponent < 0 then Scaled(x, exponent + 1) / 10.0
    else x
  }

  function ParseUnsigned(s: string): Option<real> {
    var i := ExponentAt(s);
    if i == |s| then ParseMantissa(s)
    else
      match (ParseMantissa(s[..i]), ParseExponent(s[i + 1..]))
      case (Some(x), Some(exponent)) => Some(Scaled(x, exponent))
      case _ => None
  }

  /** strtod on a text of digits, signs, points, `e` and `E`; it must read all of it. */
  function ParseDecimal(s: string): Option<real> {
    if s != [] && (s[0] == '-' || s[0] == '+') then
      match ParseUnsigned(s[1..])
      case Some(x) => Some(if s[0] == '-' then -x else x)
      case None => None
    else ParseUnsigned(s)
  }

  /** The value that %.2f writes for x. */
  function Rounded(x: real): real {
    (if x < 0.0 then -(Hundredths(x) as int) else Hundredths(x)) as real / 100.0
  }

  lemma {:induction false} IndexOfConcat(a: string, b: string, c: char)
    requires forall k | 0 <= k < |a| :: a[k] != c
    requires b != [] && b[0] == c
    ensures IndexOf(a + b, c) == |a|
  {
    assert (a + b)[|a|] == c;
  }

  lemma {:induction false} FractionOfPair(c: char, d: char)
    requires IsDigit(c) && IsDigit(d)
    ensures Fraction([c, d]) == (10 * DigitValue(c) + DigitValue(d)) as real / 100.0
  {
    assert [c, d][1..] == [d] && [d][1..] == "";
    assert Fraction([d]) == DigitValue(d) as real / 10.0;
  }

  lemma {:induction false} NoExponent(h: nat)
    ensures var s := Digits(h / 100) + "." + TwoDigits(h % 100); ExponentAt(s) == |s|
  {
    var s := Digits(h / 100) + "." + TwoDigits(h % 100);
    assert forall c | c in s :: IsDigit(c) || c == '.';
    assert forall k | 0 <= k < |s| :: s[k] in s;
  }

  lemma {:induction false} PointSplits(whole: string, fraction: string)
    requires AllDigits(whole)
    ensures var s := whole + "." + fraction;
            IndexOf(s, '.') == |whole| && s[..|whole|] == whole && s[|whole| + 1..] == fraction
  {
    assert forall k | 0 <= k < |whole| :: whole[k] in whole;
    assert whole + "." + fraction == whole + ("." + fraction);
    IndexOfConcat(whole, "." + fraction, '.');
  }

  lemma {:induction false} MantissaRoundTrip(h: nat)
    ensures ParseMantissa(Digits(h / 100) + "." + TwoDigits(h % 100)) == Some(h as real / 100.0)
  {
    var whole, fraction := Digits(h / 100), TwoDigits(h % 100);
    var s := whole + "." + fraction;
    PointSplits(whole, fraction);
    NumberOfDigits(h / 100);
    FractionOfPair(fraction[0], fraction[1]);
    HundredthsAddUp(h);
  }

  lemma {:induction false} HundredthsAddUp(h: nat)
    ensures (h / 100) as real + (h % 100) as real / 100.0 == h as real / 100.0
  {
    assert h as real == 100.0 * (h / 100) as real + (h % 100) as real;
  }

  lemma {:induction false} UnsignedRoundTrip(h: nat)
    ensures ParseUnsigned(Digits(h / 100) + "." + TwoDigits(h % 100)) == Some(h as real / 100.0)
  {
    NoExponent(h);
    MantissaRoundTrip(h);
  }

  lemma {:induction false} FloorOfHalfPast(n: nat)
    ensures (n as real + 0.5).Floor == n
  {
  }

  /** A value with at most two decimals is printed exactly. */
  lemma {:induction false} RoundedIsExact(x: real, n: int)
    requires x == n as real / 100.0
    ensures Rounded(x) == x
  {
    var m: nat := if n < 0 then -n else n;
    assert Magnitude(x) * 100.0 == m as real;
    FloorOfHalfPast(m);
    assert Hundredths(x) == m;
  }

  /** Rounding to hundredths never crosses an integer bound. */
  lemma {:induction false} RoundedStaysInRange(x: real, low: int, high: int)
    requires low as real <= x <= high as real && low <= 0 <= high
    ensures low as real <= Rounded(x) <= high as real
    ensures Hundredths(x) <= 100 * (if x < 0.0 then -low else high)
  {
    var bound := 100 * (if x < 0.0 then -low else high);
    assert Magnitude(x) * 100.0 <= bound as real;
    FloorOfHalfPast(bound);
    assert Hundredths(x) <= bound;
  }

  lemma {:induction false} SignedText(s: string, r: real)
    requires s != "" && IsDigit(s[0]) && ParseUnsigned(s) == Some(r)
    ensures ParseDecimal(s) == Some(r) && ParseDecimal("-" + s) == Some(-r)
  {
    assert ("-" + s)[1..] == s && ("-" + s)[0] == '-';
  }

  function Body(h: nat): string {
    Digits(h / 100) + "." + TwoDigits(h % 100)
  }

  lemma {:induction false} BodyRoundTrip(h: nat)
    ensures ParseDecimal(Body(h)) == Some(h as real / 100.0)
    ensures ParseDecimal("-" + Body(h)) == Some(-(h as real / 100.0))
  {
    UnsignedRoundTrip(h);
    assert Body(h)[0] == Digits(h / 100)[0] && Digits(h / 100)[0] in Digits(h / 100);
    SignedText(Body(h), h as real / 100.0);
  }

  lemma {:induction false} ValueTextIs(x: real)
    ensures ValueText(x) == if x < 0.0 then "-" + Body(Hundredths(x)) else Body(Hundredths(x))
  {
  }

  lemma {:induction false} RoundedIs(x: real)
    ensures Rounded(x) == if x < 0.0 then -(Hundredths(x) as real / 100.0) else Hundredths(x) as real / 100.0
  {
  }

  /** Whatever is printed with %.2f is read back as the rounded value. */
  lemma {:induction false} ValueRoundTrip(x: real)
    ensures ParseDecimal(ValueText(x)) == Some(Rounded(x))
  {
    ValueTextIs(x);
    RoundedIs(x);
    BodyRoundTrip(Hundredths(x));
  }

  lemma {:induction false} ValueTextIsShort(x: real, k: nat)
    requires k > 0 && Hundredths(x) < 100 * Power10(k)
    ensures |ValueText(x)| <= k + 4
    ensures forall c | c in ValueText(x) :: IsDigit(c) || c == '-' || c == '.'
  {
    DigitsAreShort(Hundredths(x) / 100, k);
  }

  lemma {:induction false} ExponentAfter(a: string, mark: char, b: string)
    requires ExponentAt(a) == |a| && (mark == 'e' || mark == 'E')
    ensures ExponentAt(a + [mark] + b) == |a|
  {
    if a != "" {
      ExponentAfter(a[1..], mark, b);
      assert (a + [mark] + b)[1..] == a[1..] + [mark] + b;
    }
  }

  lemma {:induction false} Associate(a: string, b: string, c: string)
    ensures (a + b) + c == a + (b + c)
  {
  }

  lemma {:induction false} ScaledNegative(x: real, exponent: int)
    ensures Scaled(-x, exponent) == -Scaled(x, exponent)
    decreases if exponent < 0 then -exponent else exponent
  {
    if exponent > 0 {
      ScaledNegative(x, exponent - 1);
    } else if exponent < 0 {
      ScaledNegative(x, exponent + 1);
    }
  }

  lemma {:induction false} UnsignedScientific(s: string, t: string, exponent: int)
    requires ExponentAt(s) == |s| && ParseUnsigned(s).Some? && ParseExponent(t) == Some(exponent)
    ensures ParseUnsigned(s + "e" + t) == Some(Scaled(ParseUnsigned(s).value, exponent))
  {
    ExponentCut(s, 'e', t);
    assert ['e'] == "e";
  }

  lemma {:induction false} TailHasNoExponent(s: string)
    requires s != "" && ExponentAt(s) == |s|
    ensures ExponentAt(s[1..]) == |s[1..]|
  {
  }

  /** Scientific notation: any number text without an exponent, signed or not, followed by
      an exponent of any sign is read as the number scaled by that power of ten. */
  lemma {:induction false} ScientificText(s: string, t: string, exponent: int)
    requires ExponentAt(s) == |s| && ParseDecimal(s).Some? && ParseExponent(t) == Some(exponent)
    ensures ParseDecimal(s + "e" + t) == Some(Scaled(ParseDecimal(s).value, exponent))
  {
    if s[0] == '-' || s[0] == '+' {
      TailHasNoExponent(s);
      UnsignedScientific(s[1..], t, exponent);
      HeadAside(s, t);
      ScaledSigned(s[0], s[1..], s[1..] + "e" + t, exponent);
    } else {
      UnsignedScientific(s, t, exponent);
    }
  }

  lemma {:induction false} Signed(sign: char, s: string)
    requires sign == '-' || sign == '+'
    ensures ParseDecimal([sign] + s) ==
            match ParseUnsigned(s)
            case Some(x) => Some(if sign == '-' then -x else x)
            case None => None
  {
    assert ([sign] + s)[1..] == s;
  }

  lemma {:induction false} ScaledSigned(sign: char, s: string, u: string, exponent: int)
    requires (sign == '-' || sign == '+') && ParseUnsigned(s).Some?
    requires ParseUnsigned(u) == Some(Scaled(ParseUnsigned(s).value, exponent))
    ensures ParseDecimal([sign] + s).Some?
    ensures ParseDecimal([sign] + u) == Some(Scaled(ParseDecimal([sign] + s).value, exponent))
  {
    Signed(sign, s);
    Signed(sign, u);
    ScaledNegative(ParseUnsigned(s).value, exponent);
  }

  lemma {:induction false} HeadAside(s: string, t: string)
    requires s != ""
    ensures s == [s[0]] + s[1..] && s + "e" + t == [s[0]] + (s[1..] + "e" + t)
  {
    Associate([s[0]], s[1..], "e");
    Associate([s[0]], s[1..] + "e", t);
  }

  lemma {:induction false} ExponentCut(a: string, mark: char, b: string)
    requires ExponentAt(a) == |a| && (mark == 'e' || mark == 'E')
    ensures ParseUnsigned(a + [mark] + b) ==
            match (ParseMantissa(a), ParseExponent(b))
            case (Some(x), Some(exponent)) => Some(Scaled(x, exponent))
            case _ => None
  {
    ExponentAfter(a, mark, b);
    var s := a + [mark] + b;
    assert s[..|a|] == a && s[|a| + 1..] == b;
  }

  lemma {:induction false} ExponentIsRead(k: nat)
    ensures ParseExponent(Digits(k)) == Some(k) && ParseExponent("-" + Digits(k)) == Some(0 - k)
  {
    NumberOfDigits(k);
    assert Digits(k)[0] in Digits(k);
    assert ("-" + Digits(k))[1..] == Digits(k);
  }

  /** %.2f rounds to the nearest hundredth. */
  lemma {:induction false} RoundedIsNearest(x: real)
    ensures -0.005 <= Rounded(x) - x <= 0.005
  {
    RoundedIs(x);
    var y := Magnitude(x) * 100.0;
    assert Hundredths(x) as real <= y + 0.5 < Hundredths(x) as real + 1.0;
  }

  // The texts that are numbers, one by one

  /** A string of digits, leading zeros allowed, that denotes n. */
  predicate Denotes(text: string, n: nat) {
    text != "" && AllDigits(text) && Number(text) == n
  }

  lemma {:induction false} DenotesIsParsed(text: string, n: nat, max: nat)
    ensures ParseUint(text, max) == Some(n) <==> Denotes(text, n) && n <= max
  {
  }

  /** A sign, digits around an optional point, and an optional exponent. */
  datatype Numeral = Numeral(sign: string, whole: string, point: bool, fraction: string, exponent: Option<Exponent>) {
    predicate Valid() {
      && (sign == "" || sign == "+" || sign == "-")
      && AllDigits(whole) && AllDigits(fraction) && whole + fraction != "" && (!point ==> fraction == "")
      && (exponent.Some? ==> exponent.value.Valid())
    }

    function Mantissa(): string {
      whole + if point then "." + fraction else ""
    }

    function Unsigned(): string {
      Mantissa() + if exponent.Some? then exponent.value.Text() else ""
    }

    function Text(): string {
      sign + Unsigned()
    }

    /** All digits as one number, moved by the point and the exponent. */
    function Value(): real
      requires Valid()
    {
      var digits := Scaled(Number(whole + fraction) as real, -(|fraction| as int));
      var scaled := if exponent.Some? then Scaled(digits, exponent.value.Value()) else digits;
      if sign == "-" then -scaled else scaled
    }
  }

  datatype Exponent = Exponent(mark: char, sign: string, digits: string) {
    predicate Valid() {
      (mark == 'e' || mark == 'E') && (sign == "" || sign == "+" || sign == "-") && digits != "" && AllDigits(digits)
    }

    function Text(): string {
      [mark] + sign + digits
    }

    function Value(): int
      requires Valid()
    {
      var n: int := Number(digits);
      if sign == "-" then -n else n
    }
  }

  lemma {:induction false} NumberSnoc(s: string, c: char)
    requires AllDigits(s) && IsDigit(c)
    ensures AllDigits(s + [c]) && Number(s + [c]) == 10 * Number(s) + DigitValue(c)
  {
    SnocInit(s, c);
  }

  /** Digits after the point are worth what moving the point says. */
  lemma {:induction false} PointMoves(whole: string, fraction: string)
    requires AllDigits(whole) && AllDigits(fraction)
    ensures Scaled(Number(whole + fraction) as real, -(|fraction| as int)) == Number(whole) as real + Fraction(fraction)
    decreases |fraction|
  {
    if fraction == "" {
      assert whole + fraction == whole;
    } else {
      var c, rest := fraction[0], fraction[1..];
      assert c in fraction && forall x | x in rest :: x in fraction;
      NumberSnoc(whole, c);
      assert whole + fraction == (whole + [c]) + rest;
      PointMoves(whole + [c], rest);
    }
  }

  lemma {:induction false} MantissaIsRead(n: Numeral)
    requires n.Valid()
    ensures ParseMantissa(n.Mantissa()) == Some(Scaled(Number(n.whole + n.fraction) as real, -(|n.fraction| as int)))
  {
    PointMoves(n.whole, n.fraction);
    if n.point {
      PointIsRead(n.whole, n.fraction);
      assert n.Mantissa() == n.whole + "." + n.fraction;
    } else {
      assert n.fraction == "" && n.whole + "" == n.whole && n.Mantissa() == n.whole;
      WholeIsRead(n.whole);
    }
  }

  lemma {:induction false} PointIsRead(whole: string, fraction: string)
    requires AllDigits(whole) && AllDigits(fraction) && whole + fraction != ""
    ensures ParseMantissa(whole + "." + fraction) == Some(Number(whole) as real + Fraction(fraction))
  {
    PointSplits(whole, fraction);
  }

  lemma {:induction false} WholeIsRead(whole: string)
    requires AllDigits(whole) && whole != ""
    ensures ParseMantissa(whole) == Some(Number(whole) as real)
  {
    assert forall k | 0 <= k < |whole| :: whole[k] in whole;
    assert IndexOf(whole, '.') == |whole| && whole[..|whole|] == whole;
  }

  lemma {:induction false} PlainHasNoExponent(s: string)
    requires forall c | c in s :: IsDigit(c) || c == '.'
    ensures ExponentAt(s) == |s|
  {
    assert forall k | 0 <= k < |s| :: s[k] in s;
  }

  lemma {:induction false} MantissaIsPlain(n: Numeral)
    requires n.Valid()
    ensures ExponentAt(n.Mantissa()) == |n.Mantissa()|
    ensures n.Mantissa() != "" && n.Mantissa()[0] != '-' && n.Mantissa()[0] != '+'
  {
    var s := n.Mantissa();
    assert forall c | c in s :: c in n.whole || c in n.fraction || c == '.';
    PlainHasNoExponent(s);
    assert s[0] in s;
  }

  lemma {:induction false} ExponentTextIsRead(e: Exponent)
    requires e.Valid()
    ensures ParseExponent(e.sign + e.digits) == Some(e.Value())
  {
    assert e.digits[0] in e.digits;
    if e.sign == "" {
      assert e.sign + e.digits == e.digits;
    } else {
      assert (e.sign + e.digits)[1..] == e.digits;
    }
  }

  lemma {:induction false} WithExponent(m: string, x: real, e: Exponent)
    requires ParseMantissa(m) == Some(x) && ExponentAt(m) == |m| && e.Valid()
    ensures ParseUnsigned(m + e.Text()) == Some(Scaled(x, e.Value()))
  {
    ExponentTextIsRead(e);
    ExponentCut(m, e.mark, e.sign + e.digits);
    Associate([e.mark], e.sign, e.digits);
    Associate(m, [e.mark], e.sign + e.digits);
  }

  lemma {:induction false} UnsignedIsRead(n: Numeral)
    requires n.Valid()
    ensures ParseUnsigned(n.Unsigned()) == Some(n.(sign := "").Value())
  {
    var x := Scaled(Number(n.whole + n.fraction) as real, -(|n.fraction| as int));
    MantissaIsRead(n);
    MantissaIsPlain(n);
    if n.exponent.Some? {
      WithExponent(n.Mantissa(), x, n.exponent.value);
    } else {
      assert n.Unsigned() == n.Mantissa();
    }
  }

  /** Every numeral is read as its value. */
  lemma {:induction false} NumeralIsRead(n: Numeral)
    requires n.Valid()
    ensures ParseDecimal(n.Text()) == Some(n.Value())
  {
    UnsignedIsRead(n);
    MantissaIsPlain(n);
    assert n.Unsigned()[0] == n.Mantissa()[0];
    if n.sign == "" {
      assert n.Text() == n.Unsigned();
    } else {
      Signed(n.sign[0], n.Unsigned());
      assert n.sign == [n.sign[0]];
    }
  }

  lemma {:induction false} MantissaIsNumeral(s: string) returns (n: Numeral)
    requires ParseMantissa(s).Some?
    ensures n.Valid() && n.sign == "" && n.exponent.None? && n.Mantissa() == s
  {
    var p := IndexOf(s, '.');
    n := Numeral("", s[..p], p < |s|, if p < |s| then s[p + 1..] else "", None);
    assert s == n.Mantissa();
  }

  lemma {:induction false} ExponentIsExponent(mark: char, s: string) returns (e: Exponent)
    requires ParseExponent(s).Some? && (mark == 'e' || mark == 'E')
    ensures e.Valid() && e.Text() == [mark] + s
  {
    if s[0] == '-' || s[0] == '+' {
      e := Exponent(mark, [s[0]], s[1..]);
      assert s == [s[0]] + s[1..];
    } else {
      e := Exponent(mark, "", s);
      assert [mark] + "" + s == [mark] + s;
    }
  }

  lemma {:induction false} UnsignedIsNumeral(s: string) returns (n: Numeral)
    requires ParseUnsigned(s).Some?
    ensures n.Valid() && n.sign == "" && n.Unsigned() == s
  {
    var i := ExponentAt(s);
    if i == |s| {
      n := MantissaIsNumeral(s);
    } else {
      n := MantissaIsNumeral(s[..i]);
      var e := ExponentIsExponent(s[i], s[i + 1..]);
      n := n.(exponent := Some(e));
      assert s == s[..i] + ([s[i]] + s[i + 1..]);
    }
  }

  /** A text is a number, as strtod reads all of it, if and only if it is the text of a
      numeral, and it is worth what the numeral is worth. */
  lemma {:induction false} NumbersAreNumerals(s: string, x: real)
    ensures ParseDecimal(s) == Some(x) <==> SpellsNumber(s, x)
  {
    if ParseDecimal(s) == Some(x) {
      var signed := s[0] == '-' || s[0] == '+';
      var n := UnsignedIsNumeral(if signed then s[1..] else s);
      n := n.(sign := if signed then [s[0]] else "");
      assert n.Text() == s;
      NumeralIsRead(n);
    }
    if SpellsNumber(s, x) {
      var n: Numeral :| n.Valid() && n.Text() == s && n.Value() == x;
      NumeralIsRead(n);
    }
  }

  ghost predicate SpellsNumber(s: string, x: real) {
    exists n: Numeral :: n.Valid() && n.Text() == s && n.Value() == x
  }
}
