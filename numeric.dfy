/** The text-to-number conversion behind `pd.to_numeric(..., errors='coerce')`,
    for plain decimal notation: an optional sign, digits, and an optional
    fractional part after a point (`"4"`, `"-2"`, `"4.5"`, `".5"`, `"3."`). */
module Numeric {
  import opened Records

  predicate IsDigit(c: char) {
    '0' <= c <= '9'
  }

  predicate AllDigits(s: string) {
    forall i :: 0 <= i < |s| ==> IsDigit(s[i])
  }

  function DigitValue(c: char): nat
    requires IsDigit(c)
  {
    c as int - '0' as int
  }

  function DigitChar(d: nat): (c: char)
    requires d < 10
    ensures IsDigit(c) && DigitValue(c) == d
  {
    ('0' as int + d) as char
  }

  /** The value of a string of decimal digits, most significant first. */
  function DigitsValue(s: string): nat
    requires AllDigits(s)
    decreases |s|
  {
    if s == [] then 0 else 10 * DigitsValue(s[..|s| - 1]) + DigitValue(s[|s| - 1])
  }

  function Pow10(n: nat): (p: nat)
    ensures p > 0
  {
    if n == 0 then 1 else 10 * Pow10(n - 1)
  }

  /** Position of the first decimal point, if any. */
  function PointIndex(s: string): (r: Option<nat>)
    ensures r.None? ==> forall i :: 0 <= i < |s| ==> s[i] != '.'
    ensures r.Some? ==> r.value < |s| && s[r.value] == '.' && forall i :: 0 <= i < r.value ==> s[i] != '.'
    decreases |s|
  {
    if s == [] then None
    else if s[0] == '.' then Some(0)
    else
      match PointIndex(s[1..])
      case None => None
      case Some(i) => Some(i + 1)
  }

  /** An unsigned decimal: digits with at most one point and at least one
      digit. With a point, all the digits are read as one number and scaled
      down by the number of fractional digits ("4.5" is 45 / 10). */
  function ParseUnsigned(s: string): Option<real> {
    match PointIndex(s)
    case None =>
      if s != [] && AllDigits(s) then Some(DigitsValue(s) as real) else None
    case Some(p) =>
      var whole := s[..p];
      var frac := s[p + 1..];
      if (whole != [] || frac != []) && AllDigits(whole + frac) then
        Some(ShiftPoint(DigitsValue(whole + frac) as real, |frac|))
      else None
  }

  /** `x` with the decimal point moved `k` places to the left. */
  function ShiftPoint(x: real, k: nat): real {
    if k == 0 then x else ShiftPoint(x, k - 1) / 10.0
  }

  /** Moving the point `k` places divides by `10^k`. */
  lemma {:induction false} ShiftPointDivides(x: real, k: nat)
    ensures ShiftPoint(x, k) == x / Pow10(k) as real
  {
    if k > 0 {
      ShiftPointDivides(x, k - 1);
      var p := Pow10(k - 1) as real;
      assert Pow10(k) as real == 10.0 * p;
      assert (x / p) / 10.0 == x / (10.0 * p);
    }
  }

  /** A decimal number with an optional leading sign, or `None` when the text
      is not one. */
  function ParseNumber(s: string): Option<real> {
    if s != [] && s[0] == '-' then
      match ParseUnsigned(s[1..])
      case None => None
      case Some(v) => Some(-v)
    else if s != [] && s[0] == '+' then ParseUnsigned(s[1..])
    else ParseUnsigned(s)
  }

  /** Decimal notation of a natural number (`str(n)`). */
  function NatToString(n: nat): (s: string)
    ensures s != [] && AllDigits(s)
    decreases n
  {
    if n < 10 then [DigitChar(n)] else NatToString(n / 10) + [DigitChar(n % 10)]
  }

  /** Decimal notation of an integer (`str(n)`). */
  function IntToString(n: int): string {
    if n < 0 then "-" + NatToString(-n) else NatToString(n)
  }

  lemma {:induction false} DigitsRoundTrip(n: nat)
    ensures DigitsValue(NatToString(n)) == n
    decreases n
  {
    if n >= 10 {
      DigitsRoundTrip(n / 10);
      var s := NatToString(n);
      assert s[..|s| - 1] == NatToString(n / 10);
    }
  }

  lemma NatToStringHasNoPoint(n: nat)
    ensures PointIndex(NatToString(n)).None?
  {
    var s := NatToString(n);
    if PointIndex(s).Some? {
      assert IsDigit(s[PointIndex(s).value]);
    }
  }

  /** Every natural number written in decimal parses back to itself. */
  lemma ParseNatToString(n: nat)
    ensures ParseUnsigned(NatToString(n)) == Some(n as real)
  {
    DigitsRoundTrip(n);
    NatToStringHasNoPoint(n);
  }

  /** A leading minus sign negates the number that follows it. */
  lemma ParseNegative(d: string)
    requires ParseUnsigned(d).Some?
    ensures ParseNumber("-" + d) == Some(-ParseUnsigned(d).value)
  {
    assert ("-" + d)[1..] == d;
  }

  /** Text starting with a digit is read as an unsigned number. */
  lemma ParseUnsignedText(d: string)
    requires d != [] && IsDigit(d[0])
    ensures ParseNumber(d) == ParseUnsigned(d)
  {
  }

  /** Every integer written in decimal parses back to itself. */
  lemma ParseIntToString(n: int)
    ensures ParseNumber(IntToString(n)) == Some(n as real)
  {
    if n < 0 {
      ParseNatToString(-n);
      ParseNegative(NatToString(-n));
    } else {
      ParseNatToString(n);
      ParseUnsignedText(NatToString(n));
    }
  }

  /** Exactly `k` decimal digits, leading zeros included, for `m < 10^k`: the
      fractional digits of a decimal. */
  function FracDigits(m: nat, k: nat): (s: string)
    requires m < Pow10(k)
    ensures |s| == k && AllDigits(s)
    decreases k
  {
    if k == 0 then []
    else
      assert m / 10 < Pow10(k - 1);
      FracDigits(m / 10, k - 1) + [DigitChar(m % 10)]
  }

  /** The number `n / 10^k` written with `k` digits after the point, as a
      rating is stored in text (`45, 1` gives "4.5", `7, 2` gives "0.07"). */
  function DecimalToString(n: nat, k: nat): string {
    var parts := WholeAndFraction(n, Pow10(k));
    NatToString(parts.0) + "." + FracDigits(parts.1, k)
  }

  /** `divmod(n, p)`. */
  function WholeAndFraction(n: nat, p: nat): (r: (nat, nat))
    requires p > 0
    ensures r.1 < p
  {
    (n / p, n % p)
  }

  /** The point after a run of digits is the first point. */
  lemma PointAfterDigits(whole: string, rest: string)
    requires AllDigits(whole)
    ensures PointIndex(whole + "." + rest) == Some(|whole|)
  {
    var s := whole + "." + rest;
    assert s[|whole|] == '.';
    assert forall i :: 0 <= i < |whole| ==> s[i] == whole[i];
  }

  /** Digits, a point, and digits read as all the digits with the point
      moved left past the fractional ones. */
  lemma ParsePointed(whole: string, frac: string)
    requires whole != [] && AllDigits(whole) && AllDigits(frac)
    ensures AllDigits(whole + frac)
    ensures ParseUnsigned(whole + "." + frac) == Some(ShiftPoint(DigitsValue(whole + frac) as real, |frac|))
  {
    var s := whole + "." + frac;
    PointAfterDigits(whole, frac);
    assert s[..|whole|] == whole;
    assert s[|whole| + 1..] == frac;
  }

  /** Appending `k` digits for `m` shifts the value by `k` places and adds `m`. */
  lemma {:induction false} DigitsAppend(a: string, m: nat, k: nat)
    requires AllDigits(a) && m < Pow10(k)
    ensures AllDigits(a + FracDigits(m, k))
    ensures DigitsValue(a + FracDigits(m, k)) == DigitsValue(a) * Pow10(k) + m
    decreases k
  {
    if k == 0 {
      assert a + FracDigits(m, k) == a;
    } else {
      assert m / 10 < Pow10(k - 1);
      DigitsAppend(a, m / 10, k - 1);
      var t := a + FracDigits(m / 10, k - 1);
      var s := a + FracDigits(m, k);
      assert s == t + [DigitChar(m % 10)];
      assert s[..|s| - 1] == t;
      ShiftStep(DigitsValue(a), Pow10(k - 1), m);
    }
  }

  /** One more digit place: `10 * (x * p + m // 10) + m % 10 == x * (10 * p) + m`. */
  lemma ShiftStep(x: nat, p: nat, m: nat)
    ensures 10 * (x * p + m / 10) + m % 10 == x * (10 * p) + m
  {
    assert 10 * (x * p) == x * (10 * p);
  }

  /** The digits of a whole part `q` followed by `k` fractional digits for
      `m` are the digits of `q * 10^k + m`. */
  lemma DigitsOfParts(q: nat, m: nat, k: nat, n: nat)
    requires m < Pow10(k) && q * Pow10(k) + m == n
    ensures AllDigits(NatToString(q) + FracDigits(m, k))
    ensures DigitsValue(NatToString(q) + FracDigits(m, k)) == n
  {
    DigitsAppend(NatToString(q), m, k);
    DigitsRoundTrip(q);
  }

  /** The digits of `DecimalToString(n, k)`, point removed, are the digits of `n`. */
  lemma DecimalDigits(n: nat, k: nat)
    ensures var parts := WholeAndFraction(n, Pow10(k));
            && AllDigits(NatToString(parts.0) + FracDigits(parts.1, k))
            && DigitsValue(NatToString(parts.0) + FracDigits(parts.1, k)) == n
  {
    var parts := WholeAndFraction(n, Pow10(k));
    WholeAndFractionSplit(n, Pow10(k));
    DigitsOfParts(parts.0, parts.1, k, n);
  }

  /** `divmod` splits `n` back into `q * p + m`. */
  lemma WholeAndFractionSplit(n: nat, p: nat)
    requires p > 0
    ensures WholeAndFraction(n, p).0 * p + WholeAndFraction(n, p).1 == n
  {
  }

  /** A decimal with `k` fractional digits reads back as `n` with the point
      moved `k` places. */
  lemma ParseDecimalShifted(n: nat, k: nat)
    ensures ParseUnsigned(DecimalToString(n, k)) == Some(ShiftPoint(n as real, k))
  {
    var parts := WholeAndFraction(n, Pow10(k));
    var whole := NatToString(parts.0);
    var frac := FracDigits(parts.1, k);
    assert DecimalToString(n, k) == whole + "." + frac;
    DecimalDigits(n, k);
    ParsePointed(whole, frac);
  }

  /** A decimal with `k` fractional digits reads back as `n / 10^k`, and
      with a leading minus sign as its negation. */
  lemma ParseDecimalToString(n: nat, k: nat)
    ensures ParseNumber(DecimalToString(n, k)) == Some(n as real / Pow10(k) as real)
    ensures ParseNumber("-" + DecimalToString(n, k)) == Some(-(n as real / Pow10(k) as real))
  {
    var s := DecimalToString(n, k);
    ParseDecimalShifted(n, k);
    ShiftPointDivides(n as real, k);
    ParseUnsignedText(s);
    NegatedReading(s, n as real / Pow10(k) as real);
  }

  /** Text read as `v` reads as `-v` after a minus sign. */
  lemma NegatedReading(d: string, v: real)
    requires ParseUnsigned(d) == Some(v)
    ensures ParseNumber("-" + d) == Some(-v)
  {
    ParseNegative(d);
  }
}
