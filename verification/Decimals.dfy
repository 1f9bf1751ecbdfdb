/** Normal decimal strings (besdk/canon.py, decimal): one text for each value, and exactly when the value is kept. */
module Decimals {
  import opened Wrappers
  import Json
  import Segments

  /** A finite decimal as the decimal library reads it: sign, coefficient and exponent of ten. */
  datatype Dec = Dec(neg: bool, coeff: nat, exp: int)

  const PRECISION := 100
  const MAX_DIGITS := 38
  const MAX_FRACTION := 18

  function Pow10(n: nat): (p: nat)
    ensures p > 0
  {
    if n == 0 then 1 else 10 * Pow10(n - 1)
  }

  function Signed(neg: bool, m: int): int { if neg then -m else m }

  function Value(d: Dec): real { Segments.Shift(Signed(d.neg, d.coeff) as real, d.exp) }

  /** The number of decimal digits. */
  function Length(c: nat): (n: nat)
    ensures n > 0 && (c > 0 ==> Pow10(n - 1) <= c) && c < Pow10(n)
  {
    if c < 10 then 1 else 1 + Length(c / 10)
  }

  lemma {:induction false} PowerGrows(a: nat, b: nat)
    ensures Pow10(a + b) == Pow10(a) * Pow10(b) && Pow10(b) <= Pow10(a + b)
  {
    if a > 0 {
      PowerGrows(a - 1, b);
      assert Pow10(a + b) == 10 * Pow10(a - 1 + b) && Pow10(a) == 10 * Pow10(a - 1);
    }
  }

  /** Zeros at the end of a coefficient. */
  function Trailing(c: nat): nat
    requires c > 0
  {
    if c % 10 == 0 then 1 + Trailing(c / 10) else 0
  }

  function Significant(c: nat): int
    requires c > 0
  {
    Length(c) - Trailing(c)
  }

  lemma QuotientPositive(c: nat, k: nat)
    requires c >= Pow10(k)
    ensures c / Pow10(k) > 0
  {}

  /** Half to even, to the context's precision. */
  function Rounded(d: Dec): (r: Dec)
    ensures d.coeff > 0 ==> r.coeff > 0
  {
    if Length(d.coeff) <= PRECISION then d
    else
      var k := Length(d.coeff) - PRECISION;
      var q, r := d.coeff / Pow10(k), d.coeff % Pow10(k);
      var up := 2 * r > Pow10(k) || (2 * r == Pow10(k) && q % 2 == 1);
      PowerGrows(PRECISION - 1, k);
      QuotientPositive(d.coeff, k);
      Dec(d.neg, if up then q + 1 else q, d.exp + k)
  }

  function Stripped(d: Dec): (r: Dec)
    requires d.coeff > 0
    ensures r.coeff > 0 && r.coeff % 10 != 0 && r.neg == d.neg
    decreases d.coeff
  {
    if d.coeff % 10 == 0 then Stripped(Dec(d.neg, d.coeff / 10, d.exp + 1)) else d
  }

  function Zeros(n: nat): (s: string)
    ensures |s| == n
  {
    if n == 0 then "" else "0" + Zeros(n - 1)
  }

  /** The "f" format. */
  function Plain(d: Dec): string {
    var digits := Json.PrintNat(d.coeff);
    var sign := if d.neg then "-" else "";
    if d.exp >= 0 then sign + (digits + Zeros(d.exp))
    else
      var f := -d.exp;
      if |digits| > f then sign + (digits[..|digits| - f] + "." + digits[|digits| - f..])
      else sign + ("0." + (Zeros(f - |digits|) + digits))
  }

  /** decimal: None where the source refuses. */
  function Normal(d: Dec): Option<string> {
    if d.coeff == 0 then Some("0")
    else
      var n := Stripped(Rounded(d));
      if Length(n.coeff) > MAX_DIGITS || -n.exp > MAX_FRACTION then None else Some(Plain(n))
  }

  // ----- values -----

  lemma ShiftStep(m: real, n: real, e: int)
    requires m == 10.0 * n
    ensures Segments.Shift(m, e) == Segments.Shift(n, e + 1)
  {}

  lemma {:induction false} ShiftPower(m: int, k: nat, e: int)
    ensures Segments.Shift(m as real, e + k) == Segments.Shift((m * Pow10(k)) as real, e)
  {
    if k > 0 {
      ShiftPower(m, k - 1, e + 1);
      var n := m * Pow10(k - 1);
      assert m * Pow10(k) == 10 * n;
      ShiftStep((10 * n) as real, n as real, e);
    }
  }

  lemma {:induction false} ShiftInjective(m: real, n: real, e: int)
    requires m != n
    ensures Segments.Shift(m, e) != Segments.Shift(n, e)
    decreases if e < 0 then -e else e
  {
    if e > 0 {
      ShiftInjective(10.0 * m, 10.0 * n, e - 1);
    } else if e < 0 {
      ShiftInjective(m / 10.0, n / 10.0, e + 1);
    }
  }

  lemma SignedTimes(neg: bool, c: int, p: int)
    ensures Signed(neg, c) * p == Signed(neg, c * p)
  {}

  /** Moving k zeros from the coefficient into the exponent. */
  lemma SameValue(d: Dec, q: nat, k: nat)
    requires d.coeff == q * Pow10(k)
    ensures Value(Dec(d.neg, q, d.exp + k)) == Value(d)
  {
    SignedTimes(d.neg, q, Pow10(k));
    ShiftPower(Signed(d.neg, q), k, d.exp);
  }

  lemma {:induction false} StrippedValue(d: Dec)
    requires d.coeff > 0
    ensures Value(Stripped(d)) == Value(d)
    ensures Length(Stripped(d).coeff) == Significant(d.coeff)
    decreases d.coeff
  {
    if d.coeff % 10 == 0 {
      var q := d.coeff / 10;
      assert d.coeff == q * Pow10(1);
      SameValue(d, q, 1);
      StrippedValue(Dec(d.neg, q, d.exp + 1));
    }
  }

  // ----- exactly when rounding keeps the value -----

  lemma {:induction false} TrailingOf(c: nat, q: nat, k: nat)
    requires c > 0 && c == q * Pow10(k)
    ensures k <= Trailing(c)
    decreases k
  {
    if k > 0 {
      var p := q * Pow10(k - 1);
      assert c == 10 * p;
      TrailingOf(p, q, k - 1);
    }
  }

  lemma {:induction false} TrailingGives(c: nat, k: nat) returns (q: nat)
    requires c > 0 && k <= Trailing(c)
    ensures c == q * Pow10(k)
    decreases k
  {
    if k == 0 {
      q := c;
    } else {
      q := TrailingGives(c / 10, k - 1);
      assert q * Pow10(k) == 10 * (q * Pow10(k - 1));
    }
  }

  lemma AtLeast(x: nat, p: nat)
    requires x > 0
    ensures x * p >= p
  {}

  lemma DivisionUnique(a: nat, r: nat, q: nat, p: nat)
    requires r < p && a * p + r == q * p
    ensures a == q && r == 0
  {
    if q > a {
      assert (q - a) * p == r;
      AtLeast(q - a, p);
    } else if q < a {
      assert (a - q) * p + r == 0;
      AtLeast(a - q, p);
    }
  }

  lemma QuotientOf(c: nat, q: nat, p: nat)
    requires p > 0 && c == q * p
    ensures c / p == q && c % p == 0
  {
    var a, r := c / p, c % p;
    assert a * p + r == c;
    DivisionUnique(a, r, q, p);
  }

  /** Rounding keeps the value exactly when the coefficient without its trailing zeros has at most 100 digits. */
  lemma RoundedValue(d: Dec)
    requires d.coeff > 0
    ensures Value(Rounded(d)) == Value(d) <==> Significant(d.coeff) <= PRECISION
  {
    var c, r := d.coeff, Rounded(d);
    if Length(c) > PRECISION {
      var k := Length(c) - PRECISION;
      if k <= Trailing(c) {
        var q := TrailingGives(c, k);
        QuotientOf(c, q, Pow10(k));
        SameValue(d, q, k);
      } else {
        SameValue(Dec(d.neg, r.coeff * Pow10(k), d.exp), r.coeff, k);
        if r.coeff * Pow10(k) == c { TrailingOf(c, r.coeff, k); }
        ShiftInjective(Signed(d.neg, r.coeff * Pow10(k)) as real, Signed(d.neg, c) as real, d.exp);
      }
    }
  }

  // ----- reading the text -----

  lemma {:induction false} DigitsSplit(a: string, b: string, acc: int)
    ensures Segments.Digits(a + b, acc) == Segments.Digits(b, Segments.Digits(a, acc))
  {
    if a == "" {
      assert a + b == b;
    } else {
      assert (a + b)[1..] == a[1..] + b;
      DigitsSplit(a[1..], b, 10 * acc + (a[0] as int - '0' as int));
    }
  }

  lemma {:induction false} DigitsPrinted(n: nat)
    ensures Segments.Digits(Json.PrintNat(n), 0) == n
  {
    if n < 10 {
      assert [Json.Digit(n)][1..] == "";
    } else {
      DigitsPrinted(n / 10);
      DigitsSplit(Json.PrintNat(n / 10), [Json.Digit(n % 10)], 0);
      assert [Json.Digit(n % 10)][1..] == "";
    }
  }

  lemma {:induction false} DigitsZeros(k: nat, c: int)
    ensures Segments.Digits(Zeros(k), c) == c * Pow10(k)
  {
    if k > 0 {
      assert Zeros(k)[1..] == Zeros(k - 1);
      DigitsZeros(k - 1, 10 * c);
      assert c * Pow10(k) == (10 * c) * Pow10(k - 1);
    }
  }

  lemma {:induction false} RunOf(d: string, rest: string)
    requires Json.AllDigits(d) && (rest == "" || !Json.IsDigit(rest[0]))
    ensures Segments.DigitRun(d + rest) == |d|
  {
    if d == "" {
      assert d + rest == rest;
    } else {
      assert (d + rest)[1..] == d[1..] + rest;
      RunOf(d[1..], rest);
    }
  }

  lemma {:induction false} ZerosAreDigits(k: nat)
    ensures Json.AllDigits(Zeros(k))
  {
    if k > 0 { ZerosAreDigits(k - 1); }
  }

  lemma WholeReads(whole: string, neg: bool)
    requires Json.AllDigits(whole) && whole != ""
    ensures Segments.Magnitude(whole, neg) == Some(Signed(neg, Segments.Digits(whole, 0)) as real)
  {
    RunOf(whole, "");
    assert whole + "" == whole && whole[..|whole|] == whole && whole[|whole|..] == "";
    AssembledWhole(whole, neg);
  }

  lemma AssembledWhole(whole: string, neg: bool)
    ensures Segments.Assembled(whole, "", neg) == Some(Signed(neg, Segments.Digits(whole, 0)) as real)
  {
    assert whole + "" == whole;
  }

  lemma AssembledFraction(whole: string, fraction: string, neg: bool)
    requires Json.AllDigits(fraction) && fraction != ""
    ensures Segments.Assembled(whole, "." + fraction, neg) ==
      Some(Segments.Shift(Signed(neg, Segments.Digits(whole + fraction, 0)) as real, 0 - |fraction|))
  {
    var u := "." + fraction;
    RunOf(fraction, "");
    assert fraction + "" == fraction && u[1..] == fraction;
    assert u[1..|fraction| + 1] == fraction && u[|fraction| + 1..] == "";
  }

  /** An integer part and a fraction. */
  lemma FractionReads(whole: string, fraction: string, neg: bool)
    requires Json.AllDigits(whole) && Json.AllDigits(fraction) && whole != "" && fraction != ""
    ensures Segments.Magnitude(whole + ("." + fraction), neg) ==
      Some(Segments.Shift(Signed(neg, Segments.Digits(whole + fraction, 0)) as real, 0 - |fraction|))
  {
    var u := "." + fraction;
    var t := whole + u;
    RunOf(whole, u);
    assert t[..|whole|] == whole && t[|whole|..] == u;
    AssembledFraction(whole, fraction, neg);
  }

  lemma Unsigned(t: string, neg: bool)
    requires t != "" && t[0] != '-'
    ensures Segments.DecimalValue((if neg then "-" else "") + t) == Segments.Magnitude(t, neg)
  {
    var s := (if neg then "-" else "") + t;
    if neg { assert s[1..] == t; } else { assert s == t; }
  }

  lemma LargeReads(d: Dec)
    requires d.coeff > 0 && d.exp >= 0
    ensures Segments.DecimalValue(Plain(d)) == Some(Value(d))
  {
    var digits := Json.PrintNat(d.coeff);
    var t := digits + Zeros(d.exp);
    DigitsPrinted(d.coeff);
    ZerosAreDigits(d.exp);
    DigitsSplit(digits, Zeros(d.exp), 0);
    DigitsZeros(d.exp, d.coeff);
    WholeReads(t, d.neg);
    Unsigned(t, d.neg);
    SignedTimes(d.neg, d.coeff, Pow10(d.exp));
    ShiftPower(Signed(d.neg, d.coeff), d.exp, 0);
  }

  lemma MixedReads(d: Dec, digits: string)
    requires digits == Json.PrintNat(d.coeff) && 0 < -d.exp < |digits|
    ensures Segments.DecimalValue(Plain(d)) == Some(Value(d))
  {
    var f := -d.exp;
    var whole, fraction := digits[..|digits| - f], digits[|digits| - f..];
    DigitsPrinted(d.coeff);
    assert whole + fraction == digits && whole + "." + fraction == whole + ("." + fraction);
    FractionReads(whole, fraction, d.neg);
    Unsigned(whole + ("." + fraction), d.neg);
  }

  lemma SmallDigits(zeros: string, digits: string, k: nat)
    requires zeros == Zeros(k)
    ensures Segments.Digits("0" + (zeros + digits), 0) == Segments.Digits(digits, 0)
  {
    assert ("0" + (zeros + digits))[1..] == zeros + digits;
    DigitsZeros(k, 0);
    DigitsSplit(zeros, digits, 0);
  }

  lemma SmallText(fraction: string, neg: bool)
    ensures Segments.DecimalValue((if neg then "-" else "") + ("0." + fraction)) ==
      Segments.Magnitude("0" + ("." + fraction), neg)
  {
    assert "0." + fraction == "0" + ("." + fraction);
    Unsigned("0." + fraction, neg);
  }

  lemma SmallPlain(d: Dec, digits: string)
    requires digits == Json.PrintNat(d.coeff) && -d.exp >= |digits|
    ensures Plain(d) == (if d.neg then "-" else "") + ("0." + (Zeros(-d.exp - |digits|) + digits))
  {}

  lemma BothDigits(a: string, b: string)
    requires Json.AllDigits(a) && Json.AllDigits(b)
    ensures Json.AllDigits(a + b)
  {}

  lemma SmallMagnitude(whole: string, fraction: string, digits: string, neg: bool)
    requires whole != "" && fraction != "" && Json.AllDigits(whole) && Json.AllDigits(fraction)
    requires Segments.Digits(whole + fraction, 0) == Segments.Digits(digits, 0)
    ensures Segments.Magnitude(whole + ("." + fraction), neg) ==
      Some(Segments.Shift(Signed(neg, Segments.Digits(digits, 0)) as real, 0 - |fraction|))
  {
    FractionReads(whole, fraction, neg);
  }

  lemma SmallReads(d: Dec, digits: string)
    requires digits == Json.PrintNat(d.coeff) && -d.exp >= |digits|
    ensures Segments.DecimalValue(Plain(d)) == Some(Value(d))
  {
    DigitsPrinted(d.coeff);
    var k := -d.exp - |digits|;
    var fraction := Zeros(k) + digits;
    SmallPlain(d, digits);
    ZerosAreDigits(k);
    BothDigits(Zeros(k), digits);
    SmallDigits(Zeros(k), digits, k);
    SmallMagnitude("0", fraction, digits, d.neg);
    SmallText(fraction, d.neg);
  }

  /** The text reads back as the value it was written for. */
  lemma PlainReads(d: Dec)
    requires d.coeff > 0
    ensures Segments.DecimalValue(Plain(d)) == Some(Value(d))
  {
    var digits := Json.PrintNat(d.coeff);
    if d.exp >= 0 {
      LargeReads(d);
    } else if -d.exp < |digits| {
      MixedReads(d, digits);
    } else {
      SmallReads(d, digits);
    }
  }

  // ----- the normal form -----

  lemma {:induction false} ShiftZero(e: int)
    ensures Segments.Shift(0.0, e) == 0.0
    decreases if e < 0 then -e else e
  {
    if e > 0 { ShiftZero(e - 1); } else if e < 0 { ShiftZero(e + 1); }
  }

  lemma ZeroReads()
    ensures Segments.DecimalValue("0") == Some(0.0)
  {
    WholeReads("0", false);
    Unsigned("0", false);
    assert "" + "0" == "0" && "0"[1..] == "";
  }

  /** The text of an accepted decimal has the decimal's value exactly when it has at most 100 significant digits: past
      that, rounding comes before the digits are counted. */
  lemma NormalKeepsValue(d: Dec)
    requires Normal(d).Some?
    ensures Segments.DecimalValue(Normal(d).value) == Some(Value(d)) <==>
      d.coeff == 0 || Significant(d.coeff) <= PRECISION
  {
    if d.coeff == 0 {
      ZeroReads();
      ShiftZero(d.exp);
    } else {
      RoundedValue(d);
      StrippedValue(Rounded(d));
      PlainReads(Stripped(Rounded(d)));
    }
  }

  lemma TenTimes(neg: bool, c: nat, x: int)
    requires Signed(neg, c) == 10 * x
    ensures c % 10 == 0
  {}

  lemma SmallerExponent(a: Dec, b: Dec)
    requires a.coeff % 10 != 0 && a.exp < b.exp
    ensures Value(a) != Value(b)
  {
    var k := b.exp - a.exp;
    var m := Signed(b.neg, b.coeff) * Pow10(k);
    ShiftPower(Signed(b.neg, b.coeff), k, a.exp);
    var x := Signed(b.neg, b.coeff) * Pow10(k - 1);
    assert m == 10 * x;
    if Signed(a.neg, a.coeff) == m { TenTimes(a.neg, a.coeff, x); }
    ShiftInjective(Signed(a.neg, a.coeff) as real, m as real, a.exp);
  }

  lemma StrippedUnique(a: Dec, b: Dec)
    requires a.coeff % 10 != 0 && b.coeff % 10 != 0 && Value(a) == Value(b)
    ensures a == b
  {
    if a.exp < b.exp { SmallerExponent(a, b); }
    if b.exp < a.exp { SmallerExponent(b, a); }
    if Signed(a.neg, a.coeff) != Signed(b.neg, b.coeff) {
      ShiftInjective(Signed(a.neg, a.coeff) as real, Signed(b.neg, b.coeff) as real, a.exp);
    }
  }

  lemma ZeroValue(d: Dec)
    ensures Value(d) == 0.0 <==> d.coeff == 0
  {
    ShiftZero(d.exp);
    if d.coeff != 0 { ShiftInjective(Signed(d.neg, d.coeff) as real, 0.0, d.exp); }
  }

  /** One text for each value: accepted decimals within the precision have the same text exactly when they are equal,
      and whether one is accepted depends on its value alone. */
  lemma NormalUnique(a: Dec, b: Dec)
    requires (a.coeff == 0 || Significant(a.coeff) <= PRECISION) && (b.coeff == 0 || Significant(b.coeff) <= PRECISION)
    ensures Value(a) == Value(b) ==> Normal(a) == Normal(b)
    ensures Normal(a).Some? && Normal(a) == Normal(b) ==> Value(a) == Value(b)
  {
    ZeroValue(a);
    ZeroValue(b);
    if Value(a) == Value(b) && a.coeff != 0 {
      RoundedValue(a);
      RoundedValue(b);
      StrippedValue(Rounded(a));
      StrippedValue(Rounded(b));
      StrippedUnique(Stripped(Rounded(a)), Stripped(Rounded(b)));
    }
    if Normal(a).Some? && Normal(a) == Normal(b) {
      NormalKeepsValue(a);
      NormalKeepsValue(b);
    }
  }
}
