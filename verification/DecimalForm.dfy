/** The form of normal decimal strings, and which decimals have one (besdk/canon.py, decimal). */
module DecimalForm {
  import opened Wrappers
  import opened Decimals
  import Json

  /** Within the precision, removing zeros after rounding comes to removing them at once. */
  lemma StrippedAnyway(d: Dec)
    requires d.coeff > 0 && Significant(d.coeff) <= PRECISION
    ensures Stripped(Rounded(d)) == Stripped(d)
  {
    RoundedValue(d);
    StrippedValue(Rounded(d));
    StrippedValue(d);
    StrippedUnique(Stripped(Rounded(d)), Stripped(d));
  }

  lemma {:induction false} StrippedExponent(d: Dec)
    requires d.coeff > 0
    ensures Stripped(d).exp == d.exp + Trailing(d.coeff)
    decreases d.coeff
  {
    if d.coeff % 10 == 0 { StrippedExponent(Dec(d.neg, d.coeff / 10, d.exp + 1)); }
  }

  /** A decimal is accepted exactly when, without the zeros at its end, it has at most 38 digits and at most 18 of them
      are fraction digits. */
  lemma AcceptedExactly(d: Dec)
    requires d.coeff == 0 || Significant(d.coeff) <= PRECISION
    ensures Normal(d).Some? <==>
      d.coeff == 0 || (Significant(d.coeff) <= 38 && -(d.exp + Trailing(d.coeff)) <= 18)
  {
    if d.coeff > 0 {
      StrippedAnyway(d);
      StrippedValue(d);
      StrippedExponent(d);
    }
  }

  // ----- the text -----

  lemma LastDigit(n: nat)
    ensures var s := Json.PrintNat(n); s[|s| - 1] == Json.Digit(n % 10)
  {}

  /** A whole part without superfluous zeros in front. */
  predicate Whole(w: string) { w != "" && Json.AllDigits(w) && (|w| > 1 ==> w[0] != '0') }

  /** No fraction, or one whose last digit is not zero. */
  predicate Fraction(f: string) { f == "" || (Json.AllDigits(f) && f[|f| - 1] != '0') }

  lemma ZerosDigits(n: nat)
    ensures Json.AllDigits(Zeros(n))
  {}

  lemma PlainForm(d: Dec) returns (w: string, f: string)
    requires d.coeff > 0 && d.coeff % 10 != 0
    ensures Whole(w) && Fraction(f) && Plain(d) == (if d.neg then "-" else "") + if f == "" then w else w + ("." + f)
  {
    var digits := Json.PrintNat(d.coeff);
    var sign := if d.neg then "-" else "";
    LastDigit(d.coeff);
    if d.exp >= 0 {
      w, f := digits + Zeros(d.exp), "";
      ZerosDigits(d.exp);
      assert w[0] == digits[0];
    } else if |digits| > -d.exp {
      var k := |digits| + d.exp;
      w, f := digits[..k], digits[k..];
      assert f[|f| - 1] == digits[|digits| - 1];
      assert w + "." + f == w + ("." + f);
    } else {
      w, f := "0", Zeros(-d.exp - |digits|) + digits;
      ZerosDigits(-d.exp - |digits|);
      assert f[|f| - 1] == digits[|digits| - 1];
      assert "0." + f == w + ("." + f);
    }
  }

  /** Normal text: a minus sign only for a negative value, a whole part with no superfluous zero, and a fraction only
      when it has one, not ending in zero; no exponent and no plus sign. Zero is "0". */
  lemma NormalForm(d: Dec) returns (neg: bool, w: string, f: string)
    requires Normal(d).Some?
    ensures Whole(w) && Fraction(f) && (neg <==> d.neg && d.coeff > 0) && (d.coeff == 0 ==> w == "0" && f == "")
    ensures Normal(d).value == (if neg then "-" else "") + if f == "" then w else w + ("." + f)
  {
    if d.coeff == 0 {
      neg, w, f := false, "0", "";
      assert "" + "0" == "0";
    } else {
      neg := d.neg;
      w, f := PlainForm(Stripped(Rounded(d)));
    }
  }
}
