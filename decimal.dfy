/** The subset of numeric text that `pd.to_numeric` accepts and that the model
    covers: an optional sign, decimal digits and at most one decimal point. */
module Decimal {
  import opened Wrappers

  predicate IsDigit(c: char) { '0' <= c <= '9' }

  function DigitValue(c: char): (d: nat)
    requires IsDigit(c)
    ensures d < 10
  {
    c as int - '0' as int
  }

  function DigitChar(d: nat): (c: char)
    requires d < 10
    ensures IsDigit(c) && DigitValue(c) == d
  {
    ('0' as int + d) as char
  }

  predicate AllDigits(s: string) {
    forall i :: 0 <= i < |s| ==> IsDigit(s[i])
  }

  /** A character that can occur in a number the parser accepts. */
  predicate NumberChar(c: char) {
    IsDigit(c) || c == '.' || c == '+' || c == '-'
  }

  /** Value of a string of decimal digits, most significant digit first. */
  function DigitsValue(s: string): nat
    requires AllDigits(s)
  {
    if s == [] then 0 else 10 * DigitsValue(s[..|s| - 1]) + DigitValue(s[|s| - 1])
  }

  /** Value of the digits after a decimal point: 0.d1 d2 ... dn. */
  function FractionValue(s: string): real
    requires AllDigits(s)
  {
    if s == [] then 0.0 else (DigitValue(s[0]) as real + FractionValue(s[1..])) / 10.0
  }

  /** Index of the first '.' in s, or |s| when s has none. */
  function DotIndex(s: string): (k: nat)
    ensures k <= |s|
    ensures k < |s| ==> s[k] == '.'
  {
    if s == [] || s[0] == '.' then 0 else 1 + DotIndex(s[1..])
  }

  /** Digits with at most one decimal point and at least one digit. */
  function ParseUnsigned(s: string): Option<real> {
    var k := DotIndex(s);
    var whole := s[..k];
    var frac := if k < |s| then s[k + 1..] else [];
    if AllDigits(whole) && AllDigits(frac) && |whole| + |frac| > 0 then
      Some(DigitsValue(whole) as real + FractionValue(frac))
    else
      None
  }

  /** Numeric coercion of one text cell; None stands for the NaN that
      `errors='coerce'` produces. */
  function ParseNumber(s: string): Option<real> {
    if |s| > 0 && (s[0] == '-' || s[0] == '+') then
      var u :- ParseUnsigned(s[1..]);
      Some(if s[0] == '-' then -u else u)
    else
      ParseUnsigned(s)
  }

  /** Unsigned text that reads is made of digits and points only. */
  lemma UnsignedCharset(s: string)
    ensures ParseUnsigned(s).Some? ==> forall i :: 0 <= i < |s| ==> IsDigit(s[i]) || s[i] == '.'
  {
    var k := DotIndex(s);
    if ParseUnsigned(s).Some? {
      forall i | 0 <= i < |s|
        ensures IsDigit(s[i]) || s[i] == '.'
      {
        if i < k {
          assert s[i] == s[..k][i];
        } else if i > k {
          assert s[i] == s[k + 1..][i - k - 1];
        }
      }
    }
  }

  /** Text that coerces to a number is made of digits, signs and points only. */
  lemma NumberCharset(s: string)
    ensures ParseNumber(s).Some? ==> forall i :: 0 <= i < |s| ==> NumberChar(s[i])
  {
    if |s| > 0 && (s[0] == '-' || s[0] == '+') {
      UnsignedCharset(s[1..]);
      if ParseNumber(s).Some? {
        forall i | 1 <= i < |s|
          ensures NumberChar(s[i])
        {
          assert s[i] == s[1..][i - 1];
        }
      }
    } else {
      UnsignedCharset(s);
    }
  }

  /** Decimal rendering of a natural number, without leading zeros. */
  function ShowNat(n: nat): string {
    if n < 10 then [DigitChar(n)] else ShowNat(n / 10) + [DigitChar(n % 10)]
  }

  function ShowInt(i: int): string {
    if i < 0 then "-" + ShowNat(-i) else ShowNat(i)
  }

  lemma {:induction false} ShowNatDigits(n: nat)
    ensures AllDigits(ShowNat(n)) && |ShowNat(n)| > 0
    ensures DigitsValue(ShowNat(n)) == n
  {
    if n >= 10 {
      ShowNatDigits(n / 10);
      var s := ShowNat(n);
      assert s[..|s| - 1] == ShowNat(n / 10);
    }
  }

  /** An integer rendered in decimal coerces back to the same number. */
  lemma ParseShowInt(i: int)
    ensures ParseNumber(ShowInt(i)) == Some(i as real)
  {
    var n: nat := if i < 0 then -i else i;
    ShowNatDigits(n);
    var s := ShowNat(n);
    assert DotIndex(s) == |s|;
    assert s[..|s|] == s;
    assert ParseUnsigned(s) == Some(n as real);
    if i < 0 {
      assert ShowInt(i)[1..] == s;
    }
  }

  /** A run of digits followed by the end of the text or a '.' puts the
      first '.' right after the digits. */
  lemma {:induction false} DotIndexAfterDigits(w: string, rest: string)
    requires AllDigits(w) && (rest == [] || rest[0] == '.')
    ensures DotIndex(w + rest) == |w|
    decreases |w|
  {
    if w == [] {
      assert w + rest == rest;
    } else {
      assert (w + rest)[0] == w[0];
      assert (w + rest)[1..] == w[1..] + rest;
      DotIndexAfterDigits(w[1..], rest);
    }
  }

  /** The value of decimal text with whole part w and fraction f. */
  function DecimalValue(w: string, f: string): real
    requires AllDigits(w) && AllDigits(f)
  {
    DigitsValue(w) as real + FractionValue(f)
  }

  /** Unsigned text with a decimal point and at least one digit. */
  lemma ParseUnsignedDecimal(w: string, f: string)
    requires AllDigits(w) && AllDigits(f) && |w| + |f| > 0
    ensures ParseUnsigned(w + ("." + f)) == Some(DecimalValue(w, f))
  {
    var s := w + ("." + f);
    DotIndexAfterDigits(w, "." + f);
    assert s[..|w|] == w;
    assert s[|w| + 1..] == f;
  }

  /** Text that starts with neither sign is read as unsigned. */
  lemma ParseUnsignedAsIs(s: string)
    requires s == [] || IsDigit(s[0]) || s[0] == '.'
    ensures ParseNumber(s) == ParseUnsigned(s)
  {
  }

  /** A leading sign is stripped and applied to the unsigned value. */
  lemma ParseSigned(u: string)
    ensures ParseUnsigned(u).Some? ==> ParseNumber("-" + u) == Some(-ParseUnsigned(u).value)
    ensures ParseUnsigned(u).None? ==> ParseNumber("-" + u) == None
    ensures ParseNumber("+" + u) == ParseUnsigned(u)
  {
    assert ("-" + u)[0] == '-' && ("-" + u)[1..] == u;
    assert ("+" + u)[0] == '+' && ("+" + u)[1..] == u;
  }

  /** Text that reads as v unsigned and does not itself start with a sign
      reads as v, with '-' in front as -v and with '+' in front as v. */
  lemma SignForms(u: string, v: real)
    requires ParseUnsigned(u) == Some(v) && (u == [] || IsDigit(u[0]) || u[0] == '.')
    ensures ParseNumber(u) == Some(v)
    ensures ParseNumber("-" + u) == Some(-v)
    ensures ParseNumber("+" + u) == Some(v)
  {
    ParseSigned(u);
    ParseUnsignedAsIs(u);
  }

  /** Text with a decimal point and at least one digit coerces to its
      decimal value, with or without a sign ("0.5", "-.5", "+3."). */
  lemma ParseDecimalText(w: string, f: string)
    requires AllDigits(w) && AllDigits(f) && |w| + |f| > 0
    ensures ParseNumber(w + ("." + f)) == Some(DecimalValue(w, f))
    ensures ParseNumber("-" + (w + ("." + f))) == Some(-DecimalValue(w, f))
    ensures ParseNumber("+" + (w + ("." + f))) == Some(DecimalValue(w, f))
  {
    var s := w + ("." + f);
    ParseUnsignedDecimal(w, f);
    assert s[0] == if |w| > 0 then w[0] else '.';
    SignForms(s, DecimalValue(w, f));
  }

  /** A run of digits without a point, leading zeros allowed ("007"),
      reads as its value; SignForms gives its signed forms. */
  lemma ParseUnsignedInteger(w: string)
    requires AllDigits(w) && |w| > 0
    ensures ParseUnsigned(w) == Some(DigitsValue(w) as real)
  {
    DotIndexAfterDigits(w, []);
    assert w + [] == w;
    var k := DotIndex(w);
    assert w[..k] == w && !(k < |w|);
    assert FractionValue([]) == 0.0;
  }

  /** Text without a digit is NaN: a lone point, a lone sign, nothing. */
  lemma NoDigitsNoNumber(s: string)
    requires forall i :: 0 <= i < |s| ==> !IsDigit(s[i])
    ensures ParseNumber(s) == None
  {
    if |s| > 0 && (s[0] == '-' || s[0] == '+') {
      assert forall i :: 0 <= i < |s[1..]| ==> s[1..][i] == s[i + 1];
    }
  }

  /** The worked example's cycle time coerces to one half. */
  lemma HalfCoerces()
    ensures ParseNumber("0.5") == Some(0.5)
  {
    var w, f := "0", "5";
    assert AllDigits(w) && AllDigits(f);
    assert DigitsValue(w) == 0 && DigitsValue(f) == 5;
    ParseUnsignedDecimal(w, f);
    assert w + ("." + f) == "0.5";
    ParseUnsignedAsIs("0.5");
  }

}
