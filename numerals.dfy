// Decimal numerals: the digit strings of str(n) and the strings Python's float()
// receives from the scripts. Values are exact reals; binary floating-point rounding
// is not modelled.

module Numerals {
  import opened Text
  import Digits

  function Pow10(n: nat): (r: nat)
    ensures r >= 1
  {
    if n == 0 then 1 else 10 * Pow10(n - 1)
  }

  predicate AllDigits(s: string)
  {
    forall i | 0 <= i < |s| :: IsDigit(s[i])
  }

  function DigitValue(c: char): (d: nat)
    requires IsDigit(c)
    ensures d < 10
  {
    (c as int) - ('0' as int)
  }

  function DigitChar(d: nat): (c: char)
    requires d < 10
    ensures IsDigit(c) && DigitValue(c) == d
  {
    (('0' as int) + d) as char
  }

  /** The number a string of decimal digits denotes (most significant digit first). */
  function DigitsValue(s: string): (r: nat)
    requires AllDigits(s)
    ensures r < Pow10(|s|)
  {
    if s == [] then 0 else 10 * DigitsValue(s[..|s| - 1]) + DigitValue(s[|s| - 1])
  }

  /** str(n) for n >= 0: the shortest digit string denoting n. */
  function NatToString(n: nat): (r: string)
    ensures |r| > 0 && AllDigits(r) && DigitsValue(r) == n
    ensures (r[0] == '0') == (n == 0)
  {
    if n < 10 then [DigitChar(n)]
    else
      var r := NatToString(n / 10) + [DigitChar(n % 10)];
      assert r[..|r| - 1] == NatToString(n / 10);
      r
  }

  /** A digit string without a superfluous leading zero is printed back as itself. */
  lemma {:induction false} NatToStringOfDigits(s: string)
    requires |s| > 0 && AllDigits(s) && (s[0] == '0' ==> |s| == 1)
    ensures NatToString(DigitsValue(s)) == s
  {
    if |s| > 1 {
      var p := s[..|s| - 1];
      var d := DigitValue(s[|s| - 1]);
      assert p[0] == s[0];
      NatToStringOfDigits(p);
      var v := DigitsValue(s);
      assert v == 10 * DigitsValue(p) + d;
      LeadingDigitBound(p);
      assert v / 10 == DigitsValue(p) && v % 10 == d;
      assert s == p + [s[|s| - 1]];
    }
  }

  /** A digit string of length at least two without a leading zero denotes at least 10. */
  lemma {:induction false} LeadingDigitBound(s: string)
    requires |s| > 0 && AllDigits(s) && s[0] != '0'
    ensures DigitsValue(s) >= 1 && (|s| > 1 ==> DigitsValue(s) >= 10)
  {
    if |s| > 1 {
      var p := s[..|s| - 1];
      assert p[0] == s[0];
      LeadingDigitBound(p);
    }
  }

  lemma {:induction false} DigitsValueAppend(a: string, b: string)
    requires AllDigits(a) && AllDigits(b)
    ensures AllDigits(a + b) && DigitsValue(a + b) == DigitsValue(a) * Pow10(|b|) + DigitsValue(b)
  {
    if b == [] {
      assert a + b == a;
    } else {
      var b' := b[..|b| - 1];
      assert (a + b)[..|a + b| - 1] == a + b';
      DigitsValueAppend(a, b');
      var x, y := DigitsValue(a), DigitsValue(b');
      assert DigitsValue(a + b) == 10 * (x * Pow10(|b'|) + y) + DigitValue(b[|b| - 1]);
      var p := Pow10(|b'|);
      assert Pow10(|b|) == 10 * p;
      MulTen(x, p);
    }
  }

  lemma MulTen(x: int, p: int)
    ensures 10 * (x * p) == x * (10 * p)
  {
  }

  // ----------------------------------------------------------------- float()

  /** The strings float() receives in the scripts: digits and dots, and possibly a
      leading minus sign. */
  predicate FloatAlphabet(t: string)
  {
    forall i | 0 <= i < |t| :: IsDigit(t[i]) || t[i] == '.' || (i == 0 && t[i] == '-')
  }

  /** Index of the first character at or after i that is not a digit (|t| if none). */
  function DigitRun(t: string, i: nat): (n: nat)
    requires i <= |t|
    ensures i <= n <= |t| && (n == |t| || !IsDigit(t[n]))
    ensures forall k | i <= k < n :: IsDigit(t[k])
    decreases |t| - i
  {
    if i < |t| && IsDigit(t[i]) then DigitRun(t, i + 1) else i
  }

  /** A decimal numeral in the sense of float(): at least one digit and at most one dot. */
  predicate Numeral(t: string)
  {
    (forall i, j | 0 <= i < j < |t| :: !(t[i] == '.' && t[j] == '.'))
    && exists i | 0 <= i < |t| :: IsDigit(t[i])
  }

  /** float(t) for t of digits and dots; None where float() raises ValueError. */
  function ParseUnsigned(t: string): (r: Option<real>)
    requires forall i | 0 <= i < |t| :: IsDigit(t[i]) || t[i] == '.'
    ensures r.Some? <==> Numeral(t)
    ensures r.Some? ==> r.value >= 0.0
  {
    var d := DigitRun(t, 0);
    if d == |t| then
      if d == 0 then None
      else assert IsDigit(t[0]); Some(DigitsValue(t) as real)
    else
      var frac := t[d + 1..];
      if !AllDigits(frac) then
        var k :| 0 <= k < |frac| && !IsDigit(frac[k]);
        assert t[d] == '.' && t[d + 1 + k] == '.';
        None
      else if d == 0 && frac == [] then None
      else
        assert t[..d] + frac == t[..d] + t[d + 1..];
        assert d > 0 ==> IsDigit(t[0]);
        assert d == 0 ==> IsDigit(t[d + 1]);
        assert forall i, j | 0 <= i < j < |t| :: !(t[i] == '.' && t[j] == '.') by {
          forall i, j | 0 <= i < j < |t| ensures !(t[i] == '.' && t[j] == '.') {
            if j > d { assert t[j] == frac[j - d - 1]; }
          }
        }
        Some((DigitsValue(t[..d] + frac) as real) / (Pow10(|frac|) as real))
  }

  /** float(t): a leading '-' negates the numeral after it. */
  function ParseFloat(t: string): (r: Option<real>)
    requires FloatAlphabet(t)
    ensures |t| > 0 && t[0] == '-' ==> r == Neg(ParseUnsigned(t[1..]))
    ensures (|t| == 0 || t[0] != '-') ==> r == ParseUnsigned(t)
  {
    if |t| > 0 && t[0] == '-' then Neg(ParseUnsigned(t[1..])) else ParseUnsigned(t)
  }

  function Neg(v: Option<real>): Option<real>
  {
    if v.Some? then Some(-v.value) else None
  }

  /** The text of a whole number of cents with two decimals, "<euros>.<cc>"
      with sep standing for the decimal separator. */
  function CentsText(c: nat, sep: char): (t: string)
  {
    NatToString(c / 100) + [sep, DigitChar(c / 10 % 10), DigitChar(c % 10)]
  }

  /** float() of "<digits>.<digits>" is the integer part plus the fraction. */
  lemma ParseDecimal(e: string, frac: string)
    requires |e| > 0 && AllDigits(e) && AllDigits(frac)
    ensures FloatAlphabet(e + ['.'] + frac)
    ensures ParseFloat(e + ['.'] + frac)
      == Some(((DigitsValue(e) * Pow10(|frac|) + DigitsValue(frac)) as real) / (Pow10(|frac|) as real))
  {
    var t := e + ['.'] + frac;
    assert t[..|e|] == e && t[|e|] == '.' && t[|e| + 1..] == frac;
    assert forall k | 0 <= k < |e| :: IsDigit(t[k]);
    DigitRunFrom(t, 0, |e|);
    DigitsValueAppend(e, frac);
    assert t[0] != '-';
    var v := DigitsValue(t[..|e|] + t[|e| + 1..]);
    assert v == DigitsValue(e) * Pow10(|frac|) + DigitsValue(frac);
    assert ParseUnsigned(t) == Some((v as real) / (Pow10(|frac|) as real));
  }

  lemma CentsDigits(c: nat)
    ensures DigitsValue([DigitChar(c / 10 % 10), DigitChar(c % 10)]) == c % 100
    ensures c / 100 * 100 + c % 100 == c
  {
    var q, r := c / 10, c % 10;
    var q2, r2 := q / 10, q % 10;
    assert c == 100 * q2 + (10 * r2 + r);
    Digits.DivModUnique(c, q2, 10 * r2 + r, 100);
    var ds := [DigitChar(r2), DigitChar(r)];
    assert ds[..1] == [DigitChar(r2)];
    assert [DigitChar(r2)][..0] == [];
    assert DigitsValue([DigitChar(r2)]) == r2;
    assert DigitsValue(ds) == 10 * r2 + r;
  }

  /** float() reads back the value a cents text was printed from. */
  lemma CentsRoundTrip(c: nat)
    ensures FloatAlphabet(CentsText(c, '.'))
    ensures ParseFloat(CentsText(c, '.')) == Some((c as real) / 100.0)
  {
    var e := NatToString(c / 100);
    var frac := [DigitChar(c / 10 % 10), DigitChar(c % 10)];
    assert CentsText(c, '.') == e + ['.'] + frac;
    var n := DigitsValue(e) * Pow10(|frac|) + DigitsValue(frac);
    assert Pow10(|frac|) == 100;
    CentsDigits(c);
    assert n == c;
    ParseDecimal(e, frac);
    assert ParseFloat(e + ['.'] + frac) == Some((n as real) / (Pow10(|frac|) as real));
    assert (n as real) / (Pow10(|frac|) as real) == (c as real) / 100.0;
  }

  /** DigitRun stops exactly at the first non-digit. */
  lemma {:induction false} DigitRunFrom(t: string, i: nat, n: nat)
    requires i <= n <= |t| && (n == |t| || !IsDigit(t[n]))
    requires forall k | i <= k < n :: IsDigit(t[k])
    ensures DigitRun(t, i) == n
    decreases n - i
  {
    if i < n {
      DigitRunFrom(t, i + 1, n);
    }
  }
}
