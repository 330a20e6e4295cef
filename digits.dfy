/*
 * Little-endian digit strings in the bases the Highway tables and memory
 * copies use: nibbles (16), bytes (256) and 32-bit lanes (2^32).  A table row
 * loaded from memory, a CopyBytes of a 64-bit value and a BitCast between lane
 * sizes all read a number as such a digit string.
 */
module Digits {

  predicate Base(base: nat) { base == 16 || base == 256 || base == 0x1_0000_0000 }

  function Power(base: nat, n: nat): (r: nat)
    ensures base >= 1 ==> r >= 1
  {
    if n == 0 then 1 else base * Power(base, n - 1)
  }

  /** The lowest n digits of x, least significant first. */
  function ToDigits(x: nat, base: nat, n: nat): (r: seq<nat>)
    requires Base(base)
    ensures |r| == n && forall i | 0 <= i < n :: r[i] < base
  {
    if n == 0 then [] else [x % base] + ToDigits(x / base, base, n - 1)
  }

  /** The number whose digits, least significant first, are ds. */
  function FromDigits(ds: seq<nat>, base: nat): nat
  {
    if |ds| == 0 then 0 else ds[0] + base * FromDigits(ds[1..], base)
  }

  // ---------------------------------------------------------------- lemmas

  lemma DigitStep(d: nat, rest: nat, base: nat)
    requires Base(base) && d < base
    ensures (d + base * rest) % base == d && (d + base * rest) / base == rest
  {
  }

  /** n digits hold every number below base^n. */
  lemma {:induction false} FromToDigits(x: nat, base: nat, n: nat)
    requires Base(base) && x < Power(base, n)
    ensures FromDigits(ToDigits(x, base, n), base) == x
  {
    if n > 0 {
      var p := Power(base, n - 1);
      assert x < base * p;
      assert x / base < p by {
        if base == 16 {} else if base == 256 {} else {}
      }
      FromToDigits(x / base, base, n - 1);
      assert ToDigits(x, base, n)[1..] == ToDigits(x / base, base, n - 1);
    }
  }

  /** Digits below the base are read back unchanged. */
  lemma {:induction false} ToFromDigits(ds: seq<nat>, base: nat)
    requires Base(base) && forall i | 0 <= i < |ds| :: ds[i] < base
    ensures ToDigits(FromDigits(ds, base), base, |ds|) == ds
  {
    if |ds| > 0 {
      DigitStep(ds[0], FromDigits(ds[1..], base), base);
      ToFromDigits(ds[1..], base);
    }
  }

  /** Digits appended after xs count base^|xs| times their own value. */
  lemma {:induction false} FromDigitsAppend(xs: seq<nat>, ys: seq<nat>, base: nat)
    ensures FromDigits(xs + ys, base) == FromDigits(xs, base) + Power(base, |xs|) * FromDigits(ys, base)
  {
    if |xs| == 0 {
      assert xs + ys == ys;
    } else {
      assert (xs + ys)[1..] == xs[1..] + ys;
      FromDigitsAppend(xs[1..], ys, base);
      AppendStep(xs[0], FromDigits(xs[1..], base), Power(base, |xs| - 1), FromDigits(ys, base), base);
    }
  }

  /** d + base * (a + p * b) == (d + base * a) + (base * p) * b. */
  lemma AppendStep(d: nat, a: nat, p: nat, b: nat, base: nat)
    ensures d + base * (a + p * b) == (d + base * a) + (base * p) * b
  {
  }

  /** One more digit on top counts base^|ds| times. */
  lemma FromDigitsPush(ds: seq<nat>, d: nat, base: nat)
    ensures FromDigits(ds + [d], base) == FromDigits(ds, base) + d * Power(base, |ds|)
  {
    FromDigitsAppend(ds, [d], base);
    FromDigitsSingle(d, base);
  }

  lemma FromDigitsSingle(d: nat, base: nat)
    ensures FromDigits([d], base) == d
  {
    assert [d][1..] == [];
  }

  /** A number of n digits is below base^n. */
  lemma {:induction false} FromDigitsBound(ds: seq<nat>, base: nat)
    requires Base(base) && forall i | 0 <= i < |ds| :: ds[i] < base
    ensures FromDigits(ds, base) < Power(base, |ds|)
  {
    if |ds| > 0 {
      FromDigitsBound(ds[1..], base);
    }
  }

  /** The quotient and remainder are the unique q and r in [0, m) with x == q * m + r. */
  lemma DivModUnique(x: int, q: int, r: int, m: nat)
    requires m >= 1 && 0 <= r < m && x == q * m + r
    ensures x / m == q && x % m == r
  {
    var q' := x / m;
    var r' := x % m;
    assert x == q' * m + r';
    assert (q - q') * m == r' - r;
    if q > q' {
      MulAtLeast(q - q', m);
    } else if q < q' {
      MulAtLeast(q' - q, m);
    }
  }

  /** The quotient of a natural by a positive divisor is a natural. */
  lemma DivNat(x: nat, m: nat)
    requires m >= 1
    ensures x / m >= 0
  {
  }

  lemma MulAtLeast(d: int, m: nat)
    requires d >= 1
    ensures d * m >= m
  {
    assert d * m == (d - 1) * m + m;
  }

  /** Shifting right by a then by c is shifting right by a * c. */
  lemma DivDiv(x: nat, a: nat, c: nat)
    requires a >= 1 && c >= 1
    ensures x / a / c == x / (a * c)
  {
    var q := x / a;
    var r := x % a;
    var q2 := q / c;
    var r2 := q % c;
    assert x == q * a + r;
    assert q == q2 * c + r2;
    MulAddRight(q2 * c, r2, a);
    MulRotate(q2, c, a);
    assert x == q2 * (a * c) + (r2 * a + r);
    MulLeq(r2, c - 1, a);
    MulAddRight(c - 1, 1, a);
    MulComm(c, a);
    DivModUnique(x, q2, r2 * a + r, a * c);
  }

  lemma MulAddRight(x: int, y: int, z: int)
    ensures (x + y) * z == x * z + y * z
  {
  }

  lemma MulRotate(x: int, y: int, z: int)
    ensures x * y * z == x * (z * y)
  {
  }

  lemma MulComm(x: int, y: int)
    ensures x * y == y * x
  {
  }

  lemma MulLeq(x: int, y: int, z: nat)
    requires x <= y
    ensures x * z <= y * z
  {
  }

  /** Digit k of x is x shifted right by k digits, modulo the base. */
  lemma {:induction false} ToDigitsAt(x: nat, base: nat, n: nat, k: nat)
    requires Base(base) && k < n
    ensures ToDigits(x, base, n)[k] == x / Power(base, k) % base
  {
    if k > 0 {
      ToDigitsAt(x / base, base, n - 1, k - 1);
      DivDiv(x, base, Power(base, k - 1));
    }
  }
}
