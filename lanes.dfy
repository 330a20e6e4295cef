/*
 * Lane-level vocabulary shared by the Highway models: masks as sequences of
 * booleans, the rank of a lane among the selected lanes, the reference
 * definition of Compress (keep the selected lanes, in order), and the
 * little-endian reading of a bit mask as a number.
 */
/** The compile-time target that selects a #if HWY_TARGET branch of the x86 ops. */
module Targets {
  datatype Target = SSSE3 | SSE4 | AVX2 | AVX3
}

module Lanes {
  import Digits

  /** Number of selected lanes. */
  function Count(sel: seq<bool>): (r: nat)
    ensures r <= |sel|
  {
    if |sel| == 0 then 0 else (if sel[0] then 1 else 0) + Count(sel[1..])
  }

  /** Rank of lane j: how many selected lanes precede it. */
  function Rank(sel: seq<bool>, j: nat): (r: nat)
    requires j <= |sel|
    ensures r <= j
  {
    Count(sel[..j])
  }

  /** Reference definition of Compress: the selected lanes, in lane order. */
  function Compressed<T>(xs: seq<T>, sel: seq<bool>): seq<T>
    requires |xs| == |sel|
  {
    if |xs| == 0 then []
    else (if sel[0] then [xs[0]] else []) + Compressed(xs[1..], sel[1..])
  }

  /** n copies of d. */
  function Repeat<T>(d: T, n: nat): (r: seq<T>)
    ensures |r| == n && forall i | 0 <= i < n :: r[i] == d
  {
    if n == 0 then [] else [d] + Repeat(d, n - 1)
  }

  /** Lane indices 0, 1, ..., n-1. */
  function Iota(n: nat): (r: seq<nat>)
    ensures |r| == n && forall i | 0 <= i < n :: r[i] == i
  {
    seq(n, i requires 0 <= i < n => i)
  }

  /** Lanes whose bit is set in the little-endian mask number m, for n lanes. */
  function BitsOf(m: nat, n: nat): (r: seq<bool>)
    ensures |r| == n
  {
    if n == 0 then [] else [m % 2 == 1] + BitsOf(m / 2, n - 1)
  }

  /** The mask number whose bit i is sel[i]. */
  function MaskNumber(sel: seq<bool>): nat
  {
    if |sel| == 0 then 0 else (if sel[0] then 1 else 0) + 2 * MaskNumber(sel[1..])
  }

  function Pow2(n: nat): (r: nat)
    ensures r >= 1
  {
    if n == 0 then 1 else 2 * Pow2(n - 1)
  }

  /** Number of one bits of a number. */
  function PopCount(x: nat): nat
  {
    if x == 0 then 0 else x % 2 + PopCount(x / 2)
  }

  // ---------------------------------------------------------------- lemmas

  lemma {:induction false} CountAppend(a: seq<bool>, b: seq<bool>)
    ensures Count(a + b) == Count(a) + Count(b)
  {
    if |a| == 0 {
      assert a + b == b;
    } else {
      assert (a + b)[1..] == a[1..] + b;
      CountAppend(a[1..], b);
    }
  }

  lemma RankStep(sel: seq<bool>, j: nat)
    requires j < |sel|
    ensures Rank(sel, j + 1) == Rank(sel, j) + (if sel[j] then 1 else 0)
  {
    assert sel[..j + 1] == sel[..j] + [sel[j]];
    CountAppend(sel[..j], [sel[j]]);
  }

  lemma RankMonotone(sel: seq<bool>, i: nat, j: nat)
    requires i <= j <= |sel|
    ensures Rank(sel, i) <= Rank(sel, j)
    decreases j - i
  {
    if i < j {
      RankStep(sel, j - 1);
      RankMonotone(sel, i, j - 1);
    }
  }

  /** A selected lane strictly precedes every later selected lane in rank. */
  lemma RankStrict(sel: seq<bool>, i: nat, j: nat)
    requires i < j <= |sel| && sel[i]
    ensures Rank(sel, i) < Rank(sel, j)
  {
    RankStep(sel, i);
    RankMonotone(sel, i + 1, j);
  }

  lemma RankFull(sel: seq<bool>)
    ensures Rank(sel, |sel|) == Count(sel)
  {
    assert sel[..|sel|] == sel;
  }

  lemma {:induction false} CompressedLength<T>(xs: seq<T>, sel: seq<bool>)
    requires |xs| == |sel|
    ensures |Compressed(xs, sel)| == Count(sel)
  {
    if |xs| > 0 {
      CompressedLength(xs[1..], sel[1..]);
    }
  }

  /** Selected lane j lands at position Rank(sel, j) of the compressed lanes. */
  lemma {:induction false} CompressedAt<T>(xs: seq<T>, sel: seq<bool>, j: nat)
    requires |xs| == |sel| && j < |sel| && sel[j]
    ensures Rank(sel, j) < |Compressed(xs, sel)|
    ensures Compressed(xs, sel)[Rank(sel, j)] == xs[j]
  {
    CompressedLength(xs, sel);
    RankStrict(sel, j, |sel|);
    RankFull(sel);
    var head: seq<T> := if sel[0] then [xs[0]] else [];
    var tail := Compressed(xs[1..], sel[1..]);
    assert Compressed(xs, sel) == head + tail;
    if j == 0 {
      assert Rank(sel, 0) == 0 by { assert sel[..0] == []; }
    } else {
      assert sel[..j] == [sel[0]] + sel[1..][..j - 1];
      CountAppend([sel[0]], sel[1..][..j - 1]);
      assert Count([sel[0]]) == |head| by { assert [sel[0]][1..] == []; }
      CompressedAt(xs[1..], sel[1..], j - 1);
    }
  }

  /** Every position below Count(sel) is the rank of one selected lane. */
  lemma {:induction false} RankCovers(sel: seq<bool>, k: nat) returns (j: nat)
    requires k < Count(sel)
    ensures j < |sel| && sel[j] && Rank(sel, j) == k
  {
    if sel[0] && k == 0 {
      j := 0;
      assert sel[..0] == [];
    } else {
      var d := if sel[0] then 1 else 0;
      var j' := RankCovers(sel[1..], k - d);
      j := j' + 1;
      assert sel[..j] == [sel[0]] + sel[1..][..j'];
      CountAppend([sel[0]], sel[1..][..j']);
      assert [sel[0]][1..] == [];
    }
  }

  /**
   * A sequence that holds each selected lane at its rank and d everywhere
   * past Count(sel) is the compressed lanes followed by padding.
   */
  lemma CompressedUnique<T>(xs: seq<T>, sel: seq<bool>, out: seq<T>, d: T)
    requires |xs| == |sel| == |out|
    requires forall j | 0 <= j < |sel| && sel[j] :: out[Rank(sel, j)] == xs[j]
    requires forall k | Count(sel) <= k < |out| :: out[k] == d
    ensures out == Compressed(xs, sel) + Repeat(d, |sel| - Count(sel))
  {
    var c := Compressed(xs, sel);
    CompressedLength(xs, sel);
    var want := c + Repeat(d, |sel| - Count(sel));
    forall k | 0 <= k < |out|
      ensures out[k] == want[k]
    {
      if k < Count(sel) {
        var j := RankCovers(sel, k);
        CompressedAt(xs, sel, j);
      }
    }
  }

  /** Compress commutes with a lane-wise map. */
  lemma {:induction false} CompressedMap<T, U>(xs: seq<T>, sel: seq<bool>, f: T -> U)
    requires |xs| == |sel|
    ensures Compressed(seq(|xs|, i requires 0 <= i < |xs| => f(xs[i])), sel)
         == seq(|Compressed(xs, sel)|, i requires 0 <= i < |Compressed(xs, sel)| => f(Compressed(xs, sel)[i]))
  {
    if |xs| > 0 {
      var ys := seq(|xs|, i requires 0 <= i < |xs| => f(xs[i]));
      assert ys[1..] == seq(|xs[1..]|, i requires 0 <= i < |xs[1..]| => f(xs[1..][i]));
      CompressedMap(xs[1..], sel[1..], f);
    }
  }

  lemma {:induction false} BitsOfMaskNumber(sel: seq<bool>)
    ensures BitsOf(MaskNumber(sel), |sel|) == sel
    ensures MaskNumber(sel) < Pow2(|sel|)
  {
    if |sel| > 0 {
      var m := MaskNumber(sel);
      assert m % 2 == 1 <==> sel[0];
      assert m / 2 == MaskNumber(sel[1..]);
      BitsOfMaskNumber(sel[1..]);
    }
  }

  lemma {:induction false} MaskNumberOfBits(m: nat, n: nat)
    requires m < Pow2(n)
    ensures MaskNumber(BitsOf(m, n)) == m
  {
    if n > 0 {
      MaskNumberOfBits(m / 2, n - 1);
      assert BitsOf(m, n)[1..] == BitsOf(m / 2, n - 1);
    }
  }

  /** The popcount of a mask number is the number of selected lanes. */
  lemma {:induction false} PopCountMaskNumber(sel: seq<bool>)
    ensures PopCount(MaskNumber(sel)) == Count(sel)
  {
    if |sel| > 0 {
      var m := MaskNumber(sel);
      PopCountMaskNumber(sel[1..]);
      if m != 0 {
        assert m % 2 == (if sel[0] then 1 else 0);
        assert m / 2 == MaskNumber(sel[1..]);
      } else {
        assert !sel[0] && MaskNumber(sel[1..]) == 0;
      }
    }
  }

  lemma {:induction false} MaskNumberZero(sel: seq<bool>)
    ensures MaskNumber(sel) == 0 <==> forall i | 0 <= i < |sel| :: !sel[i]
  {
    if |sel| > 0 {
      MaskNumberZero(sel[1..]);
      assert forall i | 1 <= i < |sel| :: sel[i] == sel[1..][i - 1];
    }
  }

  lemma {:induction false} MaskNumberAll(sel: seq<bool>)
    ensures MaskNumber(sel) == Pow2(|sel|) - 1 <==> forall i | 0 <= i < |sel| :: sel[i]
  {
    if |sel| > 0 {
      MaskNumberAll(sel[1..]);
      BitsOfMaskNumber(sel[1..]);
      assert forall i | 1 <= i < |sel| :: sel[i] == sel[1..][i - 1];
    }
  }

  /** Zero bits above the top lane do not change the mask number. */
  lemma {:induction false} MaskNumberPad(sel: seq<bool>, k: nat)
    ensures MaskNumber(sel + Repeat(false, k)) == MaskNumber(sel)
  {
    if |sel| == 0 {
      assert sel + Repeat(false, k) == Repeat(false, k);
      MaskNumberZero(Repeat(false, k));
    } else {
      assert (sel + Repeat(false, k))[1..] == sel[1..] + Repeat(false, k);
      MaskNumberPad(sel[1..], k);
    }
  }

  /** Read back over w >= |sel| bits, a mask number gives its lanes and then zeros. */
  lemma {:induction false} BitsOfMaskNumberWide(sel: seq<bool>, w: nat)
    requires |sel| <= w
    ensures BitsOf(MaskNumber(sel), w) == sel + Repeat(false, w - |sel|)
  {
    MaskNumberPad(sel, w - |sel|);
    BitsOfMaskNumber(sel + Repeat(false, w - |sel|));
  }

  /** (1 << n) - 1 is the mask number of n selected lanes. */
  lemma LowOnes(n: nat)
    ensures MaskNumber(Repeat(true, n)) == Pow2(n) - 1
  {
    MaskNumberAll(Repeat(true, n));
  }

  lemma {:induction false} CompressedAppend<T>(xs: seq<T>, ys: seq<T>, s: seq<bool>, t: seq<bool>)
    requires |xs| == |s| && |ys| == |t|
    ensures Compressed(xs + ys, s + t) == Compressed(xs, s) + Compressed(ys, t)
  {
    if |xs| == 0 {
      assert xs + ys == ys && s + t == t;
    } else {
      var head: seq<T> := if s[0] then [xs[0]] else [];
      assert (xs + ys)[1..] == xs[1..] + ys;
      assert (s + t)[1..] == s[1..] + t;
      assert Compressed(xs + ys, s + t) == head + Compressed(xs[1..] + ys, s[1..] + t);
      CompressedAppend(xs[1..], ys, s[1..], t);
      assert Compressed(xs, s) == head + Compressed(xs[1..], s[1..]);
    }
  }

  /** Compressing one more element appends it exactly when it is selected. */
  lemma CompressedStep<T>(xs: seq<T>, m: seq<bool>, k: nat)
    requires |xs| == |m| && k < |xs|
    ensures Compressed(xs[..k + 1], m[..k + 1])
      == Compressed(xs[..k], m[..k]) + (if m[k] then [xs[k]] else [])
  {
    assert xs[..k + 1] == xs[..k] + [xs[k]];
    assert m[..k + 1] == m[..k] + [m[k]];
    CompressedAppend(xs[..k], [xs[k]], m[..k], [m[k]]);
    assert Compressed([xs[k]], [m[k]]) == (if m[k] then [xs[k]] else []) + Compressed([xs[k]][1..], [m[k]][1..]);
  }

  lemma {:induction false} CompressedNone<T>(xs: seq<T>, k: nat)
    requires |xs| == k
    ensures Compressed(xs, Repeat(false, k)) == []
    ensures Count(Repeat(false, k)) == 0
  {
    if k > 0 {
      assert Repeat(false, k)[1..] == Repeat(false, k - 1);
      CompressedNone(xs[1..], k - 1);
    }
  }

  /** Unselected lanes past the first n do not change Compress. */
  lemma CompressedPrefix<T>(xs: seq<T>, sel: seq<bool>, n: nat)
    requires n <= |xs| == |sel|
    ensures Compressed(xs, sel[..n] + Repeat(false, |xs| - n)) == Compressed(xs[..n], sel[..n])
    ensures Count(sel[..n] + Repeat(false, |xs| - n)) == Count(sel[..n])
  {
    assert xs == xs[..n] + xs[n..];
    CompressedAppend(xs[..n], xs[n..], sel[..n], Repeat(false, |xs| - n));
    CompressedNone(xs[n..], |xs| - n);
    CountAppend(sel[..n], Repeat(false, |xs| - n));
  }

  // ------------------------------------------------- bitwise logic on numbers

  /** x & y on the lowest w bits. */
  function BitAnd(x: nat, y: nat, w: nat): nat
  {
    if w == 0 then 0 else (x % 2) * (y % 2) + 2 * BitAnd(x / 2, y / 2, w - 1)
  }

  /** x ^ y on the lowest w bits. */
  function BitXor(x: nat, y: nat, w: nat): nat
  {
    if w == 0 then 0 else (x % 2 + y % 2) % 2 + 2 * BitXor(x / 2, y / 2, w - 1)
  }

  lemma {:induction false} BitAndNone(x: nat, w: nat)
    ensures BitAnd(x, 0, w) == 0
  {
    if w > 0 {
      BitAndNone(x / 2, w - 1);
    }
  }

  lemma {:induction false} Pow2Add(a: nat, b: nat)
    ensures Pow2(a + b) == Pow2(a) * Pow2(b) && Pow2(a) <= Pow2(a + b)
  {
    if a > 0 {
      Pow2Add(a - 1, b);
    }
  }

  /** The remainder by 2p is the lowest bit plus twice the remainder of x / 2 by p. */
  lemma ModDouble(x: nat, p: nat)
    requires p >= 1
    ensures x % (2 * p) == x % 2 + 2 * ((x / 2) % p)
  {
    var q := (x / 2) / p;
    var r := x % 2 + 2 * ((x / 2) % p);
    assert x / 2 == q * p + (x / 2) % p;
    assert x == q * (2 * p) + r;
    Digits.DivModUnique(x, q, r, 2 * p);
  }

  /** x & ((1 << k) - 1) is x mod 2^k. */
  lemma {:induction false} AndLowOnes(x: nat, k: nat, w: nat)
    requires k <= w
    ensures BitAnd(x, Pow2(k) - 1, w) == x % Pow2(k)
  {
    if k == 0 {
      BitAndNone(x, w);
    } else {
      var p := Pow2(k - 1);
      assert (Pow2(k) - 1) % 2 == 1 && (Pow2(k) - 1) / 2 == p - 1;
      AndLowOnes(x / 2, k - 1, w - 1);
      assert BitAnd(x, Pow2(k) - 1, w) == x % 2 + 2 * ((x / 2) % p);
      ModDouble(x, p);
    }
  }

  /** The bits of x under m and under its complement ~m add up to x. */
  lemma {:induction false} AndComplement(x: nat, m: nat, w: nat)
    requires m < Pow2(w)
    ensures BitAnd(x, Pow2(w) - 1 - m, w) + BitAnd(x, m, w) == x % Pow2(w)
  {
    if w > 0 {
      var p := Pow2(w - 1);
      var c := Pow2(w) - 1 - m;
      Digits.DivModUnique(c, p - 1 - m / 2, 1 - m % 2, 2);
      AndComplement(x / 2, m / 2, w - 1);
      assert BitAnd(x, c, w) == (x % 2) * (1 - m % 2) + 2 * BitAnd(x / 2, p - 1 - m / 2, w - 1);
      assert BitAnd(x, m, w) == (x % 2) * (m % 2) + 2 * BitAnd(x / 2, m / 2, w - 1);
      assert (x % 2) * (1 - m % 2) + (x % 2) * (m % 2) == x % 2;
      ModDouble(x, p);
    }
  }

  /** x & ~((1 << k) - 1) clears the lowest k bits of a w-bit x. */
  lemma AndClearLow(x: nat, k: nat, w: nat)
    requires k <= w && x < Pow2(w)
    ensures Pow2(k) <= Pow2(w) && BitAnd(x, Pow2(w) - Pow2(k), w) == x - x % Pow2(k)
  {
    Pow2Add(k, w - k);
    AndComplement(x, Pow2(k) - 1, w);
    AndLowOnes(x, k, w);
    Digits.DivModUnique(x, 0, x, Pow2(w));
  }

  /** x ^ 0 is x mod 2^w. */
  lemma {:induction false} XorZero(x: nat, w: nat)
    ensures BitXor(x, 0, w) == x % Pow2(w)
  {
    if w > 0 {
      XorZero(x / 2, w - 1);
      ModDouble(x, Pow2(w - 1));
    }
  }

  /** x ^ 3 flips the lowest two bits: it maps x % 4 to 3 - x % 4 and keeps the rest. */
  lemma XorThree(x: nat, w: nat)
    requires 2 <= w && x < Pow2(w)
    ensures BitXor(x, 3, w) == x - x % 4 + (3 - x % 4)
  {
    Pow2Add(2, w - 2);
    assert Pow2(2) == 4;
    assert x / 2 / 2 == x / 4;
    XorZero(x / 4, w - 2);
    Digits.DivModUnique(x / 4, 0, x / 4, Pow2(w - 2));
    assert BitXor(x / 2, 1, w - 1) == ((x / 2) % 2 + 1) % 2 + 2 * (x / 4);
    ModDouble(x, 2);
  }
}
