/*
 * Reductions of 256-bit registers (x86_256-inl.h): SumOfLanes, MinOfLanes
 * and MaxOfLanes of 32-bit lanes (eight per register) and 64-bit lanes (four
 * per register). The two 128-bit blocks are first combined with their
 * swapped copy, then each block is reduced within itself by shuffles.
 *
 * Lanes are bit patterns below 2^w; a Min or Max reads them signed or
 * unsigned as the lane type says, and a Sum wraps modulo 2^w.
 */
module X86Reduce256 {
  import opened Words
  import opened Digits

  datatype Reduction = SumOf | MinOf | MaxOf

  /** The lane widths SumOfLanes, MinOfLanes and MaxOfLanes support. */
  predicate ReduceWidth(w: nat) { w == 32 || w == 64 }

  function Modulus(w: nat): (r: nat)
    requires ReduceWidth(w)
    ensures r >= 1
  {
    if w == 32 then 0x1_0000_0000 else 0x1_0000_0000_0000_0000
  }

  /** The number of w-bit lanes in a 256-bit register. */
  function LaneCount(w: nat): (r: nat)
    requires ReduceWidth(w)
    ensures r * w == 256
  {
    if w == 32 then 8 else 4
  }

  /** A 256-bit register of w-bit lanes. */
  predicate Vector(w: nat, v: seq<nat>)
  {
    ReduceWidth(w) && |v| == LaneCount(w) && forall i | 0 <= i < |v| :: v[i] < Modulus(w)
  }

  /** The order Min and Max use: two's complement for signed lane types. */
  function Key(signed: bool, w: nat, x: nat): int
    requires ReduceWidth(w)
  {
    if signed && x >= Modulus(w) / 2 then x - Modulus(w) else x
  }

  /** operator+, Min or Max of one pair of lanes. */
  function Combine(op: Reduction, signed: bool, w: nat, x: nat, y: nat): (r: nat)
    requires ReduceWidth(w)
  {
    match op
    case SumOf => (x + y) % Modulus(w)
    case MinOf => if Key(signed, w, x) <= Key(signed, w, y) then x else y
    case MaxOf => if Key(signed, w, x) >= Key(signed, w, y) then x else y
  }

  /** The lane-wise operation on two registers. */
  function Lanewise(op: Reduction, signed: bool, w: nat, a: seq<nat>, b: seq<nat>): (r: seq<nat>)
    requires ReduceWidth(w) && |a| == |b|
    ensures |r| == |a| && forall i | 0 <= i < |a| :: r[i] == Combine(op, signed, w, a[i], b[i])
  {
    seq(|a|, i requires 0 <= i < |a| => Combine(op, signed, w, a[i], b[i]))
  }

  /** ConcatLowerUpper(v, v): the two 128-bit blocks swapped. */
  function SwapBlocks(v: seq<nat>): (r: seq<nat>)
    ensures |r| == |v|
  {
    v[|v| / 2..] + v[..|v| / 2]
  }

  /** Shuffle1032 of 32-bit lanes: the 64-bit halves of every block swapped. */
  function Shuffle1032(v: seq<nat>): (r: seq<nat>)
    requires |v| == 8
    ensures |r| == 8 && forall i | 0 <= i < 8 :: r[i] == v[i / 4 * 4 + (i + 2) % 4]
  {
    seq(8, i requires 0 <= i < 8 => v[i / 4 * 4 + (i + 2) % 4])
  }

  /** Shuffle0321 of 32-bit lanes: every block rotated right by one lane. */
  function Shuffle0321(v: seq<nat>): (r: seq<nat>)
    requires |v| == 8
    ensures |r| == 8 && forall i | 0 <= i < 8 :: r[i] == v[i / 4 * 4 + (i + 1) % 4]
  {
    seq(8, i requires 0 <= i < 8 => v[i / 4 * 4 + (i + 1) % 4])
  }

  /** Shuffle01 of 64-bit lanes: the two lanes of every block swapped. */
  function Shuffle01(v: seq<nat>): (r: seq<nat>)
    requires |v| == 4
    ensures |r| == 4 && forall i | 0 <= i < 4 :: r[i] == v[i / 2 * 2 + (i + 1) % 2]
  {
    seq(4, i requires 0 <= i < 4 => v[i / 2 * 2 + (i + 1) % 2])
  }

  /**
   * The body shared by SumOfLanes, MinOfLanes and MaxOfLanes: op of the
   * register and its swapped blocks, then the in-block reduction for the
   * lane size (Shuffle1032 and Shuffle0321 for 32-bit lanes, Shuffle01 for
   * 64-bit lanes).
   */
  function OfLanes(op: Reduction, signed: bool, w: nat, vHL: seq<nat>): (r: seq<nat>)
    requires Vector(w, vHL)
    ensures |r| == |vHL|
  {
    var v := Lanewise(op, signed, w, SwapBlocks(vHL), vHL);
    if w == 32 then
      var v31_20 := Lanewise(op, signed, w, v, Shuffle1032(v));
      Lanewise(op, signed, w, Shuffle0321(v31_20), v31_20)
    else
      Lanewise(op, signed, w, v, Shuffle01(v))
  }

  // ---------------------------------------------------------------- specification

  /** The sum of all lanes, without wrapping. */
  function Total(v: seq<nat>): nat
  {
    if v == [] then 0 else Total(v[..|v| - 1]) + v[|v| - 1]
  }

  /** x is a lane of v and no lane of v is smaller (op MinOf) or greater (op MaxOf) than x. */
  predicate Extreme(op: Reduction, signed: bool, w: nat, x: nat, v: seq<nat>)
    requires ReduceWidth(w)
  {
    x in v &&
    forall j | 0 <= j < |v| ::
      if op == MinOf then Key(signed, w, x) <= Key(signed, w, v[j]) else Key(signed, w, x) >= Key(signed, w, v[j])
  }

  /** SumOfLanes: the wrapped sum of all lanes, in every lane. */
  function SumOfLanes(w: nat, v: seq<nat>): (r: seq<nat>)
    requires Vector(w, v)
    ensures |r| == |v| && forall i | 0 <= i < |v| :: r[i] == Total(v) % Modulus(w)
  {
    ReducesAll(SumOf, false, w, v);
    FoldTotal(w, v);
    OfLanes(SumOf, false, w, v)
  }

  /** MinOfLanes: the least lane, in every lane. */
  function MinOfLanes(signed: bool, w: nat, v: seq<nat>): (r: seq<nat>)
    requires Vector(w, v)
    ensures |r| == |v| && forall i | 0 <= i < |v| :: r[i] == r[0] && Extreme(MinOf, signed, w, r[i], v)
  {
    ReducesAll(MinOf, signed, w, v);
    FoldExtreme(MinOf, signed, w, v);
    OfLanes(MinOf, signed, w, v)
  }

  /** MaxOfLanes: the greatest lane, in every lane. */
  function MaxOfLanes(signed: bool, w: nat, v: seq<nat>): (r: seq<nat>)
    requires Vector(w, v)
    ensures |r| == |v| && forall i | 0 <= i < |v| :: r[i] == r[0] && Extreme(MaxOf, signed, w, r[i], v)
  {
    ReducesAll(MaxOf, signed, w, v);
    FoldExtreme(MaxOf, signed, w, v);
    OfLanes(MaxOf, signed, w, v)
  }

  // ---------------------------------------------------------------- residue classes of lanes

  datatype Option<T> = None | Some(value: T)

  /** op of two partial results; None stands for no lane. */
  function Join(op: Reduction, signed: bool, w: nat, a: Option<nat>, b: Option<nat>): Option<nat>
    requires ReduceWidth(w)
  {
    if a.None? then b else if b.None? then a else Some(Combine(op, signed, w, a.value, b.value))
  }

  /** op of the lanes j of v with j % k == c, from the lowest up; None when there is none. */
  function ClassFold(op: Reduction, signed: bool, w: nat, v: seq<nat>, k: nat, c: nat): Option<nat>
    requires ReduceWidth(w) && c < k
  {
    if v == [] then None
    else
      var rest := ClassFold(op, signed, w, v[..|v| - 1], k, c);
      if (|v| - 1) % k == c then Join(op, signed, w, rest, Some(v[|v| - 1])) else rest
  }

  /** x is op of the lanes of v in the residue class of lane i modulo k. */
  predicate Reduces(op: Reduction, signed: bool, w: nat, x: nat, v: seq<nat>, k: nat, i: nat)
    requires ReduceWidth(w) && k >= 1
  {
    ClassFold(op, signed, w, v, k, i % k) == Some(x)
  }

  /** Every lane of v is a w-bit lane. */
  predicate Fits(w: nat, v: seq<nat>)
    requires ReduceWidth(w)
  {
    forall i | 0 <= i < |v| :: v[i] < Modulus(w)
  }

  predicate OptFits(w: nat, a: Option<nat>)
    requires ReduceWidth(w)
  {
    a.Some? ==> a.value < Modulus(w)
  }

  // ---------------------------------------------------------------- lemmas

  /** Wrapping after each addition is wrapping once. */
  lemma ModAdd(a: int, b: int, m: nat)
    requires m >= 1
    ensures (a % m + b % m) % m == (a + b) % m
  {
    var qa, qb := a / m, b / m;
    assert a + b == (qa + qb) * m + (a % m + b % m);
    var q := (a % m + b % m) / m;
    assert a % m + b % m == q * m + (a % m + b % m) % m;
    assert a + b == (qa + qb + q) * m + (a % m + b % m) % m;
    DivModUnique(a + b, qa + qb + q, (a % m + b % m) % m, m);
  }

  /** The signed reading of a w-bit lane is one-to-one. */
  lemma KeyInjective(signed: bool, w: nat, x: nat, y: nat)
    requires ReduceWidth(w) && x < Modulus(w) && y < Modulus(w)
    requires Key(signed, w, x) == Key(signed, w, y)
    ensures x == y
  {
  }

  /** operator+, Min and Max of w-bit lanes give w-bit lanes and are commutative and associative. */
  lemma CombineLaws(op: Reduction, signed: bool, w: nat, x: nat, y: nat, z: nat)
    requires ReduceWidth(w) && x < Modulus(w) && y < Modulus(w) && z < Modulus(w)
    ensures Combine(op, signed, w, x, y) < Modulus(w)
    ensures Combine(op, signed, w, x, y) == Combine(op, signed, w, y, x)
    ensures Combine(op, signed, w, Combine(op, signed, w, x, y), z) == Combine(op, signed, w, x, Combine(op, signed, w, y, z))
  {
    match op
    case SumOf => SumLaws(Modulus(w), x, y, z);
    case MinOf => MinLaws(signed, w, x, y, z);
    case MaxOf => MaxLaws(signed, w, x, y, z);
  }

  lemma MinLaws(signed: bool, w: nat, x: nat, y: nat, z: nat)
    requires ReduceWidth(w) && x < Modulus(w) && y < Modulus(w) && z < Modulus(w)
    ensures Combine(MinOf, signed, w, x, y) == Combine(MinOf, signed, w, y, x)
    ensures Combine(MinOf, signed, w, Combine(MinOf, signed, w, x, y), z)
         == Combine(MinOf, signed, w, x, Combine(MinOf, signed, w, y, z))
  {
    KeyLaws(signed, w, x, y);
  }

  lemma MaxLaws(signed: bool, w: nat, x: nat, y: nat, z: nat)
    requires ReduceWidth(w) && x < Modulus(w) && y < Modulus(w) && z < Modulus(w)
    ensures Combine(MaxOf, signed, w, x, y) == Combine(MaxOf, signed, w, y, x)
    ensures Combine(MaxOf, signed, w, Combine(MaxOf, signed, w, x, y), z)
         == Combine(MaxOf, signed, w, x, Combine(MaxOf, signed, w, y, z))
  {
    KeyLaws(signed, w, x, y);
  }

  /** Wrapping addition of numbers below m is commutative and associative. */
  lemma SumLaws(m: nat, x: nat, y: nat, z: nat)
    requires x < m && y < m && z < m
    ensures (x + y) % m < m && ((x + y) % m + z) % m == (x + (y + z) % m) % m
  {
    DivModUnique(x, 0, x, m);
    DivModUnique(z, 0, z, m);
    ModAdd(x + y, z, m);
    ModAdd(x, y + z, m);
    ModBound(x + y, m);
    ModEq(x % m + (y + z) % m, x + (y + z) % m, m);
    ModEq(x + (y + z), x + y + z, m);
    ModEq((x + y) % m + z % m, (x + y) % m + z, m);
  }

  lemma ModEq(a: int, b: int, m: nat)
    requires m >= 1 && a == b
    ensures a % m == b % m
  {
  }

  lemma ModBound(a: int, m: nat)
    requires m >= 1
    ensures 0 <= a % m < m
  {
  }

  /** Two w-bit lanes with the same key are equal. */
  lemma KeyLaws(signed: bool, w: nat, x: nat, y: nat)
    requires ReduceWidth(w) && x < Modulus(w) && y < Modulus(w)
    ensures Key(signed, w, x) == Key(signed, w, y) ==> x == y
  {
    if Key(signed, w, x) == Key(signed, w, y) {
      KeyInjective(signed, w, x, y);
    }
  }

  /** Join of partial results of w-bit lanes is commutative and associative. */
  lemma JoinLaws(op: Reduction, signed: bool, w: nat, a: Option<nat>, b: Option<nat>, c: Option<nat>)
    requires ReduceWidth(w) && OptFits(w, a) && OptFits(w, b) && OptFits(w, c)
    ensures OptFits(w, Join(op, signed, w, a, b))
    ensures Join(op, signed, w, a, b) == Join(op, signed, w, b, a)
    ensures Join(op, signed, w, Join(op, signed, w, a, b), c) == Join(op, signed, w, a, Join(op, signed, w, b, c))
  {
    if a.Some? && b.Some? && c.Some? {
      CombineLaws(op, signed, w, a.value, b.value, c.value);
    } else if a.Some? && b.Some? {
      CombineLaws(op, signed, w, a.value, b.value, 0);
    }
  }

  lemma {:induction false} ClassFoldFits(op: Reduction, signed: bool, w: nat, v: seq<nat>, k: nat, c: nat)
    requires ReduceWidth(w) && c < k && Fits(w, v)
    ensures OptFits(w, ClassFold(op, signed, w, v, k, c))
  {
    if v != [] {
      var n := |v| - 1;
      ClassFoldFits(op, signed, w, v[..n], k, c);
      JoinLaws(op, signed, w, ClassFold(op, signed, w, v[..n], k, c), Some(v[n]), None);
    }
  }

  /** Reducing modulo 2k, then modulo k, is reducing modulo k. */
  lemma ModMod(x: int, k: nat)
    requires k >= 1
    ensures x % (2 * k) % k == x % k
  {
    var q, a := x / (2 * k), x % (2 * k);
    assert x == q * (2 * k) + a;
    assert a == a / k * k + a % k;
    assert x == (2 * q + a / k) * k + a % k;
    DivModUnique(x, 2 * q + a / k, a % k, k);
  }

  /** The residue class c modulo k is the union of the classes c and c + k modulo 2k. */
  lemma ResidueSplit(j: nat, k: nat, c: nat)
    requires (k == 1 || k == 2 || k == 4) && c < k
    ensures j % k == c <==> (j % (2 * k) == c || j % (2 * k) == c + k)
  {
    ModMod(j, k);
    var a := j % (2 * k);
    if a < k {
      DivModUnique(a, 0, a, k);
    } else {
      DivModUnique(a, 1, a - k, k);
    }
  }

  /** Folding the class c modulo k is the Join of folding the classes c and c + k modulo 2k. */
  lemma {:induction false} ClassSplit(op: Reduction, signed: bool, w: nat, v: seq<nat>, k: nat, c: nat)
    requires ReduceWidth(w) && Fits(w, v) && (k == 1 || k == 2 || k == 4) && c < k
    ensures ClassFold(op, signed, w, v, k, c)
         == Join(op, signed, w, ClassFold(op, signed, w, v, 2 * k, c), ClassFold(op, signed, w, v, 2 * k, c + k))
  {
    if v != [] {
      var n := |v| - 1;
      var v' := v[..n];
      ClassSplit(op, signed, w, v', k, c);
      ResidueSplit(n, k, c);
      var fa, fb, x := ClassFold(op, signed, w, v', 2 * k, c), ClassFold(op, signed, w, v', 2 * k, c + k), Some(v[n]);
      ClassFoldFits(op, signed, w, v', 2 * k, c);
      ClassFoldFits(op, signed, w, v', 2 * k, c + k);
      if n % (2 * k) == c {
        JoinLaws(op, signed, w, fa, fb, x);
        JoinLaws(op, signed, w, fb, x, None);
        JoinLaws(op, signed, w, fa, x, fb);
      } else if n % (2 * k) == c + k {
        JoinLaws(op, signed, w, fa, fb, x);
      }
    }
  }

  /** Modulo at least |v|, the class c holds lane c alone. */
  lemma {:induction false} ClassSingle(op: Reduction, signed: bool, w: nat, v: seq<nat>, k: nat, c: nat)
    requires ReduceWidth(w) && c < k && |v| <= k
    ensures ClassFold(op, signed, w, v, k, c) == if c < |v| then Some(v[c]) else None
  {
    if v != [] {
      var n := |v| - 1;
      ClassSingle(op, signed, w, v[..n], k, c);
      DivModUnique(n, 0, n, k);
    }
  }

  /** Folding every lane with operator+ gives the wrapped total. */
  lemma {:induction false} FoldTotal(w: nat, v: seq<nat>)
    requires ReduceWidth(w) && |v| > 0 && Fits(w, v)
    ensures ClassFold(SumOf, false, w, v, 1, 0) == Some(Total(v) % Modulus(w))
  {
    var n := |v| - 1;
    if n > 0 {
      FoldTotal(w, v[..n]);
      DivModUnique(v[n], 0, v[n], Modulus(w));
      ModAdd(Total(v[..n]), v[n], Modulus(w));
    } else {
      DivModUnique(v[0], 0, v[0], Modulus(w));
    }
  }

  /** Folding every lane with Min or Max gives a lane that no lane is below or above. */
  lemma {:induction false} FoldExtreme(op: Reduction, signed: bool, w: nat, v: seq<nat>)
    requires ReduceWidth(w) && op != SumOf && |v| > 0
    ensures ClassFold(op, signed, w, v, 1, 0).Some? && Extreme(op, signed, w, ClassFold(op, signed, w, v, 1, 0).value, v)
  {
    var n := |v| - 1;
    if n > 0 {
      FoldExtreme(op, signed, w, v[..n]);
      var x := ClassFold(op, signed, w, v[..n], 1, 0).value;
      assert forall j | 0 <= j < n :: v[..n][j] == v[j];
      assert x in v by {
        var j :| 0 <= j < n && v[..n][j] == x;
        assert v[j] == x;
      }
    }
  }

  /** After the block swap, lane i of a register of n lanes folds the class of i modulo n / 2. */
  lemma SwapStage(op: Reduction, signed: bool, w: nat, vHL: seq<nat>, h: nat)
    requires Vector(w, vHL) && h == |vHL| / 2
    ensures forall i | 0 <= i < |vHL| ::
      Reduces(op, signed, w, Lanewise(op, signed, w, SwapBlocks(vHL), vHL)[i], vHL, h, i)
  {
    var vLH := SwapBlocks(vHL);
    forall i | 0 <= i < |vHL|
      ensures Reduces(op, signed, w, Lanewise(op, signed, w, vLH, vHL)[i], vHL, h, i)
    {
      var p := if i < h then i + h else i - h;
      assert vLH[i] == vHL[p];
      SwapLane(op, signed, w, vHL, i, p);
    }
  }

  lemma SwapLane(op: Reduction, signed: bool, w: nat, vHL: seq<nat>, i: nat, p: nat)
    requires Vector(w, vHL) && i < |vHL| && p == if i < |vHL| / 2 then i + |vHL| / 2 else i - |vHL| / 2
    ensures Reduces(op, signed, w, Combine(op, signed, w, vHL[p], vHL[i]), vHL, |vHL| / 2, i)
  {
    var n := |vHL|;
    var h := n / 2;
    var c := if i < h then i else p;
    DivModUnique(i, if i < h then 0 else 1, c, h);
    ClassSplit(op, signed, w, vHL, h, c);
    ClassSingle(op, signed, w, vHL, n, c);
    ClassSingle(op, signed, w, vHL, n, c + h);
    CombineLaws(op, signed, w, vHL[p], vHL[i], 0);
  }

  /** op of lane i and a partner lane p that folds the other half of the class of i modulo k. */
  lemma PairStage(op: Reduction, signed: bool, w: nat, v: seq<nat>, x: nat, y: nat, i: nat, p: nat, k: nat)
    requires ReduceWidth(w) && Fits(w, v) && (k == 1 || k == 2) && p % (2 * k) == (i + k) % (2 * k)
    requires Reduces(op, signed, w, x, v, 2 * k, i) && Reduces(op, signed, w, y, v, 2 * k, p)
    ensures Reduces(op, signed, w, Combine(op, signed, w, x, y), v, k, i)
    ensures Reduces(op, signed, w, Combine(op, signed, w, y, x), v, k, i)
  {
    var c := i % k;
    ClassSplit(op, signed, w, v, k, c);
    PartnerResidue(i, p, k);
    ClassFoldFits(op, signed, w, v, 2 * k, i % (2 * k));
    ClassFoldFits(op, signed, w, v, 2 * k, p % (2 * k));
    CombineLaws(op, signed, w, x, y, 0);
  }

  /** Lane i and its partner p lie in the two halves, modulo 2k, of the class of i modulo k. */
  lemma PartnerResidue(i: nat, p: nat, k: nat)
    requires (k == 1 || k == 2) && p % (2 * k) == (i + k) % (2 * k)
    ensures (i % (2 * k) == i % k && p % (2 * k) == i % k + k) || (i % (2 * k) == i % k + k && p % (2 * k) == i % k)
  {
    var c := i % k;
    ResidueSplit(i, k, c);
    ModAdd(i, k, 2 * k);
    DivModUnique(k, 0, k, 2 * k);
    if i % (2 * k) == c {
      DivModUnique(c + k, 0, c + k, 2 * k);
    } else {
      DivModUnique(c + 2 * k, 1, c, 2 * k);
    }
  }

  /** The lane d places further round the four-lane block of lane i. */
  lemma BlockPartner(i: nat, d: nat)
    requires i < 8 && (d == 1 || d == 2)
    ensures (i / 4 * 4 + (i + d) % 4) % (2 * d) == (i + d) % (2 * d)
  {
  }

  /** The Shuffle1032 stage of 32-bit lanes: lane i then folds the class of i modulo 2. */
  lemma Shuffle1032Stage(op: Reduction, signed: bool, w: nat, vHL: seq<nat>, v: seq<nat>)
    requires Vector(w, vHL) && |v| == 8
    requires forall i | 0 <= i < 8 :: Reduces(op, signed, w, v[i], vHL, 4, i)
    ensures forall i | 0 <= i < 8 :: Reduces(op, signed, w, Lanewise(op, signed, w, v, Shuffle1032(v))[i], vHL, 2, i)
  {
    forall i | 0 <= i < 8
      ensures Reduces(op, signed, w, Lanewise(op, signed, w, v, Shuffle1032(v))[i], vHL, 2, i)
    {
      var p := i / 4 * 4 + (i + 2) % 4;
      BlockPartner(i, 2);
      PairStage(op, signed, w, vHL, v[i], v[p], i, p, 2);
    }
  }

  /** The Shuffle0321 stage of 32-bit lanes: lane i then folds every lane. */
  lemma Shuffle0321Stage(op: Reduction, signed: bool, w: nat, vHL: seq<nat>, v: seq<nat>)
    requires Vector(w, vHL) && |v| == 8
    requires forall i | 0 <= i < 8 :: Reduces(op, signed, w, v[i], vHL, 2, i)
    ensures forall i | 0 <= i < 8 :: Reduces(op, signed, w, Lanewise(op, signed, w, Shuffle0321(v), v)[i], vHL, 1, i)
  {
    forall i | 0 <= i < 8
      ensures Reduces(op, signed, w, Lanewise(op, signed, w, Shuffle0321(v), v)[i], vHL, 1, i)
    {
      var p := i / 4 * 4 + (i + 1) % 4;
      BlockPartner(i, 1);
      PairStage(op, signed, w, vHL, v[i], v[p], i, p, 1);
    }
  }

  /** The Shuffle01 stage of 64-bit lanes: lane i then folds every lane. */
  lemma Shuffle01Stage(op: Reduction, signed: bool, w: nat, vHL: seq<nat>, v: seq<nat>)
    requires Vector(w, vHL) && |v| == 4
    requires forall i | 0 <= i < 4 :: Reduces(op, signed, w, v[i], vHL, 2, i)
    ensures forall i | 0 <= i < 4 :: Reduces(op, signed, w, Lanewise(op, signed, w, v, Shuffle01(v))[i], vHL, 1, i)
  {
    forall i | 0 <= i < 4
      ensures Reduces(op, signed, w, Lanewise(op, signed, w, v, Shuffle01(v))[i], vHL, 1, i)
    {
      var p := i / 2 * 2 + (i + 1) % 2;
      PairStage(op, signed, w, vHL, v[i], v[p], i, p, 1);
    }
  }

  /** Every lane of OfLanes folds all lanes of the register. */
  lemma ReducesAll(op: Reduction, signed: bool, w: nat, vHL: seq<nat>)
    requires Vector(w, vHL)
    ensures forall i | 0 <= i < |vHL| :: ClassFold(op, signed, w, vHL, 1, 0) == Some(OfLanes(op, signed, w, vHL)[i])
  {
    var r := OfLanes(op, signed, w, vHL);
    if w == 32 {
      Reduces32(op, signed, w, vHL);
    } else {
      Reduces64(op, signed, w, vHL);
    }
    forall i | 0 <= i < |vHL|
      ensures ClassFold(op, signed, w, vHL, 1, 0) == Some(r[i])
    {
      assert Reduces(op, signed, w, r[i], vHL, 1, i);
    }
  }

  lemma Reduces32(op: Reduction, signed: bool, w: nat, vHL: seq<nat>)
    requires Vector(w, vHL) && w == 32
    ensures forall i | 0 <= i < 8 :: Reduces(op, signed, w, OfLanes(op, signed, w, vHL)[i], vHL, 1, i)
  {
    var v := Lanewise(op, signed, w, SwapBlocks(vHL), vHL);
    assert |vHL| == 8;
    SwapStage(op, signed, w, vHL, 4);
    var v31_20 := Lanewise(op, signed, w, v, Shuffle1032(v));
    Shuffle1032Stage(op, signed, w, vHL, v);
    Shuffle0321Stage(op, signed, w, vHL, v31_20);
  }

  lemma Reduces64(op: Reduction, signed: bool, w: nat, vHL: seq<nat>)
    requires Vector(w, vHL) && w == 64
    ensures forall i | 0 <= i < 4 :: Reduces(op, signed, w, OfLanes(op, signed, w, vHL)[i], vHL, 1, i)
  {
    var v := Lanewise(op, signed, w, SwapBlocks(vHL), vHL);
    assert |vHL| == 4;
    SwapStage(op, signed, w, vHL, 2);
    Shuffle01Stage(op, signed, w, vHL, v);
  }
}
