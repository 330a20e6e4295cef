/*
 * The ARM SVE target of Highway (hwy/ops/arm_sve-inl.h): predicate (mask)
 * logic, compares and TestBit, the mask <-> vector conversions, saturating
 * DemoteTo, the block-relative index arithmetic behind FirstNPerBlock,
 * InterleaveLower/Upper and Shuffle0123, Compress (the 16-bit overload
 * included) and CompressStore, the StoreMaskBits
 * stub and the AverageRound fallback.
 *
 * The hardware fixes the length of an SVE register: a whole number of
 * 128-bit blocks, at most 2048 bits.  A vector is a sequence of lanes of such
 * a length and a predicate (svbool_t) one boolean per lane.  A lane holds the
 * value of its C type: 0 <= x < 2^w for an unsigned type, -2^(w-1) <= x <
 * 2^(w-1) for a signed one; BitCast reinterprets the two's-complement bits.
 * Almost every op is one predicated intrinsic under the all-true governing
 * predicate PTrue.  The intrinsics are modelled by their architectural
 * definitions; a zeroing (_z) form clears the lanes its governing predicate
 * leaves inactive.
 */
module ArmSve {
  import opened Words
  import opened Lanes
  import LaneBits
  import X86Bits128
  import X86Arith256

  // ---------------------------------------------------------------- registers

  /** 2^w: the number of bit patterns of a w-bit lane. */
  function Limit(w: nat): (r: nat)
    requires LaneWidth(w)
    ensures r == 2 * SignedLimit(w)
  {
    if w == 8 then 0x100 else if w == 16 then 0x1_0000 else if w == 32 then 0x1_0000_0000
    else 0x1_0000_0000_0000_0000
  }

  /** LanesPerBlock: the lanes of w bits in one 128-bit block. */
  function LanesPerBlock(w: nat): (r: nat)
    requires LaneWidth(w)
    ensures r * w == 128
  {
    if w == 8 then 16 else if w == 16 then 8 else if w == 32 then 4 else 2
  }

  /** log2(LanesPerBlock(w)). */
  function BlockBits(w: nat): nat
    requires LaneWidth(w)
  {
    if w == 8 then 4 else if w == 16 then 3 else if w == 32 then 2 else 1
  }

  /** An SVE register of n lanes of w bits: whole 128-bit blocks, at most 2048 bits. */
  predicate Register(w: nat, n: nat)
  {
    LaneWidth(w) && 0 < n && n % LanesPerBlock(w) == 0 && n * w <= 2048
  }

  /** Every lane is a value of the unsigned w-bit type. */
  predicate Unsigned(w: nat, v: seq<int>)
  {
    LaneWidth(w) && forall i | 0 <= i < |v| :: 0 <= v[i] < Limit(w)
  }

  /** Every lane is a value of the signed w-bit type. */
  predicate Signed(w: nat, v: seq<int>)
  {
    LaneWidth(w) && forall i | 0 <= i < |v| :: -SignedLimit(w) <= v[i] < SignedLimit(w)
  }

  /** The w-bit two's-complement pattern of a lane value. */
  function Pattern(w: nat, x: int): nat
    requires LaneWidth(w)
  {
    x % Limit(w)
  }

  /** A w-bit pattern read as a lane of the signed or the unsigned type. */
  function View(signed: bool, w: nat, p: nat): int
    requires LaneWidth(w)
  {
    if signed then CastSigned(w, p) else p
  }

  // ------------------------------------------------- predicate intrinsics

  /** svptrue_b##BITS: every lane active. */
  function PTrue(n: nat): seq<bool>
  {
    Repeat(true, n)
  }

  /** svand_b_z(pg, a, b). */
  function SvAndZ(pg: seq<bool>, a: seq<bool>, b: seq<bool>): seq<bool>
    requires |pg| == |a| == |b|
  {
    seq(|pg|, i requires 0 <= i < |pg| => pg[i] && a[i] && b[i])
  }

  /** svbic_b_z(pg, a, b): a and not b. */
  function SvBicZ(pg: seq<bool>, a: seq<bool>, b: seq<bool>): seq<bool>
    requires |pg| == |a| == |b|
  {
    seq(|pg|, i requires 0 <= i < |pg| => pg[i] && a[i] && !b[i])
  }

  /** svnand_b_z(pg, a, b). */
  function SvNandZ(pg: seq<bool>, a: seq<bool>, b: seq<bool>): seq<bool>
    requires |pg| == |a| == |b|
  {
    seq(|pg|, i requires 0 <= i < |pg| => pg[i] && !(a[i] && b[i]))
  }

  /** svnot_b_z(pg, a). */
  function SvNotZ(pg: seq<bool>, a: seq<bool>): seq<bool>
    requires |pg| == |a|
  {
    seq(|pg|, i requires 0 <= i < |pg| => pg[i] && !a[i])
  }

  /** svsel_b(m, a, b): a where m is set, b elsewhere. */
  function SvSel(m: seq<bool>, a: seq<bool>, b: seq<bool>): seq<bool>
    requires |m| == |a| == |b|
  {
    seq(|m|, i requires 0 <= i < |m| => if m[i] then a[i] else b[i])
  }

  /** svptest_any(pg, m): some lane active in pg is set in m. */
  predicate SvPtestAny(pg: seq<bool>, m: seq<bool>)
    requires |pg| == |m|
  {
    exists i | 0 <= i < |m| :: pg[i] && m[i]
  }

  /** svcntp_b(pg, m): the number of lanes active in pg and set in m. */
  function SvCntp(pg: seq<bool>, m: seq<bool>): nat
    requires |pg| == |m|
  {
    Count(SvAndZ(pg, pg, m))
  }

  // -------------------------------------------------------------- mask logic

  /** Not(d, m) = svnot_b_z(PTrue(d), m). */
  function Not(m: seq<bool>): (r: seq<bool>)
    ensures |r| == |m| && forall i | 0 <= i < |m| :: r[i] == !m[i]
  {
    SvNotZ(PTrue(|m|), m)
  }

  /** And(a, b) = svand_b_z(b, b, a). */
  function And(a: seq<bool>, b: seq<bool>): (r: seq<bool>)
    requires |a| == |b|
    ensures |r| == |a| && forall i | 0 <= i < |a| :: r[i] == (a[i] && b[i])
  {
    SvAndZ(b, b, a)
  }

  /** AndNot(a, b) = svbic_b_z(b, b, a). */
  function AndNot(a: seq<bool>, b: seq<bool>): (r: seq<bool>)
    requires |a| == |b|
    ensures |r| == |a| && forall i | 0 <= i < |a| :: r[i] == (!a[i] && b[i])
  {
    SvBicZ(b, b, a)
  }

  /** Or(a, b) = svsel_b(a, a, b). */
  function Or(a: seq<bool>, b: seq<bool>): (r: seq<bool>)
    requires |a| == |b|
    ensures |r| == |a| && forall i | 0 <= i < |a| :: r[i] == (a[i] || b[i])
  {
    SvSel(a, a, b)
  }

  /** Xor(a, b) = svsel_b(a, svnand_b_z(a, a, b), b). */
  function Xor(a: seq<bool>, b: seq<bool>): (r: seq<bool>)
    requires |a| == |b|
    ensures |r| == |a| && forall i | 0 <= i < |a| :: r[i] == (a[i] != b[i])
  {
    SvSel(a, SvNandZ(a, a, b), b)
  }

  /** AllFalse(m) = !svptest_any(m, m). */
  function AllFalse(m: seq<bool>): (r: bool)
    ensures r <==> forall i | 0 <= i < |m| :: !m[i]
  {
    !SvPtestAny(m, m)
  }

  /** AllTrue(d, m) = AllFalse(Not(d, m)). */
  function AllTrue(m: seq<bool>): (r: bool)
    ensures r <==> forall i | 0 <= i < |m| :: m[i]
  {
    AllFalse(Not(m))
  }

  /** CountTrue(d, m) = svcntp_b(PTrue(d), m). */
  function CountTrue(m: seq<bool>): (r: nat)
    ensures r == Count(m)
  {
    var pg := PTrue(|m|);
    assert SvAndZ(pg, pg, m) == m;
    SvCntp(pg, m)
  }

  /** The lane count decides AllTrue and AllFalse. */
  lemma CountTrueDecides(m: seq<bool>)
    ensures AllTrue(m) <==> CountTrue(m) == |m|
    ensures AllFalse(m) <==> CountTrue(m) == 0
  {
    CountExtremes(m);
  }

  lemma {:induction false} CountExtremes(m: seq<bool>)
    ensures Count(m) == |m| <==> forall i | 0 <= i < |m| :: m[i]
    ensures Count(m) == 0 <==> forall i | 0 <= i < |m| :: !m[i]
  {
    if |m| > 0 {
      CountExtremes(m[1..]);
      assert forall i | 1 <= i < |m| :: m[i] == m[1..][i - 1];
    }
  }

  /** Xor agrees with the two-sided AndNot definition (a & ~b) | (~a & b). */
  lemma XorByAndNot(a: seq<bool>, b: seq<bool>)
    requires |a| == |b|
    ensures Xor(a, b) == Or(AndNot(b, a), AndNot(a, b))
  {
  }

  // ---------------------------------------------------------------- compares

  /** svcmplt under PTrue, on the lane values of the type. */
  function Lt(a: seq<int>, b: seq<int>): (r: seq<bool>)
    requires |a| == |b|
    ensures |r| == |a|
  {
    seq(|a|, i requires 0 <= i < |a| => a[i] < b[i])
  }

  /** svcmpne under PTrue. */
  function Ne(a: seq<int>, b: seq<int>): (r: seq<bool>)
    requires |a| == |b|
    ensures |r| == |a|
  {
    seq(|a|, i requires 0 <= i < |a| => a[i] != b[i])
  }

  /** Gt(a, b) = Lt(b, a). */
  function Gt(a: seq<int>, b: seq<int>): (r: seq<bool>)
    requires |a| == |b|
    ensures |r| == |a| && forall i | 0 <= i < |a| :: r[i] == (a[i] > b[i])
  {
    Lt(b, a)
  }

  /** One lane of TestBit: Ne(And(a, bit), Zero), on the bits of the lane. */
  function TestBitLane(x: LaneBits.Bits, bit: LaneBits.Bits): (r: bool)
    requires |x| == |bit|
    ensures r <==> exists j | 0 <= j < |x| :: x[j] && bit[j]
  {
    var both := LaneBits.And(x, bit);
    var zero := LaneBits.Fill(|x|, false);
    assert (exists j | 0 <= j < |x| :: x[j] && bit[j]) ==> both != zero by {
      if j :| 0 <= j < |x| && x[j] && bit[j] {
        assert both[j] != zero[j];
      }
    }
    both != zero
  }

  /** TestBit(a, bit) = Ne(And(a, bit), Zero): some bit of the lane is set in both. */
  function TestBit(a: seq<LaneBits.Bits>, bit: seq<LaneBits.Bits>): (r: seq<bool>)
    requires |a| == |bit| && forall i | 0 <= i < |a| :: |a[i]| == |bit[i]|
    ensures |r| == |a|
    ensures forall i | 0 <= i < |a| :: r[i] <==> exists j | 0 <= j < |a[i]| :: a[i][j] && bit[i][j]
  {
    seq(|a|, i requires 0 <= i < |a| => TestBitLane(a[i], bit[i]))
  }

  /** For a single set bit, the SVE test agrees with the x86 test (v & bit) == bit. */
  lemma TestBitSingleBit(x: LaneBits.Bits, bit: LaneBits.Bits, k: nat)
    requires |x| == |bit| && k < |bit| && forall j | 0 <= j < |bit| :: bit[j] == (j == k)
    ensures TestBitLane(x, bit) <==> X86Bits128.TestBit(x, bit)
  {
    X86Bits128.TestBitMeans(x, bit);
    if x[k] {
      assert x[k] && bit[k];
    }
  }

  /** With two bits to test, one of them set is enough on SVE but not on x86. */
  lemma TestBitTargetsDiffer()
    ensures TestBitLane([true, false], [true, true])
    ensures !X86Bits128.TestBit([true, false], [true, true])
  {
    var x, bit := [true, false], [true, true];
    X86Bits128.TestBitMeans(x, bit);
    assert x[0] && bit[0];
    assert bit[1] && !x[1];
  }

  // ------------------------------------------------- masks <-> vectors

  /** MaskFromVec(v) = Ne(v, Zero(d)). */
  function MaskFromVec(v: seq<int>): (r: seq<bool>)
    ensures |r| == |v| && forall i | 0 <= i < |v| :: r[i] == (v[i] != 0)
  {
    Ne(v, Repeat(0, |v|))
  }

  /** svsub_n_s##BITS##_z(pg, a, b): a - b wrapped to the signed type where pg is set, 0 elsewhere. */
  function SubNZ(w: nat, pg: seq<bool>, a: seq<int>, b: int): (r: seq<int>)
    requires LaneWidth(w) && |pg| == |a|
    ensures |r| == |a|
  {
    seq(|a|, i requires 0 <= i < |a| => if pg[i] then CastSigned(w, Pattern(w, a[i] - b)) else 0)
  }

  /** BitCast between the signed and unsigned types of one width. */
  function BitCastSame(signed: bool, w: nat, v: seq<int>): (r: seq<int>)
    requires LaneWidth(w)
    ensures |r| == |v|
  {
    seq(|v|, i requires 0 <= i < |v| => View(signed, w, Pattern(w, v[i])))
  }

  /**
   * VecFromMask(d, mask) = BitCast(d, SubN(mask, Zero(di), 1)): all w bits set
   * where the mask is set (-1 signed, 2^w - 1 unsigned), 0 elsewhere.
   */
  function VecFromMask(signed: bool, w: nat, mask: seq<bool>): (r: seq<int>)
    requires LaneWidth(w)
    ensures |r| == |mask|
    ensures forall i | 0 <= i < |mask| :: Pattern(w, r[i]) == if mask[i] then Limit(w) - 1 else 0
    ensures forall i | 0 <= i < |mask| ::
      r[i] == if !mask[i] then 0 else if signed then -1 else Limit(w) - 1
  {
    var d := SubNZ(w, mask, Repeat(0, |mask|), 1);
    AllOnes(w);
    assert forall i | 0 <= i < |mask| :: d[i] == if mask[i] then -1 else 0;
    BitCastSame(signed, w, d)
  }

  /** -1 has all w bits set, and the all-ones pattern reads as -1 in the signed type. */
  lemma AllOnes(w: nat)
    requires LaneWidth(w)
    ensures Pattern(w, -1) == Limit(w) - 1 && Pattern(w, Limit(w) - 1) == Limit(w) - 1
    ensures CastSigned(w, Pattern(w, -1)) == -1 && Pattern(w, 0) == 0 && CastSigned(w, 0) == 0
  {
    Digits.DivModUnique(-1, -1, Limit(w) - 1, Limit(w));
    Digits.DivModUnique(Limit(w) - 1, 0, Limit(w) - 1, Limit(w));
  }

  /** A mask survives the trip through a vector. */
  lemma MaskVecRoundTrip(signed: bool, w: nat, mask: seq<bool>)
    requires LaneWidth(w)
    ensures MaskFromVec(VecFromMask(signed, w, mask)) == mask
  {
  }

  /** A vector whose lanes are all ones or zero survives the trip through a mask. */
  lemma VecMaskRoundTrip(w: nat, v: seq<int>)
    requires LaneWidth(w) && forall i | 0 <= i < |v| :: v[i] == 0 || v[i] == Limit(w) - 1
    ensures VecFromMask(false, w, MaskFromVec(v)) == v
  {
  }

  // ------------------------------------------------------------- DemoteTo

  /** The nearest value of [lo, hi] to x. */
  function Clamp(x: int, lo: int, hi: int): (r: int)
    requires lo <= hi
    ensures lo <= r <= hi
    ensures lo <= x <= hi ==> r == x
    ensures x < lo ==> r == lo
    ensures x > hi ==> r == hi
  {
    if x < lo then lo else if x > hi then hi else x
  }

  /** LimitsMax<TN>() of the signed or unsigned w-bit type. */
  function LimitsMax(signed: bool, w: nat): int
    requires LaneWidth(w)
  {
    if signed then SignedLimit(w) - 1 else Limit(w) - 1
  }

  /** LimitsMin<TN>() of the signed w-bit type. */
  function LimitsMin(w: nat): int
    requires LaneWidth(w)
  {
    -SignedLimit(w)
  }

  /** svmin_n_z(PTrue, v, c). */
  function MinN(v: seq<int>, c: int): (r: seq<int>)
    ensures |r| == |v|
  {
    seq(|v|, i requires 0 <= i < |v| => if v[i] < c then v[i] else c)
  }

  /** svmax_n_z(PTrue, v, c). */
  function MaxN(v: seq<int>, c: int): (r: seq<int>)
    ensures |r| == |v|
  {
    seq(|v|, i requires 0 <= i < |v| => if v[i] > c then v[i] else c)
  }

  /** svmax_z(PTrue, a, b). */
  function Max(a: seq<int>, b: seq<int>): (r: seq<int>)
    requires |a| == |b|
    ensures |r| == |a|
  {
    seq(|a|, i requires 0 <= i < |a| => if a[i] > b[i] then a[i] else b[i])
  }

  /** SaturateU<TN>(v) = MinN(v, LimitsMax<TN>()) on an unsigned wide vector. */
  function SaturateU(wn: nat, v: seq<int>): (r: seq<int>)
    requires LaneWidth(wn) && forall i | 0 <= i < |v| :: 0 <= v[i]
    ensures |r| == |v| && forall i | 0 <= i < |v| :: r[i] == Clamp(v[i], 0, Limit(wn) - 1)
  {
    MinN(v, LimitsMax(false, wn))
  }

  /** SaturateI<TN>(v) = MinN(MaxN(v, LimitsMin<TN>()), LimitsMax<TN>()). */
  function SaturateI(wn: nat, v: seq<int>): (r: seq<int>)
    requires LaneWidth(wn)
    ensures |r| == |v|
    ensures forall i | 0 <= i < |v| :: r[i] == Clamp(v[i], -SignedLimit(wn), SignedLimit(wn) - 1)
  {
    MinN(MaxN(v, LimitsMin(wn)), LimitsMax(true, wn))
  }

  /** The low half of the 2wn-bit pattern of x. */
  function LowHalf(wn: nat, x: int): (r: nat)
    requires wn == 8 || wn == 16
    ensures r < Limit(wn)
  {
    Pattern(2 * wn, x) % Limit(wn)
  }

  /** The high half of the 2wn-bit pattern of x. */
  function HighHalf(wn: nat, x: int): nat
    requires wn == 8 || wn == 16
  {
    Pattern(2 * wn, x) / Limit(wn)
  }

  /** BitCast to lanes of half the width: lane 2j + h is half h of lane j (little endian). */
  function BitCastHalves(signed: bool, wn: nat, v: seq<int>): (r: seq<int>)
    requires wn == 8 || wn == 16
    ensures |r| == 2 * |v|
  {
    seq(2 * |v|, j requires 0 <= j < 2 * |v| =>
      View(signed, wn, if j % 2 == 0 then LowHalf(wn, v[j / 2]) else HighHalf(wn, v[j / 2])))
  }

  /** svuzp1(a, b): the even lanes of a, then the even lanes of b. */
  function Uzp1(a: seq<int>, b: seq<int>): (r: seq<int>)
    requires |a| == |b| && |a| % 2 == 0
    ensures |r| == |a|
    ensures forall i | 0 <= i < |a| / 2 :: r[i] == a[2 * i] && r[|a| / 2 + i] == b[2 * i]
  {
    seq(|a| / 2, i requires 0 <= i < |a| / 2 => a[2 * i])
      + seq(|b| / 2, i requires 0 <= i < |b| / 2 => b[2 * i])
  }

  /** The even lanes of a. */
  function Evens(a: seq<int>): (r: seq<int>)
    ensures |r| == |a| / 2 && forall i | 0 <= i < |a| / 2 :: r[i] == a[2 * i]
  {
    seq(|a| / 2, i requires 0 <= i < |a| / 2 => a[2 * i])
  }

  /** svuzp1(a, a) is the even lanes of a, twice. */
  lemma Uzp1Self(a: seq<int>)
    requires |a| % 2 == 0
    ensures Uzp1(a, a) == Evens(a) + Evens(a)
  {
    var e := Evens(a);
    assert |Uzp1(a, a)| == |e + e|;
    forall i | 0 <= i < |a| ensures Uzp1(a, a)[i] == (e + e)[i] {
      if i >= |a| / 2 {
        assert Uzp1(a, a)[|a| / 2 + (i - |a| / 2)] == a[2 * (i - |a| / 2)];
      }
    }
  }

  /** A value of the narrow type is what the low half of its wide pattern reads as. */
  lemma LowHalfKeeps(signed: bool, wn: nat, x: int)
    requires wn == 8 || wn == 16
    requires if signed then -SignedLimit(wn) <= x < SignedLimit(wn) else 0 <= x < Limit(wn)
    ensures View(signed, wn, LowHalf(wn, x)) == x
  {
    var l := Limit(wn);
    if x < 0 {
      assert Limit(2 * wn) == l * l;
      Digits.DivModUnique(x, -1, x + Limit(2 * wn), Limit(2 * wn));
      Digits.DivModUnique(x + Limit(2 * wn), l - 1, x + l, l);
    } else {
      Digits.DivModUnique(x, 0, x, Limit(2 * wn));
      Digits.DivModUnique(x, 0, x, l);
    }
  }

  /** Narrowing to the low halves of the lanes, then unzipping, keeps every value that fits. */
  lemma NarrowKeeps(signed: bool, wn: nat, v: seq<int>)
    requires wn == 8 || wn == 16
    requires forall i | 0 <= i < |v| ::
      if signed then -SignedLimit(wn) <= v[i] < SignedLimit(wn) else 0 <= v[i] < Limit(wn)
    ensures forall i | 0 <= i < |v| ::
      Uzp1(BitCastHalves(signed, wn, v), BitCastHalves(signed, wn, v))[i] == v[i]
      && Uzp1(BitCastHalves(signed, wn, v), BitCastHalves(signed, wn, v))[|v| + i] == v[i]
  {
    var h := BitCastHalves(signed, wn, v);
    forall i | 0 <= i < |v|
      ensures Uzp1(h, h)[i] == v[i] && Uzp1(h, h)[|v| + i] == v[i]
    {
      assert h[2 * i] == View(signed, wn, LowHalf(wn, v[i]));
      LowHalfKeeps(signed, wn, v[i]);
    }
  }

  /** BitCast(du, Max(Zero(di), v)): negative lanes become 0, the others keep their value. */
  lemma ClampedLanes(w: nat, v: seq<int>)
    requires Signed(w, v)
    ensures forall i | 0 <= i < |v| ::
      BitCastSame(false, w, Max(Repeat(0, |v|), v))[i] == Clamp(v[i], 0, SignedLimit(w) - 1)
  {
    var m := Max(Repeat(0, |v|), v);
    forall i | 0 <= i < |v|
      ensures BitCastSame(false, w, m)[i] == Clamp(v[i], 0, SignedLimit(w) - 1)
    {
      SmallLane(false, w, m[i]);
    }
  }

  /**
   * DemoteTo(u8 from i16) and DemoteTo(u16 from i32): clamp negative lanes to
   * 0, saturate to the narrow maximum, keep the low half of each lane.
   */
  function DemoteToUnsignedHalf(wn: nat, v: seq<int>): (r: seq<int>)
    requires (wn == 8 || wn == 16) && Signed(2 * wn, v)
    ensures |r| == 2 * |v|
    ensures forall i | 0 <= i < |v| :: r[i] == Clamp(v[i], 0, Limit(wn) - 1) == r[|v| + i]
  {
    var clamped := BitCastSame(false, 2 * wn, Max(Repeat(0, |v|), v));
    ClampedLanes(2 * wn, v);
    var s := SaturateU(wn, clamped);
    var vn := BitCastHalves(false, wn, s);
    NarrowKeeps(false, wn, s);
    Uzp1(vn, vn)
  }

  /** DemoteTo(u8 from i32): two narrowing steps, through 16-bit lanes. */
  function DemoteToU8FromI32(v: seq<int>): (r: seq<int>)
    requires Signed(32, v)
    ensures |r| == 4 * |v|
    ensures forall i | 0 <= i < |v| :: r[i] == Clamp(v[i], 0, 0xFF)
  {
    var clamped := BitCastSame(false, 32, Max(Repeat(0, |v|), v));
    ClampedLanes(32, v);
    var s := SaturateU(8, clamped);
    var cast16 := BitCastHalves(false, 16, s);
    NarrowKeeps(false, 16, s);
    var u := Uzp1(cast16, cast16);
    var x2 := BitCastHalves(false, 8, u);
    NarrowKeeps(false, 8, u);
    Uzp1(x2, x2)
  }

  /** U8FromU32: the low byte of each lane, through 16-bit lanes, without saturation. */
  function U8FromU32(v: seq<int>): (r: seq<int>)
    requires Unsigned(32, v)
    ensures |r| == 4 * |v|
    ensures forall i | 0 <= i < |v| :: r[i] == v[i] % 0x100
  {
    var cast16 := BitCastHalves(false, 16, v);
    var x2 := Uzp1(cast16, cast16);
    NarrowLow(16, v);
    var cast8 := BitCastHalves(false, 8, x2);
    NarrowLow(8, x2);
    assert forall i | 0 <= i < |v| :: Uzp1(cast8, cast8)[i] == v[i] % 0x100 by {
      forall i | 0 <= i < |v| ensures Uzp1(cast8, cast8)[i] == v[i] % 0x100 {
        ModOfMod(v[i]);
      }
    }
    Uzp1(cast8, cast8)
  }

  /** Narrowing unsigned lanes, then unzipping, keeps the low half of every lane. */
  lemma NarrowLow(wn: nat, v: seq<int>)
    requires (wn == 8 || wn == 16) && Unsigned(2 * wn, v)
    ensures Unsigned(wn, Uzp1(BitCastHalves(false, wn, v), BitCastHalves(false, wn, v)))
    ensures forall i | 0 <= i < |v| ::
      Uzp1(BitCastHalves(false, wn, v), BitCastHalves(false, wn, v))[i] == v[i] % Limit(wn)
  {
    var h := BitCastHalves(false, wn, v);
    forall i | 0 <= i < |v| ensures Uzp1(h, h)[i] == v[i] % Limit(wn) {
      SmallPattern(2 * wn, v[i]);
    }
    forall i | 0 <= i < |v| ensures 0 <= h[2 * i] < Limit(wn) {
    }
  }

  lemma ModOfMod(x: int)
    ensures x % 0x1_0000 % 0x100 == x % 0x100
  {
    var q := x / 0x1_0000;
    var r := x % 0x1_0000;
    Digits.DivModUnique(x, q * 0x100 + r / 0x100, r % 0x100, 0x100);
  }

  /**
   * svqxtnb_s16 / svqxtnb_s32 (SVE2): every wide lane saturated to the signed
   * narrow type in the even (bottom) narrow lane, the odd (top) lane zero.
   */
  function QxtnB(wn: nat, v: seq<int>): (r: seq<int>)
    requires wn == 8 || wn == 16
    ensures |r| == 2 * |v|
  {
    seq(2 * |v|, k requires 0 <= k < 2 * |v| =>
      if k % 2 == 0 then Clamp(v[k / 2], -SignedLimit(wn), SignedLimit(wn) - 1) else 0)
  }

  /** BitCast to signed lanes of twice the width: lane j joins lanes 2j (low) and 2j + 1 (high). */
  function BitCastPairs(wn: nat, t: seq<int>): (r: seq<int>)
    requires (wn == 8 || wn == 16) && |t| % 2 == 0
    ensures |r| == |t| / 2
  {
    seq(|t| / 2, j requires 0 <= j < |t| / 2 =>
      View(true, 2 * wn, Pattern(wn, t[2 * j]) + Limit(wn) * Pattern(wn, t[2 * j + 1])))
  }

  /**
   * The narrowed vector vn of DemoteTo(i8 from i16) and DemoteTo(i16 from
   * i32): on SVE2 svqxtnb(v), on other targets BitCast(dn, SaturateI<TN>(v)).
   * Either way its even lanes hold the saturated values.
   */
  function NarrowSigned(sve2: bool, wn: nat, v: seq<int>): (vn: seq<int>)
    requires (wn == 8 || wn == 16) && Signed(2 * wn, v)
    ensures |vn| == 2 * |v|
    ensures forall i | 0 <= i < |v| :: vn[2 * i] == Clamp(v[i], -SignedLimit(wn), SignedLimit(wn) - 1)
  {
    if sve2 then
      var q := QxtnB(wn, v);
      assert forall i | 0 <= i < |v| :: q[2 * i] == Clamp(v[i], -SignedLimit(wn), SignedLimit(wn) - 1) by {
        forall i | 0 <= i < |v| ensures q[2 * i] == Clamp(v[i], -SignedLimit(wn), SignedLimit(wn) - 1) {
          QxtnBAt(wn, v, i, 2 * i);
        }
      }
      q
    else
      var s := SaturateI(wn, v);
      var h := BitCastHalves(true, wn, s);
      assert forall i | 0 <= i < |v| :: h[2 * i] == s[i] by {
        forall i | 0 <= i < |v| ensures h[2 * i] == s[i] {
          LowHalfKeeps(true, wn, s[i]);
        }
      }
      h
  }

  /** DemoteTo(i8 from i16) and DemoteTo(i16 from i32): svuzp1(vn, vn) keeps the saturated even lanes. */
  function DemoteToSignedHalf(sve2: bool, wn: nat, v: seq<int>): (r: seq<int>)
    requires (wn == 8 || wn == 16) && Signed(2 * wn, v)
    ensures r == SaturateI(wn, v) + SaturateI(wn, v)
    ensures |r| == 2 * |v| && forall i | 0 <= i < |v| ::
      r[i] == Clamp(v[i], -SignedLimit(wn), SignedLimit(wn) - 1) == r[|v| + i]
  {
    var vn := NarrowSigned(sve2, wn, v);
    assert Uzp1(vn, vn) == SaturateI(wn, v) + SaturateI(wn, v);
    Uzp1(vn, vn)
  }

  /** A narrow lane with a zero partner, cast wide, narrowed again and read signed, is itself. */
  lemma PairRoundTrip(c: int)
    requires -0x80 <= c < 0x80
    ensures View(true, 8, LowHalf(8, View(true, 16, Pattern(8, c) + Limit(8) * Pattern(8, 0)))) == c
  {
    var p := Pattern(8, c);
    SmallPattern(8, 0);
    assert View(true, 16, p + Limit(8) * Pattern(8, 0)) == p;
    SmallPattern(16, p);
    SmallPattern(8, p);
  }

  /** The svqxtnb lanes of wide lane j, at the even narrow index k = 2j. */
  lemma QxtnBAt(wn: nat, v: seq<int>, j: nat, k: nat)
    requires (wn == 8 || wn == 16) && j < |v| && k == 2 * j
    ensures QxtnB(wn, v)[k] == Clamp(v[j], -SignedLimit(wn), SignedLimit(wn) - 1)
    ensures QxtnB(wn, v)[k + 1] == 0
  {
  }

  /** svqxtnb_s16(svqxtnb_s32(v)): byte 4i is the int8 clamp of lane i and byte 4i + 1 is zero. */
  lemma Sve2Quarter(v: seq<int>, i: nat)
    requires i < |v|
    ensures |QxtnB(8, QxtnB(16, v))| == 4 * |v|
    ensures QxtnB(8, QxtnB(16, v))[4 * i] == Clamp(v[i], -0x80, 0x7F)
    ensures QxtnB(8, QxtnB(16, v))[4 * i + 1] == 0
  {
    var q := QxtnB(16, v);
    QxtnBAt(16, v, i, 2 * i);
    QxtnBAt(8, q, 2 * i, 4 * i);
    ClampTwice(v[i]);
  }

  /** Saturating to int16 and then to int8 is saturating to int8. */
  lemma ClampTwice(x: int)
    ensures Clamp(Clamp(x, -0x8000, 0x7FFF), -0x80, 0x7F) == Clamp(x, -0x80, 0x7F)
  {
  }

  /** Lane j of BitCastPairs joins the narrow lanes k = 2j and k + 1. */
  lemma BitCastPairsAt(wn: nat, t: seq<int>, j: nat, k: nat)
    requires (wn == 8 || wn == 16) && |t| % 2 == 0 && j < |t| / 2 && k == 2 * j
    ensures BitCastPairs(wn, t)[j] == View(true, 2 * wn, Pattern(wn, t[k]) + Limit(wn) * Pattern(wn, t[k + 1]))
  {
  }

  /** Lane i of svqxtnb_s16(svqxtnb_s32(v)) cast to 16 bits has the int8 clamp of v[i] as its low byte. */
  lemma Sve2Byte(v: seq<int>, i: nat)
    requires i < |v|
    ensures |QxtnB(8, QxtnB(16, v))| == 4 * |v|
    ensures View(true, 8, LowHalf(8, BitCastPairs(8, QxtnB(8, QxtnB(16, v)))[2 * i])) == Clamp(v[i], -0x80, 0x7F)
  {
    Sve2Quarter(v, i);
    ByteOfPair(QxtnB(8, QxtnB(16, v)), i);
  }

  /** An int8 byte 4i with a zero byte 4i + 1, cast to 16 bits and narrowed again, is itself. */
  lemma ByteOfPair(t: seq<int>, i: nat)
    requires |t| % 4 == 0 && 4 * i < |t| && -0x80 <= t[4 * i] < 0x80 && t[4 * i + 1] == 0
    ensures View(true, 8, LowHalf(8, BitCastPairs(8, t)[2 * i])) == t[4 * i]
  {
    BitCastPairsAt(8, t, 2 * i, 4 * i);
    PairRoundTrip(t[4 * i]);
  }

  /** svqxtnb_s16(svqxtnb_s32(v)) cast to 16-bit lanes: each even lane's low byte is the int8 clamp. */
  lemma Sve2Bytes(v: seq<int>)
    ensures |QxtnB(8, QxtnB(16, v))| == 4 * |v|
    ensures forall i | 0 <= i < |v| ::
      View(true, 8, LowHalf(8, BitCastPairs(8, QxtnB(8, QxtnB(16, v)))[2 * i])) == Clamp(v[i], -0x80, 0x7F)
  {
    forall i | 0 <= i < |v|
      ensures View(true, 8, LowHalf(8, BitCastPairs(8, QxtnB(8, QxtnB(16, v)))[2 * i])) == Clamp(v[i], -0x80, 0x7F)
    {
      Sve2Byte(v, i);
    }
  }

  /** SaturateI<int8_t>(v) cast to 16-bit lanes: each even lane's low byte is the int8 clamp. */
  lemma SaturatedBytes(v: seq<int>)
    requires Signed(32, v)
    ensures forall i | 0 <= i < |v| ::
      View(true, 8, LowHalf(8, BitCastHalves(true, 16, SaturateI(8, v))[2 * i])) == Clamp(v[i], -0x80, 0x7F)
  {
    var s := SaturateI(8, v);
    var h := BitCastHalves(true, 16, s);
    forall i | 0 <= i < |v|
      ensures View(true, 8, LowHalf(8, h[2 * i])) == Clamp(v[i], -0x80, 0x7F)
    {
      LowHalfKeeps(true, 16, s[i]);
      LowHalfKeeps(true, 8, s[i]);
    }
  }

  /** The low bytes of the even 16-bit lanes of c, read as int8. */
  function EvenLowBytes(c: seq<int>): (q: seq<int>)
    ensures |q| == |c| / 2
  {
    seq(|c| / 2, i requires 0 <= i < |c| / 2 => View(true, 8, LowHalf(8, c[2 * i])))
  }

  /** Even byte lane k = 2j of BitCastHalves is the low half of lane j. */
  lemma BitCastHalvesAt(signed: bool, wn: nat, v: seq<int>, j: nat, k: nat)
    requires (wn == 8 || wn == 16) && j < |v| && k == 2 * j
    ensures BitCastHalves(signed, wn, v)[k] == View(signed, wn, LowHalf(wn, v[j]))
  {
  }

  /** The even bytes of svuzp1_s16(c, c) cast to bytes: the low bytes of the even lanes of c, twice. */
  lemma EvenBytesTwice(c: seq<int>)
    requires |c| % 2 == 0
    ensures Evens(BitCastHalves(true, 8, Uzp1(c, c))) == EvenLowBytes(c) + EvenLowBytes(c)
  {
    var n := |c| / 2;
    var q := EvenLowBytes(c);
    var u := Uzp1(c, c);
    var v2 := BitCastHalves(true, 8, u);
    var e := Evens(v2);
    forall i | 0 <= i < n ensures e[i] == q[i] && e[n + i] == q[i] {
      BitCastHalvesAt(true, 8, u, i, 2 * i);
      BitCastHalvesAt(true, 8, u, n + i, 2 * (n + i));
      assert u[i] == c[2 * i] == u[n + i];
    }
    assert e == q + q;
  }

  /**
   * svuzp1_s16(c, c), cast to bytes, then svuzp1_s8: the low bytes of the
   * even 16-bit lanes, repeated four times.
   */
  function NarrowBytes(c: seq<int>): (r: seq<int>)
    requires |c| % 2 == 0
    ensures r == EvenLowBytes(c) + EvenLowBytes(c) + EvenLowBytes(c) + EvenLowBytes(c)
  {
    var v2 := BitCastHalves(true, 8, Uzp1(c, c));
    EvenBytesTwice(c);
    Uzp1Self(v2);
    Uzp1(v2, v2)
  }

  /**
   * The 16-bit vector cast16 of DemoteTo(i8 from i32): on SVE2
   * svqxtnb_s16(svqxtnb_s32(v)), on other targets SaturateI<int8_t>(v), cast
   * to 16-bit lanes.  Either way the low byte of even lane 2i is the int8
   * clamp of lane i.
   */
  function Cast16(sve2: bool, v: seq<int>): (c: seq<int>)
    requires Signed(32, v)
    ensures |c| == 2 * |v|
    ensures EvenLowBytes(c) == SaturateI(8, v)
  {
    var c := if sve2 then BitCastPairs(8, QxtnB(8, QxtnB(16, v))) else BitCastHalves(true, 16, SaturateI(8, v));
    assert forall i | 0 <= i < |v| :: EvenLowBytes(c)[i] == Clamp(v[i], -0x80, 0x7F) by {
      if sve2 { Sve2Bytes(v); } else { SaturatedBytes(v); }
    }
    c
  }

  /** DemoteTo(i8 from i32): cast16 narrowed twice by svuzp1. */
  function DemoteToI8FromI32(sve2: bool, v: seq<int>): (r: seq<int>)
    requires Signed(32, v)
    ensures r == SaturateI(8, v) + SaturateI(8, v) + SaturateI(8, v) + SaturateI(8, v)
    ensures |r| == 4 * |v| && forall i | 0 <= i < |v| :: r[i] == Clamp(v[i], -0x80, 0x7F)
  {
    NarrowBytes(Cast16(sve2, v))
  }

  /** The SVE2 and the other targets' signed DemoteTo give the same vector. */
  lemma DemoteTargetsAgree(wn: nat, v: seq<int>, w: seq<int>)
    requires (wn == 8 || wn == 16) && Signed(2 * wn, v) && Signed(32, w)
    ensures DemoteToSignedHalf(true, wn, v) == DemoteToSignedHalf(false, wn, v)
    ensures DemoteToI8FromI32(true, w) == DemoteToI8FromI32(false, w)
  {
  }

  // ------------------------------------------- block-relative indices

  /** The lane count of a bit width as a power of two. */
  lemma LimitPow2(w: nat)
    requires LaneWidth(w)
    ensures Limit(w) == Pow2(w)
    ensures LanesPerBlock(w) == Pow2(BlockBits(w)) && BlockBits(w) <= w
  {
    Pow2Widths();
  }

  lemma Pow2Widths()
    ensures Pow2(1) == 2 && Pow2(2) == 4 && Pow2(3) == 8 && Pow2(4) == 16 && Pow2(8) == 0x100
    ensures Pow2(16) == 0x1_0000 && Pow2(32) == 0x1_0000_0000
    ensures Pow2(64) == 0x1_0000_0000_0000_0000
  {
    assert Pow2(4) == 16;
    Pow2Add(4, 4);
    assert Pow2(8) == 0x100;
    Pow2Add(8, 8);
    assert Pow2(16) == 0x1_0000;
    Pow2Add(16, 16);
    assert Pow2(32) == 0x1_0000_0000;
    Pow2Add(32, 32);
  }

  /** svand_n_z(PTrue, v, c) on w-bit patterns. */
  function AndN(w: nat, v: seq<int>, c: nat): (r: seq<int>)
    requires Unsigned(w, v)
    ensures |r| == |v|
  {
    seq(|v|, i requires 0 <= i < |v| => BitAnd(v[i], c, w))
  }

  /** AndNotN(c, v) = svbic_n_z(PTrue, v, c): v & ~c on w-bit patterns. */
  function AndNotN(w: nat, c: nat, v: seq<int>): (r: seq<int>)
    requires Unsigned(w, v) && c < Limit(w)
    ensures |r| == |v|
  {
    seq(|v|, i requires 0 <= i < |v| => BitAnd(v[i], Limit(w) - 1 - c, w))
  }

  /** sveor_n_z(PTrue, v, c) on w-bit patterns. */
  function XorN(w: nat, v: seq<int>, c: nat): (r: seq<int>)
    requires Unsigned(w, v)
    ensures |r| == |v|
  {
    seq(|v|, i requires 0 <= i < |v| => BitXor(v[i], c, w))
  }

  /** x & (LanesPerBlock - 1) is the position of x within its block. */
  lemma AndBlockMask(w: nat, x: nat)
    requires LaneWidth(w) && x < Limit(w)
    ensures BitAnd(x, LanesPerBlock(w) - 1, w) == x % LanesPerBlock(w)
    ensures BitAnd(x, 1, w) == x % 2
  {
    LimitPow2(w);
    AndLowOnes(x, BlockBits(w), w);
    AndLowOnes(x, 1, w);
  }

  /** OffsetsOf128BitBlocks(d, iota0) = AndNotN(LanesPerBlock - 1, iota0): the start of each lane's block. */
  function OffsetsOf128BitBlocks(w: nat, iota0: seq<int>): (r: seq<int>)
    requires Unsigned(w, iota0)
    ensures |r| == |iota0|
    ensures forall i | 0 <= i < |iota0| :: r[i] == iota0[i] - iota0[i] % LanesPerBlock(w)
  {
    LimitPow2(w);
    assert forall i | 0 <= i < |iota0| ::
      BitAnd(iota0[i], Limit(w) - 1 - (LanesPerBlock(w) - 1), w) == iota0[i] - iota0[i] % LanesPerBlock(w)
    by {
      forall i | 0 <= i < |iota0|
        ensures BitAnd(iota0[i], Limit(w) - 1 - (LanesPerBlock(w) - 1), w)
          == iota0[i] - iota0[i] % LanesPerBlock(w)
      {
        AndClearLow(iota0[i], BlockBits(w), w);
      }
    }
    AndNotN(w, LanesPerBlock(w) - 1, iota0)
  }

  /** Iota(di, 0) of a register: lane i holds i, which fits the lane. */
  function IotaLanes(w: nat, n: nat): (r: seq<int>)
    requires Register(w, n)
    ensures |r| == n && Unsigned(w, r) && forall i | 0 <= i < n :: r[i] == i
  {
    assert n <= Limit(w);
    Iota(n)
  }

  /** A lane of Iota(d, 0) & (LanesPerBlock - 1) is the position of the lane in its block. */
  lemma BlockPositions(w: nat, n: nat)
    requires Register(w, n)
    ensures forall i | 0 <= i < n ::
      AndN(w, IotaLanes(w, n), LanesPerBlock(w) - 1)[i] == i % LanesPerBlock(w)
    ensures forall i | 0 <= i < n :: i - i % LanesPerBlock(w) + LanesPerBlock(w) <= n
  {
    forall i | 0 <= i < n
      ensures AndN(w, IotaLanes(w, n), LanesPerBlock(w) - 1)[i] == i % LanesPerBlock(w)
      ensures i - i % LanesPerBlock(w) + LanesPerBlock(w) <= n
    {
      AndBlockMask(w, i);
      BlockInside(w, n, i);
    }
  }

  /** A value of the unsigned type is its own pattern. */
  lemma SmallPattern(w: nat, x: int)
    requires LaneWidth(w) && 0 <= x < Limit(w)
    ensures Pattern(w, x) == x
  {
    Digits.DivModUnique(x, 0, x, Limit(w));
  }

  /** A small non-negative value has the same bits in every reading. */
  lemma SmallLane(signed: bool, w: nat, x: int)
    requires LaneWidth(w) && 0 <= x < SignedLimit(w)
    ensures View(signed, w, Pattern(w, x)) == x
  {
    Digits.DivModUnique(x, 0, x, Limit(w));
  }

  /**
   * FirstNPerBlock<kLanes>(d): the first kLanes lanes of every block.  kLanes
   * is compared in the signed lane type, so it is read as CastSigned.
   */
  function FirstNPerBlock(w: nat, n: nat, kLanes: nat): (r: seq<bool>)
    requires Register(w, n)
    ensures |r| == n
    ensures forall i | 0 <= i < n :: r[i] == (i % LanesPerBlock(w) < CastSigned(w, kLanes))
    ensures kLanes < SignedLimit(w) ==>
      forall i | 0 <= i < n :: r[i] == (i % LanesPerBlock(w) < kLanes)
  {
    var iota := IotaLanes(w, n);
    var idxMod := AndN(w, iota, LanesPerBlock(w) - 1);
    var cast := BitCastSame(true, w, idxMod);
    BlockPositions(w, n);
    assert forall i | 0 <= i < n :: cast[i] == i % LanesPerBlock(w) by {
      forall i | 0 <= i < n ensures cast[i] == i % LanesPerBlock(w) {
        SmallLane(true, w, i % LanesPerBlock(w));
      }
    }
    Lt(cast, Repeat(CastSigned(w, kLanes), n))
  }

  /** svadd_z(PTrue, a, b): lane-wise sum, wrapping mod 2^w. */
  function Add(w: nat, a: seq<int>, b: seq<int>): (r: seq<int>)
    requires LaneWidth(w) && |a| == |b|
    ensures |r| == |a|
  {
    seq(|a|, i requires 0 <= i < |a| => (a[i] + b[i]) % Limit(w))
  }

  /** ShiftRight<1>: the lanes here are non-negative, where arithmetic and logical shifts agree. */
  function ShiftRight1(v: seq<int>): (r: seq<int>)
    ensures |r| == |v|
  {
    seq(|v|, i requires 0 <= i < |v| => v[i] / 2)
  }

  /** svtbl(v, idx): lane idx[i] of v, or 0 for an index past the end. */
  function TableLookupLanes(v: seq<int>, idx: seq<int>): (r: seq<int>)
    ensures |r| == |idx|
  {
    seq(|idx|, i requires 0 <= i < |idx| => if 0 <= idx[i] < |v| then v[idx[i]] else 0)
  }

  /** svsel(mask, yes, no) on vectors. */
  function IfThenElse(mask: seq<bool>, yes: seq<int>, no: seq<int>): (r: seq<int>)
    requires |mask| == |yes| == |no|
    ensures |r| == |mask|
  {
    seq(|mask|, i requires 0 <= i < |mask| => if mask[i] then yes[i] else no[i])
  }

  /** The block of lane i lies inside the register. */
  lemma BlockInside(w: nat, n: nat, i: nat)
    requires Register(w, n) && i < n
    ensures i - i % LanesPerBlock(w) + LanesPerBlock(w) <= n
  {
    var l := LanesPerBlock(w);
    Digits.DivModUnique(i, i / l, i % l, l);
    Digits.DivModUnique(n, n / l, 0, l);
    Digits.MulAtLeast(n / l - i / l, l);
  }

  /** svadd without a carry out of the lane is exact. */
  lemma AddNoWrap(w: nat, a: seq<int>, b: seq<int>)
    requires LaneWidth(w) && |a| == |b|
    requires forall i | 0 <= i < |a| :: 0 <= a[i] + b[i] < Limit(w)
    ensures forall i | 0 <= i < |a| :: Add(w, a, b)[i] == a[i] + b[i]
  {
    forall i | 0 <= i < |a| ensures Add(w, a, b)[i] == a[i] + b[i] {
      Digits.DivModUnique(a[i] + b[i], 0, a[i] + b[i], Limit(w));
    }
  }

  /** Half a position in a block plus at most half a block stays in the block. */
  lemma HalfPosition(w: nat, p: int, up: nat)
    requires LaneWidth(w) && 0 <= p < LanesPerBlock(w) && up <= LanesPerBlock(w) / 2
    ensures up + p / 2 < LanesPerBlock(w)
  {
  }

  /** The lane an interleave reads for output lane i: lane up + (i mod L) / 2 of the
      128-bit block holding lane i, with L lanes per block. It lies inside the register. */
  function InterleaveSource(w: nat, n: nat, i: nat, up: nat): (k: nat)
    requires Register(w, n) && i < n && up <= LanesPerBlock(w) / 2
    ensures k < n
  {
    var l := LanesPerBlock(w);
    BlockInside(w, n, i);
    HalfPosition(w, i % l, up);
    i - i % l + up + (i % l) / 2
  }

  /** The index vector shared by InterleaveLower and InterleaveUpper, offset by up lanes. */
  function InterleaveIndices(w: nat, n: nat, up: nat): (r: seq<int>)
    requires Register(w, n) && up <= LanesPerBlock(w) / 2
    ensures |r| == n
    ensures forall i | 0 <= i < n :: r[i] == InterleaveSource(w, n, i, up)
  {
    var l := LanesPerBlock(w);
    var iota := IotaLanes(w, n);
    var idxMod := ShiftRight1(AndN(w, iota, l - 1));
    var offsets := OffsetsOf128BitBlocks(w, iota);
    BlockPositions(w, n);
    assert n <= Limit(w);
    assert forall i | 0 <= i < n :: idxMod[i] + offsets[i] + up == InterleaveSource(w, n, i, up) by {
      forall i | 0 <= i < n ensures idxMod[i] + offsets[i] + up == InterleaveSource(w, n, i, up) {
        assert idxMod[i] == (i % l) / 2 && offsets[i] == i - i % l;
      }
    }
    AddNoWrap(w, idxMod, offsets);
    var idxLower := Add(w, idxMod, offsets);
    AddNoWrap(w, idxLower, Repeat(up, n));
    Add(w, idxLower, Repeat(up, n))
  }

  /** The lanes of even index, as the mask Eq(AndN(i, 1), Zero). */
  function EvenLanes(w: nat, n: nat): (r: seq<bool>)
    requires Register(w, n)
    ensures |r| == n && forall i | 0 <= i < n :: r[i] == (i % 2 == 0)
  {
    var bit := AndN(w, IotaLanes(w, n), 1);
    assert forall i | 0 <= i < n :: bit[i] == i % 2 by {
      forall i | 0 <= i < n ensures bit[i] == i % 2 {
        AndBlockMask(w, i);
      }
    }
    seq(n, i requires 0 <= i < n => bit[i] == 0)
  }

  /** Choosing between two table lookups with one index vector. */
  lemma SelectLookups(mask: seq<bool>, a: seq<int>, b: seq<int>, idx: seq<int>)
    requires |mask| == |idx| == |a| == |b| && forall i | 0 <= i < |idx| :: 0 <= idx[i] < |a|
    ensures forall i | 0 <= i < |idx| ::
      IfThenElse(mask, TableLookupLanes(a, idx), TableLookupLanes(b, idx))[i]
      == (if mask[i] then a else b)[idx[i]]
  {
  }

  /** InterleaveLower(a, b): within each block, the lower halves of a and b, alternating. */
  function InterleaveLower(w: nat, a: seq<int>, b: seq<int>): (r: seq<int>)
    requires Register(w, |a|) && |a| == |b|
    ensures |r| == |a|
    ensures forall i | 0 <= i < |a| :: r[i] == (if i % 2 == 0 then a else b)[InterleaveSource(w, |a|, i, 0)]
  {
    var idx := InterleaveIndices(w, |a|, 0);
    var even := EvenLanes(w, |a|);
    SelectLookups(even, a, b, idx);
    IfThenElse(even, TableLookupLanes(a, idx), TableLookupLanes(b, idx))
  }

  /** InterleaveUpper(a, b): within each block, the upper halves of a and b, alternating. */
  function InterleaveUpper(w: nat, a: seq<int>, b: seq<int>): (r: seq<int>)
    requires Register(w, |a|) && |a| == |b|
    ensures |r| == |a|
    ensures forall i | 0 <= i < |a| ::
      r[i] == (if i % 2 == 0 then a else b)[InterleaveSource(w, |a|, i, LanesPerBlock(w) / 2)]
  {
    var idx := InterleaveIndices(w, |a|, LanesPerBlock(w) / 2);
    var even := EvenLanes(w, |a|);
    SelectLookups(even, a, b, idx);
    IfThenElse(even, TableLookupLanes(a, idx), TableLookupLanes(b, idx))
  }

  /** With two 64-bit lanes per block, lanes 0..3 of four read up, up, 2 + up, 2 + up. */
  lemma FourLaneSources(n: nat, up: nat)
    requires n == 4 && up <= 1
    ensures InterleaveSource(64, n, 0, up) == up && InterleaveSource(64, n, 1, up) == up
    ensures InterleaveSource(64, n, 2, up) == 2 + up && InterleaveSource(64, n, 3, up) == 2 + up
  {
    assert LanesPerBlock(64) == 2;
  }

  /** On four 64-bit lanes (two blocks), an interleave reads a[up], b[up], a[2 + up], b[2 + up]. */
  lemma InterleaveFourLanes(r: seq<int>, a: seq<int>, b: seq<int>, up: nat)
    requires |a| == |b| == 4 && up <= 1 && |r| == 4
    requires forall i | 0 <= i < 4 :: r[i] == (if i % 2 == 0 then a else b)[InterleaveSource(64, |a|, i, up)]
    ensures r == [a[up], b[up], a[2 + up], b[2 + up]]
  {
    FourLaneSources(|a|, up);
    assert r[0] == a[up] && r[1] == b[up] && r[2] == a[2 + up] && r[3] == b[2 + up];
  }

  /** On a 256-bit register of 64-bit lanes, InterleaveLower/Upper are the AVX2 unpacklo/unpackhi. */
  lemma InterleaveLowerMatchesAvx2(a: seq<u64>, b: seq<u64>)
    requires |a| == |b| == 4
    ensures InterleaveLower(64, a, b) == X86Arith256.InterleaveLower64(a, b)
  {
    var r := InterleaveLower(64, a, b);
    InterleaveFourLanes(r, a, b, 0);
  }

  /** The same for InterleaveUpper and unpackhi. */
  lemma InterleaveUpperMatchesAvx2(a: seq<u64>, b: seq<u64>)
    requires |a| == |b| == 4
    ensures InterleaveUpper(64, a, b) == X86Arith256.InterleaveUpper64(a, b)
  {
    assert LanesPerBlock(64) / 2 == 1;
    var r := InterleaveUpper(64, a, b);
    InterleaveFourLanes(r, a, b, 1);
  }

  /** Shuffle0123(v) = TableLookupLanes(v, XorN(Iota(di, 0), 3)) on 32-bit lanes. */
  function Shuffle0123(v: seq<int>): (r: seq<int>)
    requires Register(32, |v|)
    ensures |r| == |v|
    ensures forall i | 0 <= i < |v| :: r[i] == v[i - i % 4 + (3 - i % 4)]
  {
    var iota := IotaLanes(32, |v|);
    var idx := XorN(32, iota, 3);
    assert forall i | 0 <= i < |v| :: idx[i] == i - i % 4 + (3 - i % 4) < |v| by {
      forall i | 0 <= i < |v| ensures idx[i] == i - i % 4 + (3 - i % 4) < |v| {
        LimitPow2(32);
        XorThree(i, 32);
        BlockInside(32, |v|, i);
      }
    }
    TableLookupLanes(v, idx)
  }

  /** The mirror of the mirror of a position in a group of four is the position. */
  lemma ReverseTwice(i: nat)
    ensures var j := i - i % 4 + (3 - i % 4); 0 <= j && j - j % 4 + (3 - j % 4) == i
  {
    var j := i - i % 4 + (3 - i % 4);
    Digits.DivModUnique(j, i / 4, 3 - i % 4, 4);
  }

  /** Reversing each group of four lanes twice restores the vector. */
  lemma Shuffle0123Involution(v: seq<int>)
    requires Register(32, |v|)
    ensures Shuffle0123(Shuffle0123(v)) == v
  {
    var s := Shuffle0123(v);
    forall i | 0 <= i < |v| ensures Shuffle0123(s)[i] == v[i] {
      var j := i - i % 4 + (3 - i % 4);
      ReverseTwice(i);
      BlockInside(32, |v|, i);
      assert Shuffle0123(s)[i] == s[j];
      assert s[j] == v[j - j % 4 + (3 - j % 4)];
    }
  }

  // ------------------------------------------------------------- memory

  /** svwhilelt_b##BITS##_u32(0, N): lanes below N. */
  function FirstN(n: nat, count: u32): (r: seq<bool>)
    ensures |r| == n && forall i | 0 <= i < n :: r[i] == (i < count)
  {
    seq(n, i requires 0 <= i < n => i < count)
  }

  /** HWY_LANES(T) on SVE: the lanes of the largest register, 2048 bits. */
  function MaxLanes(w: nat): nat
    requires LaneWidth(w)
  {
    2048 / w
  }

  /** detail::Mask(d): FirstN(d, N) for a capped descriptor, PTrue for a full one. */
  function Mask(w: nat, n: nat, cap: u32): (r: seq<bool>)
    requires Register(w, n)
    ensures |r| == n && forall i | 0 <= i < n :: r[i] == (i < cap)
  {
    if cap != MaxLanes(w) then FirstN(n, cap) else PTrue(n)
  }

  /** svcompact(mask, v): the selected lanes moved to the front in order, zeros after. */
  function Compress(v: seq<int>, mask: seq<bool>): (r: seq<int>)
    requires |v| == |mask|
    ensures |r| == |v| && r[..Count(mask)] == Compressed(v, mask)
    ensures forall i | Count(mask) <= i < |v| :: r[i] == 0
  {
    CompressedLength(v, mask);
    Compressed(v, mask) + Repeat(0, |v| - Count(mask))
  }

  /** Every lane is a value of the signed or the unsigned 16-bit type. */
  predicate Lanes16(signed: bool, v: seq<int>)
  {
    if signed then Signed(16, v) else Unsigned(16, v)
  }

  /** svtrn1(a, b) (detail::InterleaveEven): lane 2i is a[2i], lane 2i + 1 is b[2i]. */
  function Trn1(a: seq<int>, b: seq<int>): (r: seq<int>)
    requires |a| == |b| && |a| % 2 == 0
    ensures |r| == |a|
  {
    seq(|a|, i requires 0 <= i < |a| => if i % 2 == 0 then a[i] else b[i - 1])
  }

  /**
   * detail::Splice(hi, lo, FirstN(d, k)) = svsplice(FirstN(d, k), lo, hi): the
   * active segment of lo, here its first k lanes, then the lowest lanes of hi.
   */
  function SpliceFirst(hi: seq<int>, lo: seq<int>, k: nat): (r: seq<int>)
    requires |hi| == |lo| && k <= |lo|
    ensures |r| == |lo|
  {
    lo[..k] + hi[..|hi| - k]
  }

  /**
   * One half of the 16-bit Compress: the lower (or upper) half of v promoted
   * to 32-bit lanes (svunpklo / svunpkhi), compacted under the same half of
   * the mask (svunpklo_b / svunpkhi_b), and cast back to 16-bit lanes.
   */
  function EvenHalf(signed: bool, v: seq<int>, mask: seq<bool>, upper: bool): (r: seq<int>)
    requires |v| == |mask| && |v| % 2 == 0
    ensures |r| == |v|
  {
    var h := |v| / 2;
    if upper then BitCastHalves(signed, 16, Compress(v[h..], mask[h..]))
    else BitCastHalves(signed, 16, Compress(v[..h], mask[..h]))
  }

  /**
   * Compress for 16-bit lanes as written: each half is narrowed by
   * detail::InterleaveEven(even, even), then the halves are spliced after
   * CountTrue of the lower half of the mask.
   */
  function Compress16AsWritten(signed: bool, v: seq<int>, mask: seq<bool>): (r: seq<int>)
    requires |v| == |mask| && |v| % 2 == 0
    ensures |r| == |v|
  {
    var evenL := EvenHalf(signed, v, mask, false);
    var evenH := EvenHalf(signed, v, mask, true);
    SpliceFirst(Trn1(evenH, evenH), Trn1(evenL, evenL), CountTrue(mask[..|v| / 2]))
  }

  /**
   * Compress for 16-bit lanes with each half narrowed by svuzp1(even, even)
   * (ConcatEven), which packs the low halves of the compacted 32-bit lanes:
   * the selected lanes come first, in order.
   */
  function Compress16(signed: bool, v: seq<int>, mask: seq<bool>): (r: seq<int>)
    requires |v| == |mask| && |v| % 2 == 0 && Lanes16(signed, v)
    ensures |r| == |v| && r[..Count(mask)] == Compressed(v, mask)
  {
    var evenL := EvenHalf(signed, v, mask, false);
    var evenH := EvenHalf(signed, v, mask, true);
    Compress16Packs(signed, v, mask);
    SpliceFirst(Uzp1(evenH, evenH), Uzp1(evenL, evenL), CountTrue(mask[..|v| / 2]))
  }

  /**
   * Compress(v, mask) on SVE: svcompact for 32- and 64-bit lanes, the
   * promote, compact and splice overload for 16-bit lanes.
   */
  function CompressLanes(w: nat, signed: bool, v: seq<int>, mask: seq<bool>): (r: seq<int>)
    requires (w == 16 || w == 32 || w == 64) && Register(w, |v|) && |v| == |mask|
    requires w == 16 ==> Lanes16(signed, v)
    ensures |r| == |v| && r[..Count(mask)] == Compressed(v, mask)
  {
    assert |v| % 2 == 0 by { BlockMultiple(w, |v|); }
    if w == 16 then Compress16(signed, v, mask) else Compress(v, mask)
  }

  /** Whole 128-bit blocks hold an even number of lanes of 16 bits or more. */
  lemma BlockMultiple(w: nat, n: nat)
    requires (w == 16 || w == 32 || w == 64) && Register(w, n)
    ensures n % 2 == 0
  {
    var l := LanesPerBlock(w);
    assert n == l * (n / l);
    assert l == 2 * (l / 2);
    assert n == 2 * ((l / 2) * (n / l));
  }

  /** svcompact keeps lanes of the 16-bit type inside it (it adds only zeros). */
  lemma CompressFits(signed: bool, xs: seq<int>, sel: seq<bool>)
    requires |xs| == |sel| && Lanes16(signed, xs)
    ensures Lanes16(signed, Compress(xs, sel))
  {
    var c := Compress(xs, sel);
    CompressedLength(xs, sel);
    forall k | 0 <= k < |c|
      ensures if signed then -SignedLimit(16) <= c[k] < SignedLimit(16) else 0 <= c[k] < Limit(16)
    {
      if k < Count(sel) {
        var j := RankCovers(sel, k);
        CompressedAt(xs, sel, j);
        assert c[k] == Compressed(xs, sel)[k];
      }
    }
  }

  /** For lanes of the 16-bit type, the even 16-bit halves of the 32-bit lanes are the lanes. */
  lemma EvensOfCast(signed: bool, c: seq<int>)
    requires Lanes16(signed, c)
    ensures Evens(BitCastHalves(signed, 16, c)) == c
  {
    var e := Evens(BitCastHalves(signed, 16, c));
    forall i | 0 <= i < |c| ensures e[i] == c[i] {
      LowHalfKeeps(signed, 16, c[i]);
    }
  }

  /** One half of the mask, narrowed by svuzp1: the compacted half, twice. */
  lemma PackedHalf(signed: bool, xs: seq<int>, sel: seq<bool>)
    requires |xs| == |sel| && Lanes16(signed, xs)
    ensures Uzp1(BitCastHalves(signed, 16, Compress(xs, sel)), BitCastHalves(signed, 16, Compress(xs, sel)))
      == Compress(xs, sel) + Compress(xs, sel)
  {
    CompressFits(signed, xs, sel);
    EvensOfCast(signed, Compress(xs, sel));
    Uzp1Self(BitCastHalves(signed, 16, Compress(xs, sel)));
  }

  /** Splicing two doubled halves after k lanes of the lower one takes its first k lanes, then the upper one. */
  lemma SpliceDoubled(cL: seq<int>, cH: seq<int>, kL: nat, kH: nat)
    requires |cL| == |cH| && kL <= |cL| && kH <= |cH|
    ensures SpliceFirst(cH + cH, cL + cL, kL)[..kL + kH] == cL[..kL] + cH[..kH]
  {
    var r := SpliceFirst(cH + cH, cL + cL, kL);
    assert (cL + cL)[..kL] == cL[..kL];
    assert (cH + cH)[..|cH + cH| - kL][..kH] == cH[..kH];
  }

  /** Each half of v, narrowed by svuzp1 after the compact: the compacted half, twice. */
  lemma EvenHalfPacked(signed: bool, v: seq<int>, mask: seq<bool>, upper: bool)
    requires |v| == |mask| && |v| % 2 == 0 && Lanes16(signed, v)
    ensures var h := |v| / 2;
      var c := if upper then Compress(v[h..], mask[h..]) else Compress(v[..h], mask[..h]);
      Uzp1(EvenHalf(signed, v, mask, upper), EvenHalf(signed, v, mask, upper)) == c + c
  {
    var h := |v| / 2;
    if upper {
      assert Lanes16(signed, v[h..]);
      PackedHalf(signed, v[h..], mask[h..]);
    } else {
      assert Lanes16(signed, v[..h]);
      PackedHalf(signed, v[..h], mask[..h]);
    }
  }

  /** The svuzp1 narrowing, spliced after the lower count, puts the selected lanes first. */
  lemma Compress16Packs(signed: bool, v: seq<int>, mask: seq<bool>)
    requires |v| == |mask| && |v| % 2 == 0 && Lanes16(signed, v)
    ensures var h := |v| / 2;
      var evenL := EvenHalf(signed, v, mask, false);
      var evenH := EvenHalf(signed, v, mask, true);
      SpliceFirst(Uzp1(evenH, evenH), Uzp1(evenL, evenL), CountTrue(mask[..h]))[..Count(mask)]
        == Compressed(v, mask)
  {
    var h := |v| / 2;
    var evenL := EvenHalf(signed, v, mask, false);
    var evenH := EvenHalf(signed, v, mask, true);
    EvenHalfPacked(signed, v, mask, false);
    EvenHalfPacked(signed, v, mask, true);
    SplicePacked(Uzp1(evenH, evenH), Uzp1(evenL, evenL), v, mask, h);
  }

  /**
   * With lo and hi the compacted lower and upper halves, each twice, the
   * splice after the lower count starts with the selected lanes.
   */
  lemma SplicePacked(hi: seq<int>, lo: seq<int>, v: seq<int>, mask: seq<bool>, h: nat)
    requires |v| == |mask| == 2 * h
    requires lo == Compress(v[..h], mask[..h]) + Compress(v[..h], mask[..h])
    requires hi == Compress(v[h..], mask[h..]) + Compress(v[h..], mask[h..])
    ensures Count(mask[..h]) <= |lo| == |hi|
    ensures SpliceFirst(hi, lo, Count(mask[..h]))[..Count(mask)] == Compressed(v, mask)
  {
    var cL, cH := Compress(v[..h], mask[..h]), Compress(v[h..], mask[h..]);
    var kL, kH := Count(mask[..h]), Count(mask[h..]);
    CompressedSplit(v, mask, h);
    SpliceDoubled(cL, cH, kL, kH);
  }

  /** Compressing a vector is compressing its two halves, one after the other. */
  lemma CompressedSplit(v: seq<int>, mask: seq<bool>, h: nat)
    requires |v| == |mask| && h <= |v|
    ensures Compressed(v, mask) == Compressed(v[..h], mask[..h]) + Compressed(v[h..], mask[h..])
    ensures Count(mask) == Count(mask[..h]) + Count(mask[h..])
  {
    assert v == v[..h] + v[h..] && mask == mask[..h] + mask[h..];
    CountAppend(mask[..h], mask[h..]);
    CompressedAppend(v[..h], v[h..], mask[..h], mask[h..]);
  }

  /** As written, lane i below the lower half's count is compacted lane i / 2: each selected lane twice. */
  lemma Compress16AsWrittenDoubles(signed: bool, v: seq<int>, mask: seq<bool>, i: nat)
    requires |v| == |mask| && |v| % 2 == 0 && Lanes16(signed, v)
    requires i < Count(mask[..|v| / 2])
    ensures i / 2 < |Compressed(v[..|v| / 2], mask[..|v| / 2])|
    ensures Compress16AsWritten(signed, v, mask)[i] == Compressed(v[..|v| / 2], mask[..|v| / 2])[i / 2]
  {
    var h := |v| / 2;
    var vl, ml := v[..h], mask[..h];
    var c := Compress(vl, ml);
    var k := i / 2;
    assert Lanes16(signed, vl);
    CompressedLength(vl, ml);
    CompressFits(signed, vl, ml);
    var evenL := EvenHalf(signed, v, mask, false);
    assert evenL == BitCastHalves(signed, 16, c);
    SpliceLow(Trn1(EvenHalf(signed, v, mask, true), EvenHalf(signed, v, mask, true)),
      Trn1(evenL, evenL), CountTrue(ml), i);
    Trn1Self(evenL, i);
    BitCastHalvesAt(signed, 16, c, k, 2 * k);
    LowHalfKeeps(signed, 16, c[k]);
    assert c[k] == c[..Count(ml)][k];
  }

  /** Below k, the splice takes the lanes of lo. */
  lemma SpliceLow(hi: seq<int>, lo: seq<int>, k: nat, i: nat)
    requires |hi| == |lo| && i < k <= |lo|
    ensures SpliceFirst(hi, lo, k)[i] == lo[i]
  {
  }

  /** svtrn1(a, a) repeats each even lane of a. */
  lemma Trn1Self(a: seq<int>, i: nat)
    requires |a| % 2 == 0 && i < |a|
    ensures Trn1(a, a)[i] == a[2 * (i / 2)]
  {
  }

  /**
   * Eight u16 lanes [10, 20, 0, ...] with lanes 0 and 1 selected: as written
   * the result starts 10, 10, where the compressed lanes are 10, 20.
   */
  lemma Compress16AsWrittenCounterexample()
    ensures Compress16AsWritten(false, [10, 20, 0, 0, 0, 0, 0, 0],
      [true, true, false, false, false, false, false, false])[..2] == [10, 10]
    ensures Compressed([10, 20, 0, 0, 0, 0, 0, 0],
      [true, true, false, false, false, false, false, false]) == [10, 20]
  {
    AsWrittenExample();
    CompressedExample();
  }

  /** The as-written lanes 0 and 1 of the example: lane 10, twice. */
  lemma AsWrittenExample()
    ensures Compress16AsWritten(false, [10, 20, 0, 0, 0, 0, 0, 0],
      [true, true, false, false, false, false, false, false])[..2] == [10, 10]
  {
    var v: seq<int> := [10, 20, 0, 0, 0, 0, 0, 0];
    var mask := [true, true, false, false, false, false, false, false];
    LowerHalfExample();
    assert v[..|v| / 2] == [10, 20, 0, 0] && mask[..|v| / 2] == [true, true, false, false];
    var r := Compress16AsWritten(false, v, mask);
    Compress16AsWrittenDoubles(false, v, mask, 0);
    Compress16AsWrittenDoubles(false, v, mask, 1);
    assert r[..2] == [r[0], r[1]];
  }

  /** The selected lanes of the example are 10 and 20. */
  lemma CompressedExample()
    ensures Compressed([10, 20, 0, 0, 0, 0, 0, 0],
      [true, true, false, false, false, false, false, false]) == [10, 20]
  {
    var v: seq<int> := [10, 20, 0, 0, 0, 0, 0, 0];
    var mask := [true, true, false, false, false, false, false, false];
    LowerHalfExample();
    assert v[..4] == [10, 20, 0, 0] && mask[..4] == [true, true, false, false];
    assert v[4..] == [0, 0, 0, 0] && mask[4..] == Repeat(false, 4);
    CompressedNone(v[4..], 4);
    CompressedSplit(v, mask, 4);
  }

  /** The lower half of that example: lanes 10 and 20 selected out of four. */
  lemma LowerHalfExample()
    ensures Compressed([10, 20, 0, 0], [true, true, false, false]) == [10, 20]
    ensures Count([true, true, false, false]) == 2
  {
    var low: seq<int> := [10, 20, 0, 0];
    var lowMask := [true, true, false, false];
    assert lowMask[1..][1..] == Repeat(false, 2);
    assert low[1..][1..] == [0, 0];
    CompressedNone(low[1..][1..], 2);
  }

  /** Store(v, d, p) = svst1(Mask(d), p, v): the lanes below N, leaving the rest of p. */
  method Store(w: nat, v: seq<int>, cap: u32, p: array<int>)
    requires Register(w, |v|) && (if cap < |v| then cap else |v|) <= p.Length
    modifies p
    ensures var k := if cap < |v| then cap else |v|;
      p[..k] == v[..k] && p[k..] == old(p[k..])
  {
    var m := Mask(w, |v|, cap);
    forall i | 0 <= i < |v| && m[i] {
      p[i] := v[i];
    }
  }

  /**
   * CompressStore(v, mask, d, aligned) = Store(Compress(v, mask), d, aligned)
   * and returns CountTrue(d, mask), for 16-, 32- and 64-bit lanes.
   */
  method CompressStore(w: nat, signed: bool, v: seq<int>, mask: seq<bool>, cap: u32, aligned: array<int>)
    returns (count: nat)
    requires (w == 16 || w == 32 || w == 64) && Register(w, |v|) && |mask| == |v|
    requires w == 16 ==> Lanes16(signed, v)
    requires (if cap < |v| then cap else |v|) <= aligned.Length
    modifies aligned
    ensures count == Count(mask) == |Compressed(v, mask)|
    ensures var k := if cap < |v| then cap else |v|;
      aligned[..k] == CompressLanes(w, signed, v, mask)[..k] && aligned[k..] == old(aligned[k..])
  {
    Store(w, CompressLanes(w, signed, v, mask), cap, aligned);
    count := CountTrue(mask);
    CompressedLength(v, mask);
  }

  /**
   * StoreMaskBits(d, m, p): not implemented on SVE.  It writes nothing through
   * p and returns the bytes one bit per byte lane of d would take.
   */
  method StoreMaskBits(byteLanes: nat, m: seq<bool>, p: array<int>) returns (numBytes: nat)
    ensures numBytes * 8 >= byteLanes && (numBytes == 0 || (numBytes - 1) * 8 < byteLanes)
  {
    numBytes := (byteLanes + 8 - 1) / 8;
  }

  // ---------------------------------------------------------- AverageRound

  /** AverageRound without SVE2: ShiftRight<1>(Add(Add(a, b), Set(d, 1))), whose sums wrap. */
  function AverageRoundAsWritten(w: nat, a: seq<int>, b: seq<int>): (r: seq<int>)
    requires (w == 8 || w == 16) && Unsigned(w, a) && Unsigned(w, b) && |a| == |b|
    ensures |r| == |a|
    ensures forall i | 0 <= i < |a| && a[i] + b[i] + 1 < Limit(w) :: r[i] == (a[i] + b[i] + 1) / 2
    ensures forall i | 0 <= i < |a| && a[i] + b[i] + 1 >= Limit(w) ::
      r[i] == (a[i] + b[i] + 1 - Limit(w)) / 2
  {
    var m := Limit(w);
    var sum := Add(w, a, b);
    var r := ShiftRight1(Add(w, sum, Repeat(1, |a|)));
    assert forall i | 0 <= i < |a| :: r[i] == AverageLaneAsWritten(m, a[i], b[i]) by {
      forall i | 0 <= i < |a| ensures r[i] == AverageLaneAsWritten(m, a[i], b[i]) {
        assert sum[i] == (a[i] + b[i]) % m;
      }
    }
    r
  }

  /** One lane of AverageRoundAsWritten: two wrapping adds, then a shift by one. */
  function AverageLaneAsWritten(m: nat, x: int, y: int): (r: int)
    requires 2 <= m && 0 <= x < m && 0 <= y < m
    ensures x + y + 1 < m ==> r == (x + y + 1) / 2
    ensures x + y + 1 >= m ==> r == (x + y + 1 - m) / 2
  {
    WrapOnce(m, x + y);
    var s := (x + y) % m;
    WrapOnce(m, s + 1);
    WrapOnce(m, x + y + 1);
    assert (s + 1) % m == (x + y + 1) % m;
    ((s + 1) % m) / 2
  }

  /** A sum below twice the modulus wraps at most once. */
  lemma WrapOnce(m: nat, x: int)
    requires 1 <= m && 0 <= x < 2 * m
    ensures x % m == if x < m then x else x - m
  {
    if x < m {
      Digits.DivModUnique(x, 0, x, m);
    } else {
      Digits.DivModUnique(x, 1, x - m, m);
    }
  }

  /** Two full u8 lanes average to 127 instead of 255. */
  lemma AverageRoundWraps()
    ensures AverageRoundAsWritten(8, [0xFF], [0xFF]) == [0x7F]
    ensures (0xFF + 0xFF + 1) / 2 == 0xFF
  {
    var r := AverageRoundAsWritten(8, [0xFF], [0xFF]);
    assert r[0] == 0x7F;
  }

  /**
   * AverageRound with each operand halved before the add, so that no sum
   * leaves the lane: (a >> 1) + (b >> 1) + (((a & 1) + (b & 1) + 1) >> 1).
   */
  function AverageRound(w: nat, a: seq<int>, b: seq<int>): (r: seq<int>)
    requires (w == 8 || w == 16) && Unsigned(w, a) && Unsigned(w, b) && |a| == |b|
    ensures |r| == |a| && Unsigned(w, r)
    ensures forall i | 0 <= i < |a| :: r[i] == (a[i] + b[i] + 1) / 2
  {
    var m := Limit(w);
    assert m == 0x100 || m == 0x1_0000;
    seq(|a|, i requires 0 <= i < |a| => AverageLane(m, a[i], b[i]))
  }

  /** One lane of the rounding average: the halves, plus the carry of the low bits,
      summed with wrapping adds (mod m) that never wrap. */
  function AverageLane(m: nat, x: int, y: int): (r: int)
    requires 2 <= m && m % 2 == 0 && 0 <= x < m && 0 <= y < m
    ensures r == (x + y + 1) / 2 && 0 <= r < m
  {
    var h := x / 2 + y / 2;
    var carry := (x % 2 + y % 2 + 1) / 2;
    assert x == 2 * (x / 2) + x % 2 && y == 2 * (y / 2) + y % 2;
    assert x + y + 1 == 2 * (h + carry) + (x % 2 + y % 2 + 1) % 2;
    Digits.DivModUnique(x + y + 1, h + carry, (x % 2 + y % 2 + 1) % 2, 2);
    assert h + carry < m;
    Digits.DivModUnique(h, 0, h, m);
    Digits.DivModUnique(h + carry, 0, h + carry, m);
    (h % m + carry) % m
  }
}
