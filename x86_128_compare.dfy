/*
 * Comparisons, unsigned Min/Max and FirstN of the Highway x86 128-bit ops
 * (hwy/ops/x86_128-inl.h), one function per #if HWY_TARGET branch.
 *
 * A register is a sequence of lane values; a register holding comparison
 * results (Mask128: every lane all ones or all zeros) is a sequence of
 * booleans, one per lane of the width it was computed at.  pand/por/pshufd
 * applied to such a register are then lane-wise and/or/select.
 */
module X86Compare128 {
  import opened Words
  import opened Targets

  // ----------------------------------------------- instructions on 32-bit lanes

  /** BitCast of the two 64-bit lanes of a register to four 32-bit lanes, lower half first. */
  function Halves(v: seq<u64>): (r: seq<u32>)
    requires |v| == 2
    ensures |r| == 4
  {
    [Lo(v[0]), Hi(v[0]), Lo(v[1]), Hi(v[1])]
  }

  /** pcmpeqd */
  function CmpEq32(a: seq<u32>, b: seq<u32>): (r: seq<bool>)
    requires |a| == |b|
    ensures |r| == |a|
  {
    seq(|a|, i requires 0 <= i < |a| => a[i] == b[i])
  }

  /** pcmpgtd: signed greater-than. */
  function CmpGt32(a: seq<u32>, b: seq<u32>): (r: seq<bool>)
    requires |a| == |b|
    ensures |r| == |a|
  {
    seq(|a|, i requires 0 <= i < |a| => Signed32(a[i]) > Signed32(b[i]))
  }

  /** pand and por of two mask registers. */
  function AndMask(a: seq<bool>, b: seq<bool>): (r: seq<bool>)
    requires |a| == |b|
    ensures |r| == |a|
  {
    seq(|a|, i requires 0 <= i < |a| => a[i] && b[i])
  }

  function OrMask(a: seq<bool>, b: seq<bool>): (r: seq<bool>)
    requires |a| == |b|
    ensures |r| == |a|
  {
    seq(|a|, i requires 0 <= i < |a| => a[i] || b[i])
  }

  /**
   * pshufd with the immediate _MM_SHUFFLE(s3, s2, s1, s0) on a mask register
   * of 32-bit lanes: lane k of every 128-bit block takes lane s_k of it.
   */
  function Shuffle32<T>(m: seq<T>, s3: nat, s2: nat, s1: nat, s0: nat): (r: seq<T>)
    requires |m| % 4 == 0 && s3 < 4 && s2 < 4 && s1 < 4 && s0 < 4
    ensures |r| == |m|
  {
    seq(|m|, i requires 0 <= i < |m| =>
      var k := i % 4;
      m[i - k + (if k == 0 then s0 else if k == 1 then s1 else if k == 2 then s2 else s3)])
  }

  /** Both 32-bit halves of every 64-bit lane hold the same mask bit. */
  predicate PairedMask(m: seq<bool>)
  {
    |m| % 2 == 0 && forall i | 0 <= i < |m| / 2 :: m[2 * i] == m[2 * i + 1]
  }

  /**
   * BitCast of a 32-bit mask register to 64-bit lanes.  The result is a
   * 64-bit mask only when both halves of every lane agree, which the callers
   * must establish.
   */
  function PairMask(m: seq<bool>): (r: seq<bool>)
    requires PairedMask(m)
    ensures |r| == |m| / 2
    ensures forall i | 0 <= i < |r| :: r[i] == m[2 * i]
  {
    seq(|m| / 2, i requires 0 <= i < |m| / 2 => m[2 * i + 1])
  }

  // ----------------------------------------------- instructions on 64-bit lanes

  /** pcmpeqq (SSE4.1) */
  function CmpEq64(a: seq<u64>, b: seq<u64>): (r: seq<bool>)
    requires |a| == |b|
    ensures |r| == |a|
  {
    seq(|a|, i requires 0 <= i < |a| => a[i] == b[i])
  }

  /** pcmpgtq (SSE4.2): signed greater-than. */
  function CmpGt64(a: seq<u64>, b: seq<u64>): (r: seq<bool>)
    requires |a| == |b|
    ensures |r| == |a|
  {
    seq(|a|, i requires 0 <= i < |a| => Signed64(a[i]) > Signed64(b[i]))
  }

  /**
   * IfThenElse on a mask: both branches in the source (the SSSE3
   * Or(And(mask, yes), AndNot(mask, no)) and pblendvb) select whole lanes
   * when every mask lane is all ones or all zeros, which
   * X86Bits128.IfThenElseSelects proves on the bits.
   */
  function IfThenElse<T>(mask: seq<bool>, yes: seq<T>, no: seq<T>): (r: seq<T>)
    requires |mask| == |yes| == |no|
    ensures |r| == |mask|
    ensures forall i | 0 <= i < |r| :: r[i] == (if mask[i] then yes[i] else no[i])
  {
    seq(|mask|, i requires 0 <= i < |mask| => if mask[i] then yes[i] else no[i])
  }

  // ------------------------------------------------------------- u64 / i64 ==

  /** operator== on u64 lanes (and on i64 lanes, which reuse it). */
  function EqU64(t: Target, a: seq<u64>, b: seq<u64>): (r: seq<bool>)
    requires |a| == |b| == 2
    ensures |r| == 2
  {
    if t == SSSE3 then Ssse3Eq(Halves(a), Halves(b)) else CmpEq64(a, b)
  }

  /**
   * The SSSE3 sequence on the 32-bit views: pcmpeqd, then an AND with the
   * same result with the halves of each 64-bit lane swapped (Shuffle2301).
   */
  function Ssse3Eq(a32: seq<u32>, b32: seq<u32>): (r: seq<bool>)
    requires |a32| == |b32| == 4
    ensures |r| == 2
    ensures r[0] == (a32[0] == b32[0] && a32[1] == b32[1])
    ensures r[1] == (a32[2] == b32[2] && a32[3] == b32[3])
  {
    var cmp32 := CmpEq32(a32, b32);
    var cmp64 := AndMask(cmp32, Shuffle32(cmp32, 2, 3, 0, 1));
    assert cmp64[0] == cmp64[1] && cmp64[2] == cmp64[3];
    assert PairedMask(cmp64) by {
      forall i | 0 <= i < |cmp64| / 2 ensures cmp64[2 * i] == cmp64[2 * i + 1] {
        assert i == 0 || i == 1;
      }
    }
    PairMask(cmp64)
  }

  /** Every target: a lane is true exactly when both lanes are equal. */
  lemma EqU64Lanes(t: Target, a: seq<u64>, b: seq<u64>)
    requires |a| == |b| == 2
    ensures EqU64(t, a, b)[0] <==> a[0] == b[0]
    ensures EqU64(t, a, b)[1] <==> a[1] == b[1]
  {
    EqualHalves(a[0], b[0]);
    EqualHalves(a[1], b[1]);
  }

  // ------------------------------------------------------------------ i64 >

  /**
   * operator> on i64 lanes exactly as written: on SSSE3 the upper halves
   * are compared with pcmpgtd, and where they are equal the lower halves are
   * compared with the same signed pcmpgtd.
   */
  function GtI64AsWritten(t: Target, a: seq<u64>, b: seq<u64>): (r: seq<bool>)
    requires |a| == |b| == 2
    ensures |r| == 2
  {
    if t == SSSE3 then
      Ssse3Gt(Halves(a), Halves(b))
    else
      CmpGt64(a, b)
  }

  /**
   * The SSSE3 sequence on the 32-bit views of both operands (one 128-bit
   * register: lanes 0, 1 are the halves of i64 lane 0, lanes 2, 3 of lane 1).
   */
  function Ssse3Gt(a32: seq<u32>, b32: seq<u32>): (r: seq<bool>)
    requires |a32| == |b32| == 4
    ensures |r| == 2
    ensures r[0] == (Signed32(a32[1]) > Signed32(b32[1]) || (a32[1] == b32[1] && Signed32(a32[0]) > Signed32(b32[0])))
    ensures r[1] == (Signed32(a32[3]) > Signed32(b32[3]) || (a32[3] == b32[3] && Signed32(a32[2]) > Signed32(b32[2])))
  {
    var m_gt := CmpGt32(a32, b32);
    var m_eq := CmpEq32(a32, b32);
    var lo_in_hi := Shuffle32(m_gt, 2, 2, 0, 0);
    var lo_gt := AndMask(m_eq, lo_in_hi);
    var gt := OrMask(lo_gt, m_gt);
    var res := Shuffle32(gt, 3, 3, 1, 1);
    assert res[0] == res[1] == gt[1] && res[2] == res[3] == gt[3];
    assert PairedMask(res) by {
      forall i | 0 <= i < |res| / 2 ensures res[2 * i] == res[2 * i + 1] {
        assert i == 0 || i == 1;
      }
    }
    PairMask(res)
  }

  /**
   * The SSSE3 operator> as written, lane by lane: a signed compare of the
   * upper halves when they differ, and otherwise a signed compare of the
   * lower halves.
   */
  predicate Ssse3GtLane(x: u64, y: u64)
  {
    if Hi(x) != Hi(y) then Signed32(Hi(x)) > Signed32(Hi(y)) else Signed32(Lo(x)) > Signed32(Lo(y))
  }

  lemma GtI64Ssse3Decides(a: seq<u64>, b: seq<u64>)
    requires |a| == |b| == 2
    ensures GtI64AsWritten(SSSE3, a, b)[0] == Ssse3GtLane(a[0], b[0])
    ensures GtI64AsWritten(SSSE3, a, b)[1] == Ssse3GtLane(a[1], b[1])
  {
  }

  /**
   * That lane test agrees with the true signed 64-bit order exactly when the
   * upper halves differ or the lower halves have the same bit 31.
   */
  lemma Ssse3GtLaneAgrees(x: u64, y: u64)
    ensures (Ssse3GtLane(x, y) == (Signed64(x) > Signed64(y))) <==>
      (Hi(x) != Hi(y) || (Lo(x) < 0x8000_0000 <==> Lo(y) < 0x8000_0000))
  {
    Signed64Halves(x, y);
  }

  /** On the other targets operator> as written is the signed 64-bit order. */
  lemma GtI64AsWrittenOtherTargets(t: Target, a: seq<u64>, b: seq<u64>)
    requires |a| == |b| == 2 && t != SSSE3
    ensures GtI64AsWritten(t, a, b)[0] == (Signed64(a[0]) > Signed64(b[0]))
    ensures GtI64AsWritten(t, a, b)[1] == (Signed64(a[1]) > Signed64(b[1]))
  {
  }

  /** An input on which the SSSE3 operator> as written is wrong: 2^31 > 0 yet the lane is false. */
  lemma GtI64AsWrittenCounterexample()
    ensures Signed64(0x8000_0000) > Signed64(0)
    ensures !GtI64AsWritten(SSSE3, [0x8000_0000, 0], [0, 0])[0]
  {
    assert Lo(0x8000_0000) == 0x8000_0000 && Hi(0x8000_0000) == 0;
  }

  /**
   * operator> with the lower halves compared as unsigned numbers: toggling
   * their bit 31 first (an XOR of each lane with 0x8000_0000) makes the
   * signed pcmpgtd decide the unsigned order there, as pcmpgtq does.
   */
  function GtI64(t: Target, a: seq<u64>, b: seq<u64>): (r: seq<bool>)
    requires |a| == |b| == 2
    ensures |r| == 2
  {
    if t == SSSE3 then
      Ssse3Gt(FlipLow(Halves(a)), FlipLow(Halves(b)))
    else
      CmpGt64(a, b)
  }

  /** XOR of every 64-bit lane with 0x0000_0000_8000_0000, on the 32-bit view. */
  function FlipLow(v: seq<u32>): (r: seq<u32>)
    ensures |r| == |v|
    ensures forall k | 0 <= k < |v| :: r[k] == (if k % 2 == 0 then FlipTop32(v[k]) else v[k])
  {
    seq(|v|, k requires 0 <= k < |v| => if k % 2 == 0 then FlipTop32(v[k]) else v[k])
  }

  /** Every target: a lane is true exactly when a > b as signed 64-bit numbers. */
  lemma GtI64Lanes(t: Target, a: seq<u64>, b: seq<u64>)
    requires |a| == |b| == 2
    ensures GtI64(t, a, b)[0] <==> Signed64(a[0]) > Signed64(b[0])
    ensures GtI64(t, a, b)[1] <==> Signed64(a[1]) > Signed64(b[1])
  {
    Signed64Halves(a[0], b[0]);
    Signed64Halves(a[1], b[1]);
    FlipTopOrder32(Lo(a[0]), Lo(b[0]));
    FlipTopOrder32(Lo(a[1]), Lo(b[1]));
  }

  /** operator< on i64 lanes is operator> with the operands swapped. */
  function LtI64(t: Target, a: seq<u64>, b: seq<u64>): (r: seq<bool>)
    requires |a| == |b| == 2
    ensures |r| == 2
    ensures r[0] == (Signed64(a[0]) < Signed64(b[0]))
    ensures r[1] == (Signed64(a[1]) < Signed64(b[1]))
  {
    GtI64Lanes(t, b, a);
    GtI64(t, b, a)
  }

  // -------------------------------------------------------------- Min, Max

  /** detail::MinU on u16 lanes (used on SSSE3): flip the top bits, compare signed, pick. */
  function MinU16(a: seq<u16>, b: seq<u16>): (r: seq<u16>)
    requires |a| == |b|
    ensures |r| == |a|
  {
    var gt := seq(|a|, i requires 0 <= i < |a| => Signed16(FlipTop16(a[i])) > Signed16(FlipTop16(b[i])));
    IfThenElse(gt, b, a)
  }

  function MaxU16(a: seq<u16>, b: seq<u16>): (r: seq<u16>)
    requires |a| == |b|
    ensures |r| == |a|
  {
    var gt := seq(|a|, i requires 0 <= i < |a| => Signed16(FlipTop16(a[i])) > Signed16(FlipTop16(b[i])));
    IfThenElse(gt, a, b)
  }

  function MinU32(a: seq<u32>, b: seq<u32>): (r: seq<u32>)
    requires |a| == |b|
    ensures |r| == |a|
  {
    var gt := CmpGt32(seq(|a|, i requires 0 <= i < |a| => FlipTop32(a[i])),
                      seq(|b|, i requires 0 <= i < |b| => FlipTop32(b[i])));
    IfThenElse(gt, b, a)
  }

  function MaxU32(a: seq<u32>, b: seq<u32>): (r: seq<u32>)
    requires |a| == |b|
    ensures |r| == |a|
  {
    var gt := CmpGt32(seq(|a|, i requires 0 <= i < |a| => FlipTop32(a[i])),
                      seq(|b|, i requires 0 <= i < |b| => FlipTop32(b[i])));
    IfThenElse(gt, a, b)
  }

  /** detail::MinU on u64 lanes, over the corrected i64 operator>. */
  function MinU64(t: Target, a: seq<u64>, b: seq<u64>): (r: seq<u64>)
    requires |a| == |b| == 2
    ensures |r| == 2
  {
    IfThenElse(GtI64(t, FlipTops(a), FlipTops(b)), b, a)
  }

  function MaxU64(t: Target, a: seq<u64>, b: seq<u64>): (r: seq<u64>)
    requires |a| == |b| == 2
    ensures |r| == 2
  {
    IfThenElse(GtI64(t, FlipTops(a), FlipTops(b)), a, b)
  }

  /** detail::MinU on u64 lanes exactly as written, over the SSSE3 operator> as written. */
  function MinU64AsWritten(t: Target, a: seq<u64>, b: seq<u64>): (r: seq<u64>)
    requires |a| == |b| == 2
    ensures |r| == 2
  {
    IfThenElse(GtI64AsWritten(t, FlipTops(a), FlipTops(b)), b, a)
  }

  /** a ^ msb on every 64-bit lane. */
  function FlipTops(v: seq<u64>): (r: seq<u64>)
    ensures |r| == |v| && forall i | 0 <= i < |v| :: r[i] == FlipTop64(v[i])
  {
    seq(|v|, i requires 0 <= i < |v| => FlipTop64(v[i]))
  }

  /** On SSSE3, Min(u64) as written returns 2^31 as the minimum of 2^31 and 0. */
  lemma MinU64AsWrittenCounterexample()
    ensures MinU64AsWritten(SSSE3, [0x8000_0000, 0], [0, 0])[0] == 0x8000_0000
  {
    var fa := FlipTops([0x8000_0000, 0]);
    var fb := FlipTops([0, 0]);
    assert fa[0] == 0x8000_0000_8000_0000 && fb[0] == 0x8000_0000_0000_0000;
    assert Lo(fa[0]) == 0x8000_0000 && Hi(fa[0]) == 0x8000_0000;
    assert Lo(fb[0]) == 0 && Hi(fb[0]) == 0x8000_0000;
  }

  /** Min and Max of u16, u32 and u64 lanes on every target. */
  function Min16(t: Target, a: seq<u16>, b: seq<u16>): (r: seq<u16>)
    requires |a| == |b|
    ensures |r| == |a|
  {
    if t == SSSE3 then MinU16(a, b)
    else seq(|a|, i requires 0 <= i < |a| => if a[i] <= b[i] then a[i] else b[i])  // pminuw
  }

  function Max16(t: Target, a: seq<u16>, b: seq<u16>): (r: seq<u16>)
    requires |a| == |b|
    ensures |r| == |a|
  {
    if t == SSSE3 then MaxU16(a, b)
    else seq(|a|, i requires 0 <= i < |a| => if a[i] >= b[i] then a[i] else b[i])  // pmaxuw
  }

  function Min32(t: Target, a: seq<u32>, b: seq<u32>): (r: seq<u32>)
    requires |a| == |b|
    ensures |r| == |a|
  {
    if t == SSSE3 then MinU32(a, b)
    else seq(|a|, i requires 0 <= i < |a| => if a[i] <= b[i] then a[i] else b[i])  // pminud
  }

  function Max32(t: Target, a: seq<u32>, b: seq<u32>): (r: seq<u32>)
    requires |a| == |b|
    ensures |r| == |a|
  {
    if t == SSSE3 then MaxU32(a, b)
    else seq(|a|, i requires 0 <= i < |a| => if a[i] >= b[i] then a[i] else b[i])  // pmaxud
  }

  function Min64(t: Target, a: seq<u64>, b: seq<u64>): (r: seq<u64>)
    requires |a| == |b| == 2
    ensures |r| == 2
  {
    if t == AVX3 then seq(2, i requires 0 <= i < 2 => if a[i] <= b[i] then a[i] else b[i])  // vpminuq
    else MinU64(t, a, b)
  }

  function Max64(t: Target, a: seq<u64>, b: seq<u64>): (r: seq<u64>)
    requires |a| == |b| == 2
    ensures |r| == 2
  {
    if t == AVX3 then seq(2, i requires 0 <= i < 2 => if a[i] >= b[i] then a[i] else b[i])  // vpmaxuq
    else MaxU64(t, a, b)
  }

  /** The lane-wise unsigned minimum and maximum, on every target. */
  lemma MinMax16Lanes(t: Target, a: seq<u16>, b: seq<u16>)
    requires |a| == |b|
    ensures forall i | 0 <= i < |a| :: Min16(t, a, b)[i] == (if a[i] <= b[i] then a[i] else b[i])
    ensures forall i | 0 <= i < |a| :: Max16(t, a, b)[i] == (if a[i] >= b[i] then a[i] else b[i])
  {
    forall i | 0 <= i < |a| ensures Signed16(FlipTop16(a[i])) > Signed16(FlipTop16(b[i])) <==> a[i] > b[i] {
      FlipTopOrder16(a[i], b[i]);
    }
  }

  lemma MinMax32Lanes(t: Target, a: seq<u32>, b: seq<u32>)
    requires |a| == |b|
    ensures forall i | 0 <= i < |a| :: Min32(t, a, b)[i] == (if a[i] <= b[i] then a[i] else b[i])
    ensures forall i | 0 <= i < |a| :: Max32(t, a, b)[i] == (if a[i] >= b[i] then a[i] else b[i])
  {
    forall i | 0 <= i < |a| ensures Signed32(FlipTop32(a[i])) > Signed32(FlipTop32(b[i])) <==> a[i] > b[i] {
      FlipTopOrder32(a[i], b[i]);
    }
  }

  lemma MinMax64Lanes(t: Target, a: seq<u64>, b: seq<u64>)
    requires |a| == |b| == 2
    ensures Min64(t, a, b) == [if a[0] <= b[0] then a[0] else b[0], if a[1] <= b[1] then a[1] else b[1]]
    ensures Max64(t, a, b) == [if a[0] >= b[0] then a[0] else b[0], if a[1] >= b[1] then a[1] else b[1]]
  {
    GtI64Lanes(t, FlipTops(a), FlipTops(b));
    FlipTopOrder64(a[0], b[0]);
    FlipTopOrder64(a[1], b[1]);
  }

  // ------------------------------------------------------------------ FirstN

  /**
   * FirstN for lanes of w bits: Iota(di, 0) < Set(di, (MakeSigned<T>)num),
   * a signed compare of each lane index with the count cast to the lane type.
   */
  function FirstN(w: nat, lanes: nat, num: nat): (r: seq<bool>)
    requires LaneWidth(w)
    ensures |r| == lanes
  {
    seq(lanes, i requires 0 <= i < lanes => i < CastSigned(w, num))
  }

  /** When num fits in the signed lane type, exactly the first num lanes are true. */
  lemma FirstNLanes(w: nat, lanes: nat, num: nat)
    requires LaneWidth(w) && num < SignedLimit(w)
    ensures forall i | 0 <= i < lanes :: FirstN(w, lanes, num)[i] <==> i < num
  {
    assert CastSigned(w, num) == num;
  }

  /** A count of 2^(w-1) or more wraps: with 8-bit lanes, FirstN(128) has no true lane. */
  lemma FirstNWraps()
    ensures forall i | 0 <= i < 16 :: !FirstN(8, 16, 128)[i]
  {
    assert CastSigned(8, 128) == -128;
  }
}
