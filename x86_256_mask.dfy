/*
 * Mask bits of a 256-bit register (x86_256-inl.h): BitsFromMask for every
 * lane size, StoreMaskBits, AllFalse, AllTrue and CountTrue.
 *
 * A Mask256<T> register has 32 / sizeof(T) lanes, all of them active, and is
 * modelled as one boolean per lane.  VecFromMask turns lane i into size bytes
 * whose sign bits are all reg[i]; the movemask instructions collect sign bits
 * into an int, element i at bit i.
 */
module X86Mask256 {
  import opened Words
  import opened Lanes
  import opened Digits
  import opened X86Mask128

  /** 32 / sizeof(T): the number of lanes of a 256-bit register. */
  function LaneCount256(size: nat): (r: nat)
    requires LaneSize(size)
    ensures r * size == 32
  {
    if size == 1 then 32 else if size == 2 then 16 else if size == 4 then 8 else 4
  }

  predicate MaskShape256(size: nat, reg: seq<bool>)
  {
    LaneSize(size) && |reg| == LaneCount256(size)
  }

  /** BitCast to bytes of VecFromMask: every byte of lane i carries the bit reg[i]. */
  function Widen(reg: seq<bool>, size: nat): (r: seq<bool>)
    ensures |r| == |reg| * size
  {
    if |reg| == 0 then [] else Repeat(reg[0], size) + Widen(reg[1..], size)
  }

  /**
   * _mm256_movemask_epi8, _ps and _pd: the sign bits of the (at most 32)
   * elements, element i at bit i, returned as a signed 32-bit int.
   */
  function MoveMask(signs: seq<bool>): (r: int)
    requires |signs| <= 32
    ensures -0x8000_0000 <= r < 0x8000_0000
  {
    MaskNumberBelow(signs);
    CastSigned(32, MaskNumber(signs))
  }

  /** static_cast<uint32_t> (or unsigned) of an int: the value modulo 2^32. */
  function Unsigned(x: int): (r: nat)
    ensures r < 0x1_0000_0000
    ensures 0 <= x < 0x1_0000_0000 ==> r == x
  {
    x % 0x1_0000_0000
  }

  /**
   * _pext_u64(x, mask) over the lowest w bits: the bits of x at the set bits
   * of mask, packed to the bottom in order.
   */
  function Pext(x: nat, mask: nat, w: nat): nat
  {
    if w == 0 then 0
    else if mask % 2 == 1 then x % 2 + 2 * Pext(x / 2, mask / 2, w - 1)
    else Pext(x / 2, mask / 2, w - 1)
  }

  /** The upper bit of each of n bit pairs (0xAAAAAAAA for n == 16). */
  function OddBits(n: nat): nat
  {
    if n == 0 then 0 else 2 + 4 * OddBits(n - 1)
  }

  /**
   * _mm256_packs_epi16(mask, zero) on a 16-bit mask: in each 128-bit block,
   * the eight lanes saturated to bytes (0 or -1, so the same sign bits),
   * then eight zero bytes from the zero vector.
   */
  function PacksWithZero256(reg: seq<bool>): (r: seq<bool>)
    requires |reg| == 16
    ensures |r| == 32
  {
    reg[..8] + Repeat(false, 8) + reg[8..] + Repeat(false, 8)
  }

  /** Quadword q (bytes 8q .. 8q + 7) of a 32-byte register. */
  function Quad<T>(x: seq<T>, q: nat): (r: seq<T>)
    requires |x| == 32 && q < 4
    ensures |r| == 8
  {
    x[8 * q .. 8 * q + 8]
  }

  /** _mm256_permute4x64_epi64(x, _MM_SHUFFLE(s3, s2, s1, s0)): quadword j of the result is quadword sj of x. */
  function Permute4x64<T>(x: seq<T>, s3: nat, s2: nat, s1: nat, s0: nat): (r: seq<T>)
    requires |x| == 32 && s3 < 4 && s2 < 4 && s1 < 4 && s0 < 4
    ensures |r| == 32
  {
    Quad(x, s0) + Quad(x, s1) + Quad(x, s2) + Quad(x, s3)
  }

  /**
   * detail::BitsFromMask(SizeTag<size>, mask), where x64 is HWY_ARCH_X86_64:
   * the 8-bit movemask zero-extended from int; for 16-bit lanes either the
   * upper bit of each byte pair extracted by PEXT or the sign bytes packed
   * and their zero quadwords moved up; movemask_ps and movemask_pd for 32-
   * and 64-bit lanes.  Every branch gives the mask number of the lanes.
   */
  function BitsFromMask256(size: nat, reg: seq<bool>, x64: bool): (r: nat)
    requires MaskShape256(size, reg)
    ensures r == MaskNumber(reg) && r < Pow2(|reg|) <= 0x1_0000_0000
  {
    MaskNumberBelow(reg);
    if size == 1 then
      WidenOne(reg);
      SignBits(Widen(reg, 1))
    else if size == 2 then
      if x64 then
        PextPairs(reg);
        Pext(SignBits(Widen(reg, 2)), 0xAAAA_AAAA, 64)
      else
        PacksPermuted(reg);
        SignBits(Permute4x64(PacksWithZero256(reg), 3, 1, 2, 0))
    else SignBits(reg)
  }

  /** A movemask zero-extended to uint32_t: the mask number of the sign bits. */
  function SignBits(signs: seq<bool>): (r: nat)
    requires |signs| <= 32
    ensures r == MaskNumber(signs)
  {
    UnsignedMoveMask(signs);
    Unsigned(MoveMask(signs))
  }

  /** StoreMaskBits: copies (4 + sizeof(T) - 1) / sizeof(T) bytes of the mask bits to p and returns that count. */
  method StoreMaskBits256(size: nat, reg: seq<bool>, x64: bool, p: array<u8>) returns (count: nat)
    requires MaskShape256(size, reg) && (|reg| + 7) / 8 <= p.Length
    modifies p
    ensures count == (4 + size - 1) / size == (|reg| + 7) / 8
    ensures p[..count] == ToDigits(MaskNumber(reg), 256, count)
    ensures p[count..] == old(p[count..])
  {
    var bits := BitsFromMask256(size, reg, x64);
    count := (4 + size - 1) / size;
    StoreCount(size);
    CopyBytes(bits, count, p);
  }

  /** AllFalse: the mask bits are zero. */
  function AllFalse256(size: nat, reg: seq<bool>, x64: bool): (r: bool)
    requires MaskShape256(size, reg)
    ensures r <==> forall i | 0 <= i < |reg| :: !reg[i]
  {
    MaskNumberZero(reg);
    BitsFromMask256(size, reg, x64) == 0
  }

  /** kAllBits = (1 << (32 / sizeof(T))) - 1. */
  function AllBits256(size: nat): (r: nat)
    requires LaneSize(size)
    ensures r == MaskNumber(Repeat(true, LaneCount256(size)))
  {
    LowOnes(LaneCount256(size));
    assert 32 / size == LaneCount256(size);
    Pow2(32 / size) - 1
  }

  /** AllTrue: the mask bits equal kAllBits. */
  function AllTrue256(size: nat, reg: seq<bool>, x64: bool): (r: bool)
    requires MaskShape256(size, reg)
    ensures r <==> forall i | 0 <= i < |reg| :: reg[i]
  {
    MaskNumberAll(reg);
    LowOnes(|reg|);
    BitsFromMask256(size, reg, x64) == AllBits256(size)
  }

  /** CountTrue: the popcount of the mask bits. */
  function CountTrue256(size: nat, reg: seq<bool>, x64: bool): (r: nat)
    requires MaskShape256(size, reg)
    ensures r == Count(reg)
  {
    PopCountMaskNumber(reg);
    PopCount(BitsFromMask256(size, reg, x64))
  }

  // ---------------------------------------------------------------- lemmas

  lemma {:induction false} WidenOne(reg: seq<bool>)
    ensures Widen(reg, 1) == reg
  {
    if |reg| > 0 {
      WidenOne(reg[1..]);
      assert Repeat(reg[0], 1) == [reg[0]];
    }
  }

  /** Zero-extending the movemask int gives back the mask number of the sign bits. */
  lemma UnsignedMoveMask(signs: seq<bool>)
    requires |signs| <= 32
    ensures Unsigned(MoveMask(signs)) == MaskNumber(signs)
  {
    MaskNumberBelow(signs);
  }

  /** 2^8, 2^16, 2^31 and 2^32. */
  lemma Pow2Literals()
    ensures Pow2(8) == 0x100 && Pow2(16) == 0x1_0000
    ensures Pow2(31) == 0x8000_0000 && Pow2(32) == 0x1_0000_0000
  {
    assert Pow2(8) == 0x100;
    Pow2Add(8, 8);
    Pow2Add(16, 16);
    Pow2Add(31, 1);
  }

  /** The mask number of at most 32 sign bits is below 2^|signs| and 2^32. */
  lemma MaskNumberBelow(signs: seq<bool>)
    requires |signs| <= 32
    ensures MaskNumber(signs) < Pow2(|signs|) <= 0x1_0000_0000
  {
    BitsOfMaskNumber(signs);
    Pow2Add(|signs|, 32 - |signs|);
    Pow2Literals();
  }

  /** Without the cast to uint32_t, a set top byte would sign-extend to a negative number. */
  lemma MoveMaskSignExtends(signs: seq<bool>)
    requires |signs| == 32 && signs[31]
    ensures MoveMask(signs) < 0
  {
    MaskNumberRange(signs);
  }

  /** A mask number whose bit 31 is set lies in [2^31, 2^32). */
  lemma {:induction false} MaskNumberRange(signs: seq<bool>)
    requires |signs| == 32 && signs[31]
    ensures 0x8000_0000 <= MaskNumber(signs) < 0x1_0000_0000
  {
    var low := signs[..31];
    assert signs == low + [true];
    MaskNumberTop(low, true);
    BitsOfMaskNumber(low);
    Pow2Literals();
  }

  /** Appending bit b above the lowest |low| bits adds b * 2^|low|. */
  lemma {:induction false} MaskNumberTop(low: seq<bool>, b: bool)
    ensures MaskNumber(low + [b]) == MaskNumber(low) + (if b then Pow2(|low|) else 0)
  {
    if |low| > 0 {
      assert (low + [b])[1..] == low[1..] + [b];
      MaskNumberTop(low[1..], b);
    }
  }

  /** PEXT with the odd-bit mask keeps one bit of each pair of equal bits. */
  lemma {:induction false} PextOddBits(sel: seq<bool>, w: nat)
    requires 2 * |sel| <= w
    ensures Pext(MaskNumber(Widen(sel, 2)), OddBits(|sel|), w) == MaskNumber(sel)
  {
    if |sel| > 0 {
      var rest := MaskNumber(Widen(sel[1..], 2));
      var b := if sel[0] then 1 else 0;
      var wide := Widen(sel, 2);
      assert wide == [sel[0], sel[0]] + Widen(sel[1..], 2);
      assert wide[1..] == [sel[0]] + Widen(sel[1..], 2);
      assert wide[1..][1..] == Widen(sel[1..], 2);
      assert MaskNumber(wide[1..]) == b + 2 * rest;
      assert MaskNumber(wide) == b + 2 * (b + 2 * rest);
      PextPairStep(b, rest, OddBits(|sel| - 1), w);
      PextOddBits(sel[1..], w - 2);
      assert OddBits(|sel|) == 2 + 4 * OddBits(|sel[1..]|);
      assert MaskNumber(sel) == b + 2 * MaskNumber(sel[1..]);
    } else {
      PextNoMask(MaskNumber(Widen(sel, 2)), w);
    }
  }

  /** With no mask bit set, PEXT extracts nothing. */
  lemma {:induction false} PextNoMask(x: nat, w: nat)
    ensures Pext(x, 0, w) == 0
  {
    if w > 0 {
      PextNoMask(x / 2, w - 1);
    }
  }

  /** One pair of equal bits b under the mask bits 0b10. */
  lemma PextPairStep(b: nat, rest: nat, o: nat, w: nat)
    requires b <= 1 && w >= 2
    ensures Pext(b + 2 * (b + 2 * rest), 2 + 4 * o, w) == b + 2 * Pext(rest, o, w - 2)
  {
    var x := b + 2 * (b + 2 * rest);
    assert x % 2 == b && x / 2 == b + 2 * rest;
    assert (2 + 4 * o) % 2 == 0 && (2 + 4 * o) / 2 == 1 + 2 * o;
    assert Pext(x, 2 + 4 * o, w) == Pext(b + 2 * rest, 1 + 2 * o, w - 1);
    assert (b + 2 * rest) % 2 == b && (b + 2 * rest) / 2 == rest;
    assert (1 + 2 * o) % 2 == 1 && (1 + 2 * o) / 2 == o;
  }

  /** The HWY_ARCH_X86_64 branch of BitsFromMask for 16-bit lanes. */
  lemma PextPairs(reg: seq<bool>)
    requires |reg| == 16
    ensures Pext(MaskNumber(Widen(reg, 2)), 0xAAAA_AAAA, 64) == MaskNumber(reg)
  {
    OddBitsLiteral();
    PextOddBits(reg, 64);
  }

  lemma OddBitsLiteral()
    ensures OddBits(16) == 0xAAAA_AAAA
  {
    assert OddBits(4) == 0xAA;
    assert OddBits(8) == 0xAAAA by {
      assert OddBits(5) == 0x2AA && OddBits(6) == 0xAAA && OddBits(7) == 0x2AAA;
    }
    assert OddBits(12) == 0xAA_AAAA by {
      assert OddBits(9) == 0x2_AAAA && OddBits(10) == 0xA_AAAA && OddBits(11) == 0x2A_AAAA;
    }
    assert OddBits(13) == 0x2AA_AAAA && OddBits(14) == 0xAAA_AAAA && OddBits(15) == 0x2AAA_AAAA;
  }

  /** The four quadwords of a 32-byte register. */
  lemma QuadsOf<T>(q0: seq<T>, q1: seq<T>, q2: seq<T>, q3: seq<T>)
    requires |q0| == |q1| == |q2| == |q3| == 8
    ensures Quad(q0 + q1 + q2 + q3, 0) == q0 && Quad(q0 + q1 + q2 + q3, 1) == q1
    ensures Quad(q0 + q1 + q2 + q3, 2) == q2 && Quad(q0 + q1 + q2 + q3, 3) == q3
  {
    var x := q0 + q1 + q2 + q3;
    assert x[0..8] == q0;
    assert x[8..16] == q1;
    assert x[16..24] == q2;
    assert x[24..32] == q3;
  }

  /** After packs and the (3, 1, 2, 0) permute, the sign bytes are the lanes followed by zeros. */
  lemma PacksPermuted(reg: seq<bool>)
    requires |reg| == 16
    ensures MaskNumber(Permute4x64(PacksWithZero256(reg), 3, 1, 2, 0)) == MaskNumber(reg)
  {
    var zeros := Repeat(false, 8);
    QuadsOf(reg[..8], zeros, reg[8..], zeros);
    assert reg[..8] + reg[8..] == reg;
    var y := Permute4x64(PacksWithZero256(reg), 3, 1, 2, 0);
    assert y == reg + zeros + zeros;
    MaskNumberPad(reg, 8);
    MaskNumberPad(reg + zeros, 8);
  }

  /** (4 + sizeof(T) - 1) / sizeof(T) bytes are (lanes + 7) / 8 bytes. */
  lemma StoreCount(size: nat)
    requires LaneSize(size)
    ensures (4 + size - 1) / size == (LaneCount256(size) + 7) / 8
  {
  }

  /** The stored bytes hold every mask bit. */
  lemma StoredMaskBits256(size: nat, reg: seq<bool>, x64: bool)
    requires MaskShape256(size, reg)
    ensures FromDigits(ToDigits(BitsFromMask256(size, reg, x64), 256, (4 + size - 1) / size), 256) == MaskNumber(reg)
  {
    StoreCount(size);
    BytesHold(|reg|);
    MaskNumberBelow(reg);
    FromToDigits(MaskNumber(reg), 256, (|reg| + 7) / 8);
  }
}
