/*
 * Mask bits of a 128-bit register (x86_128-inl.h): BitsFromMask, OnlyActive,
 * StoreMaskBits, AllFalse, AllTrue and CountTrue.
 *
 * A Mask128<T, N> register has LaneCount(size)of(T) lanes, each all ones or zero,
 * so it is modelled as one boolean per register lane.  Only the first N
 * lanes are active; the others may hold anything.  movemask gathers the sign
 * bit of each lane into the low bits of an int, lane i at bit i, which is
 * MaskNumber of the lanes.
 */
module X86Mask128 {
  import opened Words
  import opened Lanes
  import opened Digits

  /** sizeof(T) of the integer lane types. */
  predicate LaneSize(size: nat) { size == 1 || size == 2 || size == 4 || size == 8 }

  /** LaneCount(size)of(T): the number of lanes of a 128-bit register. */
  function LaneCount(size: nat): (r: nat)
    requires LaneSize(size)
    ensures r * size == 16
  {
    if size == 1 then 16 else if size == 2 then 8 else if size == 4 then 4 else 2
  }

  /** A register of LaneCount(size) lanes of which the first n are active (Simd<T, N>). */
  predicate MaskShape(size: nat, n: nat, reg: seq<bool>)
  {
    LaneSize(size) && 1 <= n <= LaneCount(size) && |reg| == LaneCount(size)
  }

  /**
   * _mm_packs_epi16(mask, zero): each 16-bit mask lane (0 or -1) saturates to
   * the byte 0 or -1, and the zero vector gives the upper eight bytes.
   */
  function PacksWithZero(reg: seq<bool>): (r: seq<bool>)
    requires |reg| == 8
    ensures |r| == 16 && r[..8] == reg
  {
    reg + Repeat(false, 8)
  }

  /** The movemask of each lane size (BitsFromMask for SizeTag 1, 2, 4, 8). */
  function RawBits(size: nat, reg: seq<bool>): (r: nat)
    requires LaneSize(size) && |reg| == LaneCount(size)
    ensures r == MaskNumber(reg)
  {
    if size == 2 then
      MaskNumberPad(reg, 8);
      MaskNumber(PacksWithZero(reg))
    else MaskNumber(reg)
  }

  /** x & y on uint64_t. */
  function U64And(x: nat, y: nat): nat
  {
    BitAnd(x, y, 64)
  }

  /**
   * The lowest n of the movemask bits: all of them when the register is full
   * (N * sizeof(T) == 16, that is N == 16 / sizeof(T)).
   */
  function OnlyActive(size: nat, n: nat, bits: nat): nat
    requires LaneSize(size)
  {
    if n == LaneCount(size) then bits else U64And(bits, Pow2(n) - 1)
  }

  function BitsFromMask(size: nat, n: nat, reg: seq<bool>): nat
    requires LaneSize(size) && |reg| == LaneCount(size)
  {
    OnlyActive(size, n, RawBits(size, reg))
  }

  /** AllFalse: no bit of the active lanes is set. */
  function AllFalse(size: nat, n: nat, reg: seq<bool>): (r: bool)
    requires MaskShape(size, n, reg)
    ensures r <==> forall i | 0 <= i < n :: !reg[i]
  {
    BitsFromMaskActive(size, n, reg);
    MaskNumberZero(reg[..n]);
    BitsFromMask(size, n, reg) == 0
  }

  /** kAllBits: the bits of a mask whose every lane is set, restricted to the active lanes. */
  function AllBits(size: nat, n: nat): (r: nat)
    requires LaneSize(size) && 1 <= n <= LaneCount(size)
    ensures r == Pow2(n) - 1
  {
    var all := Repeat(true, LaneCount(size));
    LowOnes(LaneCount(size));
    OnlyActiveKeeps(size, n, all);
    LowOnes(n);
    assert all[..n] == Repeat(true, n);
    OnlyActive(size, n, Pow2(LaneCount(size)) - 1)
  }

  /** AllTrue: the mask bits equal kAllBits. */
  function AllTrue(size: nat, n: nat, reg: seq<bool>): (r: bool)
    requires MaskShape(size, n, reg)
    ensures r <==> forall i | 0 <= i < n :: reg[i]
  {
    BitsFromMaskActive(size, n, reg);
    MaskNumberAll(reg[..n]);
    BitsFromMask(size, n, reg) == AllBits(size, n)
  }

  /** CountTrue: the popcount of the mask bits. */
  function CountTrue(size: nat, n: nat, reg: seq<bool>): (r: nat)
    requires MaskShape(size, n, reg)
    ensures r == Count(reg[..n])
  {
    BitsFromMaskActive(size, n, reg);
    PopCountMaskNumber(reg[..n]);
    PopCount(BitsFromMask(size, n, reg))
  }

  /**
   * StoreMaskBits: copies the lowest (N + 7) / 8 bytes of the mask bits to p
   * and returns that count.
   */
  method StoreMaskBits(size: nat, n: nat, reg: seq<bool>, p: array<u8>) returns (count: nat)
    requires MaskShape(size, n, reg) && (n + 7) / 8 <= p.Length
    modifies p
    ensures count == (n + 7) / 8
    ensures p[..count] == ToDigits(BitsFromMask(size, n, reg), 256, count)
    ensures p[count..] == old(p[count..])
  {
    count := (n + 7) / 8;
    CopyBytes(BitsFromMask(size, n, reg), count, p);
  }

  /** CopyBytes<count>(&bits, p): the lowest count bytes of bits, little-endian. */
  method CopyBytes(bits: nat, count: nat, p: array<u8>)
    requires count <= p.Length
    modifies p
    ensures p[..count] == ToDigits(bits, 256, count)
    ensures p[count..] == old(p[count..])
  {
    var rest := bits;
    for i := 0 to count
      invariant ToDigits(bits, 256, count) == p[..i] + ToDigits(rest, 256, count - i)
      invariant p[count..] == old(p[count..])
    {
      p[i] := rest % 256;
      rest := rest / 256;
    }
  }

  // ---------------------------------------------------------------- lemmas

  /** x & ((1 << n) - 1) keeps the lowest n lanes of a mask number. */
  lemma {:induction false} BitAndLowOnes(sel: seq<bool>, n: nat, w: nat)
    requires n <= |sel| <= w
    ensures BitAnd(MaskNumber(sel), Pow2(n) - 1, w) == MaskNumber(sel[..n])
  {
    if n == 0 {
      BitAndNone(MaskNumber(sel), w);
      assert sel[..0] == [];
    } else {
      var x := MaskNumber(sel);
      assert x % 2 == (if sel[0] then 1 else 0) && x / 2 == MaskNumber(sel[1..]);
      assert (Pow2(n) - 1) % 2 == 1 && (Pow2(n) - 1) / 2 == Pow2(n - 1) - 1;
      BitAndLowOnes(sel[1..], n - 1, w - 1);
      assert sel[..n][1..] == sel[1..][..n - 1];
    }
  }

  /** OnlyActive keeps exactly the mask number of the first n lanes. */
  lemma OnlyActiveKeeps(size: nat, n: nat, reg: seq<bool>)
    requires LaneSize(size) && 1 <= n <= LaneCount(size) && |reg| == LaneCount(size)
    ensures OnlyActive(size, n, MaskNumber(reg)) == MaskNumber(reg[..n])
  {
    if n == LaneCount(size) {
      assert reg[..n] == reg;
    } else {
      BitAndLowOnes(reg, n, 64);
    }
  }

  /** BitsFromMask keeps one bit per active lane and nothing else. */
  lemma BitsFromMaskActive(size: nat, n: nat, reg: seq<bool>)
    requires MaskShape(size, n, reg)
    ensures BitsFromMask(size, n, reg) == MaskNumber(reg[..n])
  {
    OnlyActiveKeeps(size, n, reg);
  }

  /** 256^((n + 7) / 8) bounds every n-bit number. */
  lemma {:induction false} BytesHold(n: nat)
    ensures Pow2(n) <= Power(256, (n + 7) / 8)
  {
    if n > 8 {
      BytesHold(n - 8);
      Pow2Add(8, n - 8);
      assert (n + 7) / 8 == (n - 8 + 7) / 8 + 1;
    } else {
      Pow2Add(n, 8 - n);
      assert Pow2(8) == 256;
    }
  }

  /** The stored bytes hold exactly the mask bits of the active lanes. */
  lemma StoredMaskBits(size: nat, n: nat, reg: seq<bool>)
    requires MaskShape(size, n, reg)
    ensures FromDigits(ToDigits(BitsFromMask(size, n, reg), 256, (n + 7) / 8), 256) == MaskNumber(reg[..n])
  {
    BitsFromMaskActive(size, n, reg);
    BitsOfMaskNumber(reg[..n]);
    BytesHold(n);
    FromToDigits(MaskNumber(reg[..n]), 256, (n + 7) / 8);
  }
}
