/*
 * Compress and CompressStore of 256-bit registers with 32- and 64-bit lanes
 * (x86_256-inl.h).
 *
 * On AVX2 the lanes move by one _mm256_permutevar8x32_epi32, whose eight
 * 32-bit indices come from Idx32x8FromBits (one nibble per lane of a packed
 * 32-bit word, selected by a per-lane shift) or from the rows of
 * Idx64x4FromBits (the pair 2j, 2j + 1 of every selected 64-bit lane j).  On
 * AVX3 the compress instructions move the lanes and zero the rest.
 */
module X86Compress256 {
  import opened Targets
  import opened Lanes
  import opened Digits
  import opened IndexTables
  import opened X86Mask128
  import opened X86Compress128
  import opened X86Tables256
  import opened X86Mask256

  /** A register of 32 / size lanes of size bytes, for the lane sizes with a permutevar8x32 path. */
  predicate LaneVector256(size: nat, v: seq<nat>)
  {
    (size == 4 || size == 8) && |v| == LaneCount256(size) &&
    forall k {:trigger LaneFits(size, v[k])} | 0 <= k < |v| :: LaneFits(size, v[k])
  }

  /** The per-lane shift counts {0, 4, ..., 28} of Idx32x8FromBits. */
  const NibbleShifts: seq<nat> := [0, 4, 8, 12, 16, 20, 24, 28]

  /** Idx32x8FromBits: packed_array[m] in every lane, lane k shifted right by 4k bits. */
  function Idx32x8FromBits(m: nat): (r: seq<nat>)
    requires m < 256
    ensures |r| == 8
  {
    var packed := Idx32x8Word(m);
    seq(8, k requires 0 <= k < 8 => ShiftRight(packed, NibbleShifts[k]))
  }

  /** x >> s on an unsigned lane. */
  function ShiftRight(x: nat, s: nat): nat
  {
    DivNat(x, Pow2(s));
    x / Pow2(s)
  }

  /** Idx64x4FromBits: the eight 32-bit lanes at packed_array + 8 * m. */
  function Idx64x4FromBits(m: nat): (r: seq<nat>)
    requires m < 16
    ensures |r| == 8
  {
    ToDigits(Idx64x4Rows[m], 0x1_0000_0000, 8)
  }

  /** _mm256_permutevar8x32_epi32(v, idx): lane k of the result is lane idx[k] & 7 of v. */
  function Permutevar8x32(v: seq<nat>, idx: seq<nat>): (r: seq<nat>)
    requires |v| == 8 && |idx| == 8
    ensures |r| == 8 && forall k | 0 <= k < 8 :: r[k] == v[idx[k] % 8]
  {
    seq(8, k requires 0 <= k < 8 => v[idx[k] % 8])
  }

  /** BitCast of 64-bit lanes to 32-bit lanes: the low half of each lane, then its high half. */
  function Words32(v: seq<nat>): (r: seq<nat>)
    ensures |r| == 2 * |v|
  {
    PiecesLength(v, 2, 0x1_0000_0000);
    Pieces(v, 2, 0x1_0000_0000)
  }

  /** BitCast of 32-bit lanes to 64-bit lanes. */
  function Lanes64(w: seq<nat>): seq<nat>
  {
    FromPieces(w, 2, 0x1_0000_0000)
  }

  /**
   * detail::Compress(SizeTag<size>, v, mask_bits) for 32- and 64-bit lanes:
   * the lanes whose mask bit is set, moved down in order, then lane 0
   * (permutevar8x32) or zeros (AVX3 compress).
   */
  function DetailCompress256(target: Target, size: nat, v: seq<nat>, bits: nat): (r: seq<nat>)
    requires LaneVector256(size, v) && bits < Pow2(|v|)
    ensures |v| > 0 && |r| == |v|
    ensures r == Compressed(v, BitsOf(bits, |v|))
      + Repeat(Fill(target, size, v), |v| - Count(BitsOf(bits, |v|)))
  {
    Pow2Literals();
    CompressedLength(v, BitsOf(bits, |v|));
    if target == AVX3 then MaskzCompress(v, bits)
    else if size == 4 then
      PermuteCompress32(v, bits);
      Permutevar8x32(v, Idx32x8FromBits(bits))
    else
      PermuteGather64(v, bits);
      GatherIndices(v, BitsOf(bits, |v|));
      Lanes64(Permutevar8x32(Words32(v), Idx64x4FromBits(bits)))
  }

  /**
   * Compress(v, mask), which this header defines for AVX2: the selected
   * lanes in order, then copies of lane 0.
   */
  function Compress256(size: nat, v: seq<nat>, reg: seq<bool>): (r: seq<nat>)
    requires LaneVector256(size, v) && |reg| == |v|
    ensures |v| > 0 && |r| == |v|
    ensures r == Compressed(v, reg) + Repeat(v[0], |v| - Count(reg))
  {
    var bits := BitsFromMask256(size, reg, true);
    BitsOfMaskNumber(reg);
    DetailCompress256(AVX2, size, v, bits)
  }

  /**
   * CompressStore: stores Compress(v, mask) to aligned and returns the
   * number of selected lanes, which it stored first.
   */
  method CompressStore256(size: nat, v: seq<nat>, reg: seq<bool>, aligned: array<nat>)
    returns (count: nat)
    requires LaneVector256(size, v) && |reg| == |v| <= aligned.Length
    modifies aligned
    ensures count == Count(reg)
    ensures aligned[..|v|] == Compressed(v, reg) + Repeat(v[0], |v| - count)
    ensures aligned[|v|..] == old(aligned[|v|..])
  {
    var bits := BitsFromMask256(size, reg, true);
    var c := Compress256(size, v, reg);
    forall i | 0 <= i < |v| {
      aligned[i] := c[i];
    }
    count := PopCount(bits);
    PopCountMaskNumber(reg);
    assert aligned[..|v|] == c;
  }

  // ---------------------------------------------------------------- lemmas

  /** The shift 4k is a division by 16^k. */
  lemma NibbleShiftPowers(k: nat)
    requires k < 8
    ensures Pow2(NibbleShifts[k]) == Power(16, k)
  {
    Pow2Literals();
    assert Pow2(4) == 16;
    Pow2Add(4, 4);
    Pow2Add(8, 4);
    Pow2Add(16, 4);
    Pow2Add(16, 8);
    Pow2Add(16, 12);
    assert Power(16, 7) == 0x1000_0000;
  }

  /** Lane k of Idx32x8FromBits(m), masked to three bits, is index k of the selected lanes of m. */
  lemma Idx32x8Lane(m: nat, k: nat)
    requires m < 256 && k < 8
    ensures Indices(BitsOf(m, 8))[k] < 8
    ensures Idx32x8FromBits(m)[k] % 8 == Indices(BitsOf(m, 8))[k]
  {
    var ps := Indices(BitsOf(m, 8));
    IndicesBound(BitsOf(m, 8), 0);
    Idx32x8Nibbles(m);
    ToDigitsAt(Idx32x8Word(m), 16, 8, k);
    NibbleShiftPowers(k);
    var y := Idx32x8FromBits(m)[k];
    assert y % 16 == ps[k];
    DivModUnique(y, 2 * (y / 16), ps[k], 8);
  }

  /** The permutevar8x32 path for 32-bit lanes gathers the selected lanes. */
  lemma PermuteCompress32(v: seq<nat>, bits: nat)
    requires |v| == 8 && bits < 256
    ensures Permutevar8x32(v, Idx32x8FromBits(bits))
         == Compressed(v, BitsOf(bits, 8)) + Repeat(v[0], 8 - Count(BitsOf(bits, 8)))
  {
    GatherIndices(v, BitsOf(bits, 8));
    Idx32x8Lanes(bits);
    PermuteMasked(v, Idx32x8FromBits(bits), Indices(BitsOf(bits, 8)));
  }

  /** Every lane of Idx32x8FromBits(m), masked to three bits, is the matching selected index. */
  lemma Idx32x8Lanes(m: nat)
    requires m < 256
    ensures forall k | 0 <= k < 8 :: Idx32x8FromBits(m)[k] % 8 == Indices(BitsOf(m, 8))[k]
  {
    forall k | 0 <= k < 8
      ensures Idx32x8FromBits(m)[k] % 8 == Indices(BitsOf(m, 8))[k]
    {
      Idx32x8Lane(m, k);
    }
  }

  /** Indices whose low three bits are the gathered positions gather those lanes. */
  lemma PermuteMasked(v: seq<nat>, idx: seq<nat>, ps: seq<nat>)
    requires |v| == 8 && |idx| == 8 && |ps| == 8
    requires forall k | 0 <= k < 8 :: idx[k] % 8 == ps[k]
    ensures forall k | 0 <= k < 8 :: ps[k] < 8
    ensures Permutevar8x32(v, idx) == Gather(v, ps)
  {
  }

  /** With the pairs of the selected lanes as 32-bit indices, permutevar8x32 gathers those lanes. */
  lemma PermuteGather64(v: seq<nat>, bits: nat)
    requires LaneVector256(8, v) && bits < 16
    ensures forall k | 0 <= k < 4 :: Indices(BitsOf(bits, 4))[k] < 4
    ensures Lanes64(Permutevar8x32(Words32(v), Idx64x4FromBits(bits))) == Gather(v, Indices(BitsOf(bits, 4)))
  {
    var ps := Indices(BitsOf(bits, 4));
    IndicesBound(BitsOf(bits, 4), 0);
    Idx64x4Indices(bits);
    IndexPiecesBound(ps, 2, 4);
    PermuteLookup(Words32(v), Idx64x4FromBits(bits));
    LookupPieces(v, ps, 2, 0x1_0000_0000);
    WideLanes(v, ps);
    FromPiecesPieces(Gather(v, ps), 2, 0x1_0000_0000);
  }

  /** Indices below 8 are used unmasked. */
  lemma PermuteLookup(w: seq<nat>, idx: seq<nat>)
    requires |w| == 8 && |idx| == 8 && forall k | 0 <= k < 8 :: idx[k] < 8
    ensures Permutevar8x32(w, idx) == Lookup(w, idx)
  {
  }

  /** Gathered 64-bit lanes are two 32-bit pieces each. */
  lemma WideLanes(v: seq<nat>, ps: seq<nat>)
    requires LaneVector256(8, v) && forall k | 0 <= k < |ps| :: ps[k] < |v|
    ensures forall k | 0 <= k < |ps| :: Gather(v, ps)[k] < Power(0x1_0000_0000, 2)
  {
    Pieces2Words();
    assert Power(256, 8) == 0x1_0000_0000_0000_0000;
    forall k | 0 <= k < |ps|
      ensures Gather(v, ps)[k] < Power(0x1_0000_0000, 2)
    {
      assert LaneFits(8, v[ps[k]]);
    }
  }
}
