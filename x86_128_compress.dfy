/*
 * Compress and CompressStore of 128-bit registers (x86_128-inl.h).
 *
 * A register of 16 / size lanes is a sequence of lane values; BitCast to
 * bytes reads each lane as its size little-endian bytes.  Without AVX3 the
 * selected lanes are moved down by one PSHUFB (TableLookupBytes) whose byte
 * indices come from the tables of X86Tables128; with AVX3 the 32- and
 * 64-bit lanes use the compress instructions.  The result is the selected
 * lanes in order, followed by copies of lane 0 (PSHUFB path) or zeros
 * (AVX3 path).
 */
module X86Compress128 {
  import opened Targets
  import opened Lanes
  import opened Digits
  import opened IndexTables
  import opened X86Tables128
  import opened X86Mask128

  /** A lane of size bytes holds a number below 256^size. */
  predicate LaneFits(size: nat, x: nat)
  {
    x < Power(256, size)
  }

  /** A register of 16 / size lanes of size bytes, for the lane sizes Compress supports. */
  predicate LaneVector(size: nat, v: seq<nat>)
  {
    (size == 2 || size == 4 || size == 8) && |v| == LaneCount(size) &&
    forall k {:trigger LaneFits(size, v[k])} | 0 <= k < |v| :: LaneFits(size, v[k])
  }

  /** BitCast to bytes: the little-endian bytes of each lane, lane 0 first. */
  function BytesOf(size: nat, v: seq<nat>): (r: seq<nat>)
    ensures |r| == size * |v|
  {
    PiecesLength(v, size, 256);
    Pieces(v, size, 256)
  }

  /** BitCast from bytes: each run of size bytes, little-endian, is one lane. */
  function LanesOf(size: nat, bytes: seq<nat>): seq<nat>
    requires size > 0
  {
    FromPieces(bytes, size, 256)
  }

  /**
   * TableLookupBytes (PSHUFB): byte i of the result is bytes[from[i] & 15],
   * or zero when bit 7 of the index byte is set.
   */
  function TableLookupBytes(bytes: seq<nat>, from: seq<nat>): (r: seq<nat>)
    requires |bytes| == 16 && |from| == 16
    ensures |r| == 16
  {
    seq(16, i requires 0 <= i < 16 => if from[i] >= 0x80 then 0 else bytes[from[i] % 16])
  }

  /** ZipLower of two byte vectors: 16-bit lane k has low byte a[k] and high byte b[k]. */
  function ZipLower(a: seq<nat>, b: seq<nat>): (r: seq<nat>)
    requires |a| == |b|
    ensures |r| == |a| && forall k | 0 <= k < |a| :: r[k] == a[k] + 0x100 * b[k]
  {
    seq(|a|, k requires 0 <= k < |a| => a[k] + 0x100 * b[k])
  }

  /** Addition of 16-bit lanes, wrapping. */
  function AddU16(x: nat, y: nat): (r: nat)
    ensures r < 0x1_0000
    ensures x + y < 0x1_0000 ==> r == x + y
  {
    (x + y) % 0x1_0000
  }

  /**
   * Idx16x8FromBits: the eight table bytes 2 * p of row m, each zipped with
   * itself into a 16-bit lane and increased by 0x0100, so that lane k holds
   * the byte indices 2 * p (low byte) and 2 * p + 1 (high byte).
   */
  function Idx16x8FromBits(m: nat): (r: seq<nat>)
    requires m < 256
    ensures |r| == 8
  {
    var byteIdx := ToDigits(Idx16x8Row(m), 256, 8);
    var pairs := ZipLower(byteIdx, byteIdx);
    seq(8, k requires 0 <= k < 8 => AddU16(pairs[k], 0x0100))
  }

  /**
   * The byte indices detail::Compress hands to TableLookupBytes: the bytes
   * of Idx16x8FromBits, or row m of the Idx32x4FromBits or Idx64x2FromBits
   * table.
   */
  function CompressIndices(size: nat, m: nat): (r: seq<nat>)
    requires (size == 2 || size == 4 || size == 8) && m < Pow2(LaneCount(size))
    ensures |r| == 16
  {
    assert Pow2(2) == 4 && Pow2(4) == 16 && Pow2(8) == 256;
    if size == 2 then BytesOf(2, Idx16x8FromBits(m))
    else if size == 4 then ToDigits(Idx32x4Rows[m], 256, 16)
    else ToDigits(Idx64x2Rows[m], 256, 16)
  }

  /**
   * _mm_maskz_compress_epi32 / _epi64: the lanes whose mask bit is set,
   * moved to the bottom in order, and zeros above them.
   */
  function MaskzCompress(v: seq<nat>, bits: nat): (r: seq<nat>)
    ensures |r| == |v|
  {
    var sel := BitsOf(bits, |v|);
    CompressedLength(v, sel);
    Compressed(v, sel) + Repeat(0, |v| - Count(sel))
  }

  /** Whether detail::Compress uses the AVX3 compress instruction for this lane size. */
  predicate UsesCompressInstruction(target: Target, size: nat)
  {
    target == AVX3 && size != 2
  }

  /** The lane detail::Compress repeats above the selected lanes: lane 0 for PSHUFB, zero for AVX3. */
  function Fill(target: Target, size: nat, v: seq<nat>): nat
    requires |v| > 0
  {
    if UsesCompressInstruction(target, size) then 0 else v[0]
  }

  /**
   * BitCast(d, TableLookupBytes(BitCast(du8, v), idx)): the PSHUFB of the
   * register's bytes, read back as lanes.
   */
  function ShuffleLanes(size: nat, v: seq<nat>, idx: seq<nat>): seq<nat>
    requires LaneVector(size, v) && |idx| == 16
  {
    VectorBytes(size, v);
    LanesOf(size, TableLookupBytes(BytesOf(size, v), idx))
  }

  /**
   * detail::Compress(SizeTag<size>, v, mask_bits): the lanes whose mask bit
   * is set, moved down in order, then lane 0 (PSHUFB) or zeros (AVX3).
   */
  function DetailCompress(target: Target, size: nat, v: seq<nat>, bits: nat): (r: seq<nat>)
    requires LaneVector(size, v) && bits < Pow2(|v|)
    ensures |v| > 0
    ensures r == Compressed(v, BitsOf(bits, |v|))
      + Repeat(Fill(target, size, v), |v| - Count(BitsOf(bits, |v|)))
  {
    VectorBytes(size, v);
    if UsesCompressInstruction(target, size) then MaskzCompress(v, bits)
    else
      TableCompress(size, v, bits);
      ShuffleLanes(size, v, CompressIndices(size, bits))
  }

  /**
   * Compress(v, mask): detail::Compress with the bits of the mask.  It keeps
   * exactly the selected active lanes, in order.
   */
  function Compress(target: Target, size: nat, v: seq<nat>, n: nat, reg: seq<bool>): (r: seq<nat>)
    requires MaskShape(size, n, reg) && LaneVector(size, v)
    ensures n <= |v| && |v| > 0
    ensures r == Compressed(v[..n], reg[..n]) + Repeat(Fill(target, size, v), |v| - Count(reg[..n]))
  {
    MaskBitsBound(size, n, v, reg);
    MaskSelection(size, n, v, reg);
    DetailCompress(target, size, v, BitsFromMask(size, n, reg))
  }

  /**
   * CompressStore: stores the N active lanes of Compress(v, mask) to aligned
   * and returns the number of selected lanes, which it stored first.
   */
  method CompressStore(target: Target, size: nat, v: seq<nat>, n: nat, reg: seq<bool>, aligned: array<nat>)
    returns (count: nat)
    requires MaskShape(size, n, reg) && LaneVector(size, v) && n <= aligned.Length
    modifies aligned
    ensures count == Count(reg[..n])
    ensures aligned[..n] == Compressed(v[..n], reg[..n])
      + Repeat(Fill(target, size, v), n - count)
    ensures aligned[n..] == old(aligned[n..])
  {
    var bits := BitsFromMask(size, n, reg);
    var c := Compress(target, size, v, n, reg);
    StoredLanes(target, size, v, n, reg);
    forall i | 0 <= i < n {
      aligned[i] := c[i];
    }
    count := PopCount(bits);
    BitsFromMaskActive(size, n, reg);
    PopCountMaskNumber(reg[..n]);
    assert aligned[..n] == c[..n];
  }

  // ---------------------------------------------------------------- lemmas

  /** A register holds 16 bytes. */
  lemma {:induction false} VectorBytes(size: nat, v: seq<nat>)
    requires LaneVector(size, v)
    ensures |BytesOf(size, v)| == 16 && |v| > 0
  {
    if size == 2 {} else if size == 4 {} else {}
  }

  /** The mask bits of the active lanes index the table of the register's lane count. */
  lemma {:induction false} MaskBitsBound(size: nat, n: nat, v: seq<nat>, reg: seq<bool>)
    requires MaskShape(size, n, reg) && LaneVector(size, v)
    ensures n <= |v| && BitsFromMask(size, n, reg) < Pow2(|v|)
  {
    BitsFromMaskActive(size, n, reg);
    BitsOfMaskNumber(reg[..n]);
    Pow2Add(n, |v| - n);
  }

  /** With in-range indices, PSHUFB is a plain lookup. */
  lemma {:induction false} TableLookupIndices(bytes: seq<nat>, from: seq<nat>)
    requires |bytes| == 16 && |from| == 16
    requires forall i | 0 <= i < 16 :: from[i] < 16
    ensures TableLookupBytes(bytes, from) == Lookup(bytes, from)
  {
  }

  lemma {:induction false} Pieces2Literals()
    ensures Ones(2, 256) == 0x101 && Ramp(2, 256) == 0x100
  {
    assert Repeat(1, 2) == [1, 1];
    assert Span(0, 2) == [0, 1];
  }

  /** A doubled index zipped with itself plus 0x0100 is the 16-bit lane of bytes 2 * p and 2 * p + 1. */
  lemma {:induction false} Idx16x8Lane(p: nat)
    requires p < 8
    ensures ToDigits(AddU16(2 * p + 0x100 * (2 * p), 0x0100), 256, 2) == Span(2 * p, 2)
  {
    Pieces2Literals();
    SpanValue(2 * p, 2, 256);
    ToFromDigits(Span(2 * p, 2), 256);
  }

  /** The bytes of Idx16x8FromBits(m) are the byte indices of the selected 16-bit lanes. */
  lemma {:induction false} Idx16x8Indices(m: nat)
    requires m < 256
    ensures BytesOf(2, Idx16x8FromBits(m)) == IndexPieces(Indices(BitsOf(m, 8)), 2)
  {
    var ps := Indices(BitsOf(m, 8));
    var lanes := Idx16x8FromBits(m);
    Idx16x8Bytes(m);
    IndicesBound(BitsOf(m, 8), 0);
    var lhs := seq(8, k requires 0 <= k < 8 => ToDigits(lanes[k], 256, 2));
    var rhs := seq(8, k requires 0 <= k < 8 => Span(2 * ps[k], 2));
    forall k | 0 <= k < 8
      ensures lhs[k] == rhs[k]
    {
      Idx16x8Lane(ps[k]);
    }
    assert lhs == rhs;
  }

  /** The index bytes of every lane size are those of the selected lanes. */
  lemma {:induction false} CompressIndicesPieces(size: nat, m: nat)
    requires (size == 2 || size == 4 || size == 8) && m < Pow2(LaneCount(size))
    ensures CompressIndices(size, m) == IndexPieces(Indices(BitsOf(m, LaneCount(size))), size)
  {
    assert Pow2(2) == 4 && Pow2(4) == 16 && Pow2(8) == 256;
    if size == 2 {
      Idx16x8Indices(m);
    } else if size == 4 {
      Idx32x4Bytes(m);
    } else {
      Idx64x2Bytes(m);
    }
  }

  /** PSHUFB with the byte indices of lanes ps gathers those lanes. */
  lemma {:induction false} GatherBytes(size: nat, v: seq<nat>, ps: seq<nat>)
    requires LaneVector(size, v) && |ps| == |v|
    requires forall k | 0 <= k < |ps| :: ps[k] < |v|
    ensures |IndexPieces(ps, size)| == 16
    ensures LanesOf(size, TableLookupBytes(BytesOf(size, v), IndexPieces(ps, size))) == Gather(v, ps)
  {
    VectorBytes(size, v);
    LookupPieces(v, ps, size, 256);
    IndexPiecesBound(ps, size, |v|);
    TableLookupIndices(BytesOf(size, v), IndexPieces(ps, size));
    forall k | 0 <= k < |ps|
      ensures Gather(v, ps)[k] < Power(256, size)
    {
      assert LaneFits(size, v[ps[k]]);
    }
    FromPiecesPieces(Gather(v, ps), size, 256);
  }

  /** PSHUFB with the byte indices of the selected lanes compresses them, then repeats lane 0. */
  lemma {:induction false} ShuffleCompress(size: nat, v: seq<nat>, sel: seq<bool>)
    requires LaneVector(size, v) && |sel| == |v|
    ensures |IndexPieces(Indices(sel), size)| == 16 && |v| > 0
    ensures ShuffleLanes(size, v, IndexPieces(Indices(sel), size))
         == Compressed(v, sel) + Repeat(v[0], |v| - Count(sel))
  {
    var ps := Indices(sel);
    VectorBytes(size, v);
    IndicesBound(sel, 0);
    GatherBytes(size, v, ps);
    GatherIndices(v, sel);
    assert Gather(v, ps) == Compressed(v, sel) + Repeat(v[0], |sel| - Count(sel));
  }

  /** The PSHUFB path with the table row of the mask bits compresses the selected lanes. */
  lemma {:induction false} TableCompress(size: nat, v: seq<nat>, bits: nat)
    requires LaneVector(size, v) && bits < Pow2(|v|)
    ensures |v| > 0
    ensures ShuffleLanes(size, v, CompressIndices(size, bits))
         == Compressed(v, BitsOf(bits, |v|)) + Repeat(v[0], |v| - Count(BitsOf(bits, |v|)))
  {
    CompressIndicesPieces(size, bits);
    assert CompressIndices(size, bits) == IndexPieces(Indices(BitsOf(bits, |v|)), size);
    ShuffleCompress(size, v, BitsOf(bits, |v|));
  }

  /** The lanes selected by the mask bits are the selected active lanes. */
  lemma {:induction false} MaskSelection(size: nat, n: nat, v: seq<nat>, reg: seq<bool>)
    requires MaskShape(size, n, reg) && LaneVector(size, v)
    ensures n <= |v|
    ensures Compressed(v, BitsOf(BitsFromMask(size, n, reg), |v|)) == Compressed(v[..n], reg[..n])
    ensures Count(BitsOf(BitsFromMask(size, n, reg), |v|)) == Count(reg[..n])
  {
    MaskBitsBound(size, n, v, reg);
    BitsFromMaskActive(size, n, reg);
    BitsOfMaskNumberWide(reg[..n], |v|);
    assert BitsOf(BitsFromMask(size, n, reg), |v|) == reg[..n] + Repeat(false, |v| - n);
    CompressedPrefix(v, reg, n);
  }

  /** What CompressStore stores: the first N lanes of Compress, the selected lanes first. */
  lemma {:induction false} StoredLanes(target: Target, size: nat, v: seq<nat>, n: nat, reg: seq<bool>)
    requires MaskShape(size, n, reg) && LaneVector(size, v)
    ensures n <= |Compress(target, size, v, n, reg)|
    ensures Compress(target, size, v, n, reg)[..n]
      == Compressed(v[..n], reg[..n]) + Repeat(Fill(target, size, v), n - Count(reg[..n]))
  {
    StoredPrefix(Compress(target, size, v, n, reg), v, reg, n, Fill(target, size, v));
  }

  /** The first n lanes of lanes kept from the first n, padded to |v|, are those lanes padded to n. */
  lemma StoredPrefix(c: seq<nat>, v: seq<nat>, reg: seq<bool>, n: nat, pad: nat)
    requires n <= |v| == |reg| && c == Compressed(v[..n], reg[..n]) + Repeat(pad, |v| - Count(reg[..n]))
    ensures n <= |c| && c[..n] == Compressed(v[..n], reg[..n]) + Repeat(pad, n - Count(reg[..n]))
  {
    CompressedLength(v[..n], reg[..n]);
    PaddedPrefix(Compressed(v[..n], reg[..n]), pad, |v|, n, Count(reg[..n]));
  }

  /** The first n lanes of kept lanes padded to total lanes are kept padded to n lanes. */
  lemma PaddedPrefix(kept: seq<nat>, pad: nat, total: nat, n: nat, count: nat)
    requires |kept| == count <= n <= total
    ensures (kept + Repeat(pad, total - count))[..n] == kept + Repeat(pad, n - count)
  {
  }
}
