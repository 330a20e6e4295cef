/*
 * Bit-level ops of the Highway x86 128-bit target (hwy/ops/x86_128-inl.h):
 * the 8-bit shifts emulated with 16-bit shifts, BroadcastSignBit, the i64
 * arithmetic shift built from logical shifts, detail::SignedShr, TestBit
 * and the two IfThenElse implementations.
 *
 * Byte lanes are bv8 (a 16-bit instruction sees a pair of bytes, low byte
 * first); the wider lanes are LaneBits sequences, one per lane.
 */
module X86Bits128 {
  import opened LaneBits
  import opened Targets
  import X86Compare128

  // ------------------------------------------------------ 8-bit lane shifts

  function Low8(w: bv16): bv8 { (w & 0xFF) as bv8 }
  function High8(w: bv16): bv8 { (w >> 8) as bv8 }
  function Pair(lo: bv8, hi: bv8): bv16 { ((hi as bv16) << 8) | (lo as bv16) }

  /** psllw, psrlw and byte-wise pand, paddb, pxor, psubb on one lane. */
  function Shl16(w: bv16, k: bv3): bv16 { w << k }
  function Shr16(w: bv16, k: bv3): bv16 { w >> k }
  function And8(x: bv8, y: bv8): bv8 { x & y }
  function Add8(x: bv8, y: bv8): bv8 { x + y }
  function XorSub8(x: bv8, m: bv8): bv8 { (x ^ m) - m }

  /** The register viewed as 16-bit lanes: lane j holds bytes 2j (low) and 2j+1 (high). */
  function Words16(v: seq<bv8>): (r: seq<bv16>)
    requires |v| % 2 == 0
    ensures |r| == |v| / 2
  {
    seq(|v| / 2, j requires 0 <= j < |v| / 2 => Pair(v[2 * j], v[2 * j + 1]))
  }

  /** The register viewed as bytes again. */
  function Bytes(w: seq<bv16>): (r: seq<bv8>)
    ensures |r| == 2 * |w|
  {
    seq(2 * |w|, i requires 0 <= i < 2 * |w| => if i % 2 == 0 then Low8(w[i / 2]) else High8(w[i / 2]))
  }

  /** psllw and psrlw by k on the 16-bit view of a byte register. */
  function ShlWords(v: seq<bv8>, k: bv3): (r: seq<bv16>)
    requires |v| % 2 == 0
    ensures |r| == |v| / 2
  {
    seq(|v| / 2, j requires 0 <= j < |v| / 2 => Shl16(Words16(v)[j], k))
  }

  function ShrWords(v: seq<bv8>, k: bv3): (r: seq<bv16>)
    requires |v| % 2 == 0
    ensures |r| == |v| / 2
  {
    seq(|v| / 2, j requires 0 <= j < |v| / 2 => Shr16(Words16(v)[j], k))
  }

  /**
   * ShiftLeft<k> on 8-bit lanes: k == 1 adds the vector to itself; other
   * counts shift the 16-bit lanes (psllw) and clear the bits that crossed
   * from the lower byte with the byte mask (0xFF << k) & 0xFF.
   */
  function ShiftLeftU8(k: bv3, v: seq<bv8>): (r: seq<bv8>)
    requires |v| % 2 == 0
    ensures |r| == |v|
  {
    if k == 1 then seq(|v|, i requires 0 <= i < |v| => Add8(v[i], v[i]))
    else
      var shifted := Bytes(ShlWords(v, k));
      var mask := Low8(0xFF << k);
      seq(|v|, i requires 0 <= i < |v| => And8(shifted[i], mask))
  }

  /** u8 ShiftRight<k>: psrlw on the 16-bit lanes, then the byte mask 0xFF >> k. */
  function ShiftRightU8(k: bv3, v: seq<bv8>): (r: seq<bv8>)
    requires |v| % 2 == 0
    ensures |r| == |v|
  {
    var shifted := Bytes(ShrWords(v, k));
    var mask: bv8 := 0xFF >> k;
    seq(|v|, i requires 0 <= i < |v| => And8(shifted[i], mask))
  }

  /**
   * i8 ShiftRight<k>: the logical shift, then (s ^ m) - m with m = 0x80 >> k,
   * the position the sign bit was shifted to.
   */
  function ShiftRightI8(k: bv3, v: seq<bv8>): (r: seq<bv8>)
    requires |v| % 2 == 0
    ensures |r| == |v|
  {
    var shifted := ShiftRightU8(k, v);
    var m: bv8 := 0x80 >> k;
    seq(|v|, i requires 0 <= i < |v| => XorSub8(shifted[i], m))
  }

  /** Arithmetic right shift of one byte (the vacated bits copy the sign bit). */
  function Sra8(x: bv8, k: bv3): bv8
  {
    if x >> 7 == 0 then x >> k else !((!x) >> k)
  }

  /** One 16-bit lane shifted and masked gives both of its bytes shifted on their own. */
  lemma ShiftPairLeftLow(lo: bv8, hi: bv8, k: bv3)
    ensures Low8(Shl16(Pair(lo, hi), k)) & Low8(0xFF << k) == lo << k
  {
  }

  lemma ShiftPairLeftHigh(lo: bv8, hi: bv8, k: bv3)
    ensures High8(Shl16(Pair(lo, hi), k)) & Low8(0xFF << k) == hi << k
  {
  }

  lemma ShiftPairRightLow(lo: bv8, hi: bv8, k: bv3)
    ensures Low8(Shr16(Pair(lo, hi), k)) & (0xFF >> k) == lo >> k
  {
  }

  lemma ShiftPairRightHigh(lo: bv8, hi: bv8, k: bv3)
    ensures High8(Shr16(Pair(lo, hi), k)) & (0xFF >> k) == hi >> k
  {
  }

  /** Byte i of the shifted register comes from 16-bit lane i / 2, as its low or high half. */
  lemma ShlByte(v: seq<bv8>, k: bv3, i: nat)
    requires |v| % 2 == 0 && i < |v|
    ensures i % 2 == 0 ==> i + 1 < |v| && Bytes(ShlWords(v, k))[i] == Low8(Shl16(Pair(v[i], v[i + 1]), k))
    ensures i % 2 == 1 ==> Bytes(ShlWords(v, k))[i] == High8(Shl16(Pair(v[i - 1], v[i]), k))
  {
    var j := i / 2;
    assert i == 2 * j || i == 2 * j + 1;
  }

  lemma ShrByte(v: seq<bv8>, k: bv3, i: nat)
    requires |v| % 2 == 0 && i < |v|
    ensures i % 2 == 0 ==> i + 1 < |v| && Bytes(ShrWords(v, k))[i] == Low8(Shr16(Pair(v[i], v[i + 1]), k))
    ensures i % 2 == 1 ==> Bytes(ShrWords(v, k))[i] == High8(Shr16(Pair(v[i - 1], v[i]), k))
  {
    var j := i / 2;
    assert i == 2 * j || i == 2 * j + 1;
  }

  /** Every byte of ShiftLeft<k> is that byte shifted left by k, modulo 256. */
  lemma ShiftLeftU8Lanes(k: bv3, v: seq<bv8>)
    requires |v| % 2 == 0
    ensures forall i | 0 <= i < |v| :: ShiftLeftU8(k, v)[i] == v[i] << k
  {
    forall i | 0 <= i < |v| ensures ShiftLeftU8(k, v)[i] == v[i] << k {
      if k == 1 {
        Doubling(v[i]);
      } else {
        ShiftLeftU8At(k, v, i);
      }
    }
  }

  lemma Doubling(x: bv8)
    ensures Add8(x, x) == x << 1
  {
  }

  lemma ShiftLeftU8At(k: bv3, v: seq<bv8>, i: nat)
    requires |v| % 2 == 0 && i < |v| && k != 1
    ensures ShiftLeftU8(k, v)[i] == v[i] << k
  {
    ShlByte(v, k, i);
    if i % 2 == 0 {
      ShiftPairLeftLow(v[i], v[i + 1], k);
    } else {
      ShiftPairLeftHigh(v[i - 1], v[i], k);
    }
  }

  lemma ShiftRightU8Lanes(k: bv3, v: seq<bv8>)
    requires |v| % 2 == 0
    ensures forall i | 0 <= i < |v| :: ShiftRightU8(k, v)[i] == v[i] >> k
  {
    forall i | 0 <= i < |v| ensures ShiftRightU8(k, v)[i] == v[i] >> k {
      ShrByte(v, k, i);
      if i % 2 == 0 {
        ShiftPairRightLow(v[i], v[i + 1], k);
      } else {
        ShiftPairRightHigh(v[i - 1], v[i], k);
      }
    }
  }

  /** Every byte of the i8 ShiftRight<k> is the arithmetic shift of that byte. */
  lemma ShiftRightI8Lanes(k: bv3, v: seq<bv8>)
    requires |v| % 2 == 0
    ensures forall i | 0 <= i < |v| :: ShiftRightI8(k, v)[i] == Sra8(v[i], k)
  {
    ShiftRightU8Lanes(k, v);
    forall i | 0 <= i < |v| ensures ShiftRightI8(k, v)[i] == Sra8(v[i], k) {
      SignFix(v[i], k);
    }
  }

  lemma SignFix(x: bv8, k: bv3)
    ensures XorSub8(x >> k, 0x80 >> k) == Sra8(x, k)
  {
  }

  // ------------------------------------------------ wider lanes, as bits

  /** Every lane of the register has w bits. */
  predicate Lanes(v: seq<Bits>, w: nat)
  {
    forall i | 0 <= i < |v| :: |v[i]| == w
  }

  /**
   * BroadcastSignBit on 8-, 16- and 32-bit lanes: VecFromMask(v < 0) for
   * bytes, psraw by 15 and psrad by 31 for the others.
   */
  function BroadcastSignBit(w: nat, x: Bits): (r: Bits)
    requires w == 8 || w == 16 || w == 32
    requires |x| == w
    ensures |r| == w
  {
    if w == 8 then Fill(8, SignedValue(x) < 0) else Sra(x, w - 1)
  }

  /**
   * BroadcastSignBit on the two i64 lanes of a register, per target: psraq by
   * 63 (AVX3); VecFromMask(v < 0) (AVX2, SSE4); on SSSE3 psrad by 31 on the
   * 32-bit view, then pshufd(3, 3, 1, 1) copies each upper half's result to
   * both halves of its lane.
   */
  function BroadcastSignBit64(t: Target, v: seq<Bits>): (r: seq<Bits>)
    requires |v| == 2 && Lanes(v, 64)
    ensures |r| == 2 && Lanes(r, 64)
  {
    if t == AVX3 then [Sra(v[0], 63), Sra(v[1], 63)]
    else if t == AVX2 || t == SSE4 then [Fill(64, SignedValue(v[0]) < 0), Fill(64, SignedValue(v[1]) < 0)]
    else
      var d32 := [v[0][..32], v[0][32..], v[1][..32], v[1][32..]];
      var sign := seq(4, k requires 0 <= k < 4 => Sra(d32[k], 31));
      var s := X86Compare128.Shuffle32(sign, 3, 3, 1, 1);
      [s[0] + s[1], s[2] + s[3]]
  }

  /** On every lane width and target, each lane becomes all ones exactly when it is negative. */
  lemma BroadcastSignBitNegative(w: nat, x: Bits)
    requires (w == 8 || w == 16 || w == 32) && |x| == w
    ensures BroadcastSignBit(w, x) == Fill(w, SignedValue(x) < 0)
  {
    Negative(x);
  }

  lemma BroadcastSignBit64Negative(t: Target, v: seq<Bits>)
    requires |v| == 2 && Lanes(v, 64)
    ensures BroadcastSignBit64(t, v)[0] == Fill(64, SignedValue(v[0]) < 0)
    ensures BroadcastSignBit64(t, v)[1] == Fill(64, SignedValue(v[1]) < 0)
  {
    Negative(v[0]);
    Negative(v[1]);
    if t == SSSE3 {
      BroadcastSignBitSsse3(v);
    }
  }

  lemma BroadcastSignBitSsse3(v: seq<Bits>)
    requires |v| == 2 && Lanes(v, 64)
    ensures BroadcastSignBit64(SSSE3, v) == [Fill(64, v[0][63]), Fill(64, v[1][63])]
  {
    UpperSign(v[0]);
    UpperSign(v[1]);
    var d32 := [v[0][..32], v[0][32..], v[1][..32], v[1][32..]];
    var sign := seq(4, k requires 0 <= k < 4 => Sra(d32[k], 31));
    var s := X86Compare128.Shuffle32(sign, 3, 3, 1, 1);
    assert s[0] == sign[1] && s[1] == sign[1];
    assert s[2] == sign[3] && s[3] == sign[3];
  }

  /** psrad by 31 on the upper half, copied to both halves, fills the lane with its sign. */
  lemma UpperSign(x: Bits)
    requires |x| == 64
    ensures Sra(x[32..], 31) + Sra(x[32..], 31) == Fill(64, x[63])
  {
    var h := Sra(x[32..], 31);
    assert forall i | 0 <= i < 32 :: h[i] == x[63];
  }

  /**
   * i64 ShiftRight<k>: psraq on AVX3; otherwise the logical shift ORed with
   * the broadcast sign shifted left by 64 - k.
   */
  function ShiftRightI64(t: Target, k: nat, v: seq<Bits>): (r: seq<Bits>)
    requires |v| == 2 && Lanes(v, 64) && k < 64
    ensures |r| == 2 && Lanes(r, 64)
  {
    if t == AVX3 then [Sra(v[0], k), Sra(v[1], k)]
    else
      var sign := BroadcastSignBit64(t, v);
      [Or(Shr(v[0], k), Shl(sign[0], 64 - k)), Or(Shr(v[1], k), Shl(sign[1], 64 - k))]
  }

  /** On every target the i64 ShiftRight<k> is the arithmetic shift of each lane. */
  lemma ShiftRightI64Lanes(t: Target, k: nat, v: seq<Bits>)
    requires |v| == 2 && Lanes(v, 64) && k < 64
    ensures ShiftRightI64(t, k, v) == [Sra(v[0], k), Sra(v[1], k)]
  {
    BroadcastSignBit64Negative(t, v);
    Negative(v[0]);
    Negative(v[1]);
    ShrOrSign(v[0], k);
    ShrOrSign(v[1], k);
  }

  /** The logical shift ORed with the sign moved into the vacated bits is the arithmetic shift. */
  lemma ShrOrSign(x: Bits, k: nat)
    requires |x| > 0 && k < |x|
    ensures Or(Shr(x, k), Shl(Fill(|x|, x[|x| - 1]), |x| - k)) == Sra(x, k)
  {
  }

  /**
   * detail::SignedShr, used by operator>> on i16, i32 and i64 lanes below
   * AVX3: clear the sign by XOR with the broadcast sign, shift logically by
   * each lane's count, and XOR the sign back.
   */
  function SignedShr(sign: seq<Bits>, v: seq<Bits>, count: seq<nat>): (r: seq<Bits>)
    requires |sign| == |v| == |count|
    requires forall i | 0 <= i < |v| :: |sign[i]| == |v[i]|
    ensures |r| == |v|
  {
    seq(|v|, i requires 0 <= i < |v| => Xor(Shr(Xor(v[i], sign[i]), count[i]), sign[i]))
  }

  /** operator>> on i16 or i32 lanes below AVX3. */
  function ShrSigned(w: nat, v: seq<Bits>, count: seq<nat>): (r: seq<Bits>)
    requires (w == 16 || w == 32) && Lanes(v, w) && |count| == |v|
    ensures |r| == |v|
  {
    SignedShr(seq(|v|, i requires 0 <= i < |v| => BroadcastSignBit(w, v[i])), v, count)
  }

  /** operator>> on i64 lanes: psravq on AVX3, SignedShr otherwise. */
  function ShrSigned64(t: Target, v: seq<Bits>, count: seq<nat>): (r: seq<Bits>)
    requires |v| == 2 && Lanes(v, 64) && |count| == 2
    ensures |r| == 2
  {
    if t == AVX3 then [Sra(v[0], count[0]), Sra(v[1], count[1])]
    else SignedShr(BroadcastSignBit64(t, v), v, count)
  }

  /** With the broadcast sign, SignedShr is the arithmetic shift, for every count. */
  lemma SignedShrLane(x: Bits, c: nat)
    requires |x| > 0
    ensures Xor(Shr(Xor(x, Fill(|x|, x[|x| - 1])), c), Fill(|x|, x[|x| - 1])) == Sra(x, c)
  {
  }

  lemma ShrSignedLanes(w: nat, v: seq<Bits>, count: seq<nat>)
    requires (w == 16 || w == 32) && Lanes(v, w) && |count| == |v|
    ensures forall i | 0 <= i < |v| :: ShrSigned(w, v, count)[i] == Sra(v[i], count[i])
  {
    forall i | 0 <= i < |v| ensures ShrSigned(w, v, count)[i] == Sra(v[i], count[i]) {
      BroadcastSignBitNegative(w, v[i]);
      Negative(v[i]);
      SignedShrLane(v[i], count[i]);
    }
  }

  lemma ShrSigned64Lanes(t: Target, v: seq<Bits>, count: seq<nat>)
    requires |v| == 2 && Lanes(v, 64) && |count| == 2
    ensures ShrSigned64(t, v, count) == [Sra(v[0], count[0]), Sra(v[1], count[1])]
  {
    BroadcastSignBit64Negative(t, v);
    Negative(v[0]);
    Negative(v[1]);
    SignedShrLane(v[0], count[0]);
    SignedShrLane(v[1], count[1]);
  }

  // ---------------------------------------------------------------- TestBit

  /** TestBit: (v & bit) == bit. */
  predicate TestBit(x: Bits, bit: Bits)
    requires |x| == |bit|
  {
    And(x, bit) == bit
  }

  /** A lane passes exactly when it has every bit that is set in bit. */
  lemma TestBitMeans(x: Bits, bit: Bits)
    requires |x| == |bit|
    ensures TestBit(x, bit) <==> forall j | 0 <= j < |x| :: bit[j] ==> x[j]
  {
    if forall j | 0 <= j < |x| :: bit[j] ==> x[j] {
      assert And(x, bit) == bit;
    }
  }

  // ------------------------------------------------------------- IfThenElse

  /** SSSE3 IfThenElse: Or(And(mask, yes), AndNot(mask, no)). */
  function IfThenElseSsse3(mask: Bits, yes: Bits, no: Bits): (r: Bits)
    requires |mask| == |yes| == |no|
    ensures |r| == |mask|
  {
    Or(And(mask, yes), AndNot(mask, no))
  }

  /** pblendvb: each byte from yes where the top bit of that mask byte is set, else from no. */
  function Blendv(mask: Bits, yes: Bits, no: Bits): (r: Bits)
    requires |mask| == |yes| == |no| && |mask| % 8 == 0
    ensures |r| == |mask|
  {
    seq(|mask|, j requires 0 <= j < |mask| => if mask[j - j % 8 + 7] then yes[j] else no[j])
  }

  /** With a mask lane that is all ones or all zeros, both select the whole lane. */
  lemma IfThenElseSelects(w: nat, c: bool, yes: Bits, no: Bits)
    requires |yes| == |no| == w && w % 8 == 0
    ensures IfThenElseSsse3(Fill(w, c), yes, no) == (if c then yes else no)
    ensures Blendv(Fill(w, c), yes, no) == (if c then yes else no)
  {
  }
}
