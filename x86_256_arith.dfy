/*
 * Arithmetic of 256-bit registers (x86_256-inl.h): Min and Max of u64 lanes,
 * FirstN, and MulEven / MulOdd of u64 lanes by Knuth double-word
 * multiplication over 32x32 -> 64 bit products.
 */
module X86Arith256 {
  import opened Words
  import opened Targets
  import opened Digits
  import opened X86Compare128
  import opened X86Mask128
  import opened X86Mask256

  // ------------------------------------------------------------ Min / Max

  /** _mm256_cmpgt_epi64: the signed 64-bit compare of every lane. */
  function GtI64x4(a: seq<u64>, b: seq<u64>): (r: seq<bool>)
    requires |a| == |b|
    ensures |r| == |a| && forall i | 0 <= i < |a| :: r[i] == (Signed64(a[i]) > Signed64(b[i]))
  {
    seq(|a|, i requires 0 <= i < |a| => Signed64(a[i]) > Signed64(b[i]))
  }

  /**
   * Min(u64) of 256-bit registers: vpminuq on AVX3; otherwise a ^ msb and
   * b ^ msb are compared as signed lanes and IfThenElse(gt, b, a) is taken.
   */
  function MinU64x4(t: Target, a: seq<u64>, b: seq<u64>): (r: seq<u64>)
    requires |a| == |b| == 4
    ensures |r| == 4
  {
    if t == AVX3 then seq(4, i requires 0 <= i < 4 => if a[i] <= b[i] then a[i] else b[i])
    else IfThenElse(GtI64x4(FlipTops(a), FlipTops(b)), b, a)
  }

  /** Max(u64): vpmaxuq on AVX3, otherwise IfThenElse(gt, a, b) over the flipped compare. */
  function MaxU64x4(t: Target, a: seq<u64>, b: seq<u64>): (r: seq<u64>)
    requires |a| == |b| == 4
    ensures |r| == 4
  {
    if t == AVX3 then seq(4, i requires 0 <= i < 4 => if a[i] >= b[i] then a[i] else b[i])
    else IfThenElse(GtI64x4(FlipTops(a), FlipTops(b)), a, b)
  }

  /** On every target, Min and Max of u64 lanes are the lane-wise unsigned minimum and maximum. */
  lemma MinMaxU64x4Lanes(t: Target, a: seq<u64>, b: seq<u64>)
    requires |a| == |b| == 4
    ensures forall i | 0 <= i < 4 :: MinU64x4(t, a, b)[i] == (if a[i] <= b[i] then a[i] else b[i])
    ensures forall i | 0 <= i < 4 :: MaxU64x4(t, a, b)[i] == (if a[i] >= b[i] then a[i] else b[i])
  {
    forall i | 0 <= i < 4
      ensures Signed64(FlipTop64(a[i])) > Signed64(FlipTop64(b[i])) <==> a[i] > b[i]
    {
      FlipTopOrder64(a[i], b[i]);
    }
  }

  // ------------------------------------------------------------ FirstN

  /** FirstN of a 256-bit register of size-byte lanes. */
  function FirstN256(size: nat, num: nat): (r: seq<bool>)
    requires LaneSize(size)
    ensures |r| == LaneCount256(size)
  {
    FirstN(8 * size, LaneCount256(size), num)
  }

  /** When num fits the signed lane type, exactly the first num lanes are set. */
  lemma FirstN256Lanes(size: nat, num: nat)
    requires LaneSize(size) && num < SignedLimit(8 * size)
    ensures forall i | 0 <= i < LaneCount256(size) :: FirstN256(size, num)[i] <==> i < num
  {
    FirstNLanes(8 * size, LaneCount256(size), num);
  }

  // ------------------------------------------------------------ MulEven / MulOdd

  /** BitCast of u64 lanes to u32 lanes: lane 2j is the low half of lane j, lane 2j + 1 its high half. */
  function Halves32(v: seq<u64>): (r: seq<u32>)
    ensures |r| == 2 * |v|
  {
    seq(2 * |v|, i requires 0 <= i < 2 * |v| => if i % 2 == 0 then Lo(v[i / 2]) else Hi(v[i / 2]))
  }

  /** Shuffle2301: the two 32-bit lanes of every 64-bit pair swapped. */
  function Shuffle2301(w: seq<u32>): (r: seq<u32>)
    requires |w| % 2 == 0
    ensures |r| == |w|
  {
    seq(|w|, i requires 0 <= i < |w| => if i % 2 == 0 then w[i + 1] else w[i - 1])
  }

  /** The full product of two u32 lanes. */
  function MulU32(x: u32, y: u32): (r: u64)
    ensures r == x as int * y
  {
    ProductBelow(x, y, 0x1_0000_0000);
    x * y
  }

  /** MulEven of u32 lanes: u64 lane j is the product of the u32 lanes 2j. */
  function MulEven32(a: seq<u32>, b: seq<u32>): (r: seq<u64>)
    requires |a| == |b| && |a| % 2 == 0
    ensures |r| == |a| / 2
  {
    seq(|a| / 2, j requires 0 <= j < |a| / 2 => MulU32(a[2 * j], b[2 * j]))
  }

  /** operator+ of u64 lanes, wrapping. */
  function Add64(x: u64, y: u64): u64
  {
    (x + y) % 0x1_0000_0000_0000_0000
  }

  function AddLanes(a: seq<u64>, b: seq<u64>): (r: seq<u64>)
    requires |a| == |b|
    ensures |r| == |a| && forall i | 0 <= i < |a| :: r[i] == Add64(a[i], b[i])
  {
    seq(|a|, i requires 0 <= i < |a| => Add64(a[i], b[i]))
  }

  /** v & maskL with maskL = 0xFFFFFFFF: the low 32 bits of every lane. */
  function LowBits(v: seq<u64>): (r: seq<u64>)
    ensures |r| == |v| && forall i | 0 <= i < |v| :: r[i] == v[i] % 0x1_0000_0000
  {
    seq(|v|, i requires 0 <= i < |v| => v[i] % 0x1_0000_0000)
  }

  /** ShiftRight<32> of u64 lanes. */
  function ShiftRight32(v: seq<u64>): (r: seq<u64>)
    ensures |r| == |v| && forall i | 0 <= i < |v| :: r[i] == v[i] / 0x1_0000_0000
  {
    seq(|v|, i requires 0 <= i < |v| => v[i] / 0x1_0000_0000)
  }

  /** ShiftLeft<32> of u64 lanes: the upper 32 bits are shifted out. */
  function ShiftLeft32(v: seq<u64>): (r: seq<u64>)
    ensures |r| == |v| && forall i | 0 <= i < |v| :: r[i] == (v[i] as int * 0x1_0000_0000) % 0x1_0000_0000_0000_0000
  {
    seq(|v|, i requires 0 <= i < |v| => (v[i] as int * 0x1_0000_0000) % 0x1_0000_0000_0000_0000)
  }

  /** The lower (mulL) and upper (mulH) 64 bits of every lane's product. */
  datatype Products = Products(mulL: seq<u64>, mulH: seq<u64>)

  /**
   * The body shared by MulEven and MulOdd: with aH, bH the swapped halves,
   * aLbL = MulEven(a32, b32), t2 = MulEven(aH, b32) + (aLbL >> 32),
   * t = MulEven(a32, bH) + (t2 & maskL), mulH = MulEven(aH, bH) + (t2 >> 32)
   * + (t >> 32) and mulL = (t << 32) + (aLbL & maskL).
   */
  function DoubleWordProducts(a: seq<u64>, b: seq<u64>): (r: Products)
    requires |a| == |b|
    ensures |r.mulL| == |r.mulH| == |a|
  {
    var a32 := Halves32(a);
    var b32 := Halves32(b);
    var aH := Shuffle2301(a32);
    var bH := Shuffle2301(b32);
    var aLbL := MulEven32(a32, b32);
    var w3 := LowBits(aLbL);
    var t2 := AddLanes(MulEven32(aH, b32), ShiftRight32(aLbL));
    var w2 := LowBits(t2);
    var w1 := ShiftRight32(t2);
    var t := AddLanes(MulEven32(a32, bH), w2);
    var k := ShiftRight32(t);
    var mulH := AddLanes(AddLanes(MulEven32(aH, bH), w1), k);
    var mulL := AddLanes(ShiftLeft32(t), w3);
    Products(mulL, mulH)
  }

  /** InterleaveLower of u64 lanes: the lower lane of each 128-bit block of a, then of b. */
  function InterleaveLower64(a: seq<u64>, b: seq<u64>): (r: seq<u64>)
    requires |a| == |b| == 4
    ensures |r| == 4
  {
    [a[0], b[0], a[2], b[2]]
  }

  /** InterleaveUpper of u64 lanes: the upper lane of each 128-bit block of a, then of b. */
  function InterleaveUpper64(a: seq<u64>, b: seq<u64>): (r: seq<u64>)
    requires |a| == |b| == 4
    ensures |r| == 4
  {
    [a[1], b[1], a[3], b[3]]
  }

  /** MulEven(u64): in block k, the low and high 64 bits of a[2k] * b[2k]. */
  function MulEven64(a: seq<u64>, b: seq<u64>): (r: seq<u64>)
    requires |a| == |b| == 4
    ensures |r| == 4
    ensures forall k | 0 <= k < 2 :: r[2 * k] as int + r[2 * k + 1] as int * 0x1_0000_0000_0000_0000 == a[2 * k] as int * b[2 * k]
  {
    var p := DoubleWordProducts(a, b);
    DoubleWordLane(a, b, 0);
    DoubleWordLane(a, b, 2);
    Knuth(a[0], b[0]);
    Knuth(a[2], b[2]);
    InterleaveLower64(p.mulL, p.mulH)
  }

  /** MulOdd(u64): in block k, the low and high 64 bits of a[2k + 1] * b[2k + 1]. */
  function MulOdd64(a: seq<u64>, b: seq<u64>): (r: seq<u64>)
    requires |a| == |b| == 4
    ensures |r| == 4
    ensures forall k | 0 <= k < 2 :: r[2 * k] as int + r[2 * k + 1] as int * 0x1_0000_0000_0000_0000 == a[2 * k + 1] as int * b[2 * k + 1]
  {
    var p := DoubleWordProducts(a, b);
    DoubleWordLane(a, b, 1);
    DoubleWordLane(a, b, 3);
    Knuth(a[1], b[1]);
    Knuth(a[3], b[3]);
    InterleaveUpper64(p.mulL, p.mulH)
  }

  // ---------------------------------------------------------------- lemmas

  /** The product of two numbers below m is at most (m - 1)^2. */
  lemma ProductBelow(x: nat, y: nat, m: nat)
    requires x < m && y < m
    ensures x * y <= (m - 1) * (m - 1)
  {
    assert x * y <= x * (m - 1);
    assert x * (m - 1) <= (m - 1) * (m - 1);
  }

  /** The lower and upper 64 bits of one lane's product. */
  datatype DoubleWord = DoubleWord(lo: u64, hi: u64)

  /** What the shared body computes in one lane, for the u64 lanes x of a and y of b. */
  function LaneProduct(x: u64, y: u64): DoubleWord
  {
    var p0 := MulU32(Lo(x), Lo(y));
    var t2 := Add64(MulU32(Hi(x), Lo(y)), p0 / 0x1_0000_0000);
    var t := Add64(MulU32(Lo(x), Hi(y)), t2 % 0x1_0000_0000);
    var hi := Add64(Add64(MulU32(Hi(x), Hi(y)), t2 / 0x1_0000_0000), t / 0x1_0000_0000);
    var lo := Add64((t as int * 0x1_0000_0000) % 0x1_0000_0000_0000_0000, p0 % 0x1_0000_0000);
    DoubleWord(lo, hi)
  }

  /** Lane j of the shared body is LaneProduct of lane j. */
  lemma DoubleWordLane(a: seq<u64>, b: seq<u64>, j: nat)
    requires |a| == |b| && j < |a|
    ensures DoubleWordProducts(a, b).mulL[j] == LaneProduct(a[j], b[j]).lo
    ensures DoubleWordProducts(a, b).mulH[j] == LaneProduct(a[j], b[j]).hi
  {
    HalvesAt(a, j);
    HalvesAt(b, j);
  }

  /**
   * The schoolbook identity behind Knuth's algorithm, with the quotients and
   * remainders by 2^32 named: p0 = ph:pl, t2 = w1:w2 and t = k:tl.
   */
  lemma KnuthIdentity(al: int, ah: int, bl: int, bh: int, ph: int, pl: int, w1: int, w2: int, k: int, tl: int)
    requires ph * 0x1_0000_0000 + pl == al * bl
    requires w1 * 0x1_0000_0000 + w2 == ah * bl + ph
    requires k * 0x1_0000_0000 + tl == al * bh + w2
    ensures (ah * bh + w1 + k) * 0x1_0000_0000_0000_0000 + tl * 0x1_0000_0000 + pl
         == (ah * 0x1_0000_0000 + al) * (bh * 0x1_0000_0000 + bl)
  {
    var B := 0x1_0000_0000;
    calc {
      (ah * bh + w1 + k) * (B * B) + tl * B + pl;
      ah * bh * (B * B) + w1 * (B * B) + (k * B + tl) * B + pl;
      ah * bh * (B * B) + w1 * (B * B) + (al * bh + w2) * B + pl;
      ah * bh * (B * B) + (w1 * B + w2) * B + al * bh * B + pl;
      ah * bh * (B * B) + (ah * bl + ph) * B + al * bh * B + pl;
      ah * bh * (B * B) + ah * bl * B + al * bh * B + (ph * B + pl);
      ah * bh * (B * B) + ah * bl * B + al * bh * B + al * bl;
      (ah * B + al) * (bh * B + bl);
    }
  }

  /**
   * Knuth's double-word multiplication on one lane: no sum of the algorithm
   * exceeds 64 bits, and hi * 2^64 + lo is the full product.
   */
  lemma Knuth(x: u64, y: u64)
    ensures var B: int := 0x1_0000_0000;
      var p0 := Lo(x) as int * Lo(y);
      var t2 := Hi(x) as int * Lo(y) + p0 / B;
      var t := Lo(x) as int * Hi(y) + t2 % B;
      t2 < B * B && t < B * B && Hi(x) as int * Hi(y) + t2 / B + t / B < B * B
    ensures LaneProduct(x, y).lo as int + LaneProduct(x, y).hi as int * 0x1_0000_0000_0000_0000 == x as int * y
  {
    var B: int := 0x1_0000_0000;
    var al, ah, bl, bh := Lo(x) as int, Hi(x) as int, Lo(y) as int, Hi(y) as int;
    ProductBelow(al, bl, B);
    ProductBelow(ah, bl, B);
    ProductBelow(al, bh, B);
    ProductBelow(ah, bh, B);
    var p0 := al * bl;
    var ph, pl := p0 / B, p0 % B;
    assert ph <= B - 2;
    var t2 := ah * bl + ph;
    assert t2 < B * B;
    var w1, w2 := t2 / B, t2 % B;
    assert w1 <= B - 2;
    var t := al * bh + w2;
    assert t < B * B;
    var k, tl := t / B, t % B;
    assert k <= B - 1;
    ShiftLeftLow(t);
    var P0 := MulU32(Lo(x), Lo(y));
    var T2 := Add64(MulU32(Hi(x), Lo(y)), P0 / B);
    Add64Exact(MulU32(Hi(x), Lo(y)), P0 / B);
    assert T2 as int == t2;
    var T := Add64(MulU32(Lo(x), Hi(y)), T2 % B);
    Add64Exact(MulU32(Lo(x), Hi(y)), T2 % B);
    assert T as int == t;
    var H1 := Add64(MulU32(Hi(x), Hi(y)), T2 / B);
    Add64Exact(MulU32(Hi(x), Hi(y)), T2 / B);
    var H := Add64(H1, T / B);
    Add64Exact(H1, T / B);
    var L := Add64((T as int * B) % (B * B), P0 % B);
    Add64Exact((T as int * B) % (B * B), P0 % B);
    assert LaneProduct(x, y) == DoubleWord(L, H);
    assert H as int == ah * bh + w1 + k;
    assert L as int == tl * B + pl;
    KnuthIdentity(al, ah, bl, bh, ph, pl, w1, w2, k, tl);
    HalvesOf(x);
    HalvesOf(y);
  }

  /** An addition of u64 lanes that does not carry out is exact. */
  lemma Add64Exact(x: u64, y: u64)
    requires x as int + y < 0x1_0000_0000_0000_0000
    ensures Add64(x, y) == x + y
  {
  }

  /** Shifting t left by 32 bits keeps its low half, moved up. */
  lemma ShiftLeftLow(t: u64)
    ensures (t as int * 0x1_0000_0000) % 0x1_0000_0000_0000_0000 == (t as int % 0x1_0000_0000) * 0x1_0000_0000
  {
    var B: int := 0x1_0000_0000;
    assert t * B == (t / B) * (B * B) + (t % B) * B;
    DivModUnique(t * B, t / B, (t % B) * B, B * B);
  }

  /** The u32 lanes of a u64 lane and of its swapped copy. */
  lemma HalvesAt(a: seq<u64>, j: nat)
    requires j < |a|
    ensures Halves32(a)[2 * j] == Lo(a[j]) && Halves32(a)[2 * j + 1] == Hi(a[j])
    ensures Shuffle2301(Halves32(a))[2 * j] == Hi(a[j])
  {
  }

  /** The low and high lanes of MulEven are the product modulo 2^64 and its upper 64 bits. */
  lemma MulEven64Halves(a: seq<u64>, b: seq<u64>, k: nat)
    requires |a| == |b| == 4 && k < 2
    ensures MulEven64(a, b)[2 * k] == (a[2 * k] as int * b[2 * k]) % 0x1_0000_0000_0000_0000
    ensures MulEven64(a, b)[2 * k + 1] == (a[2 * k] as int * b[2 * k]) / 0x1_0000_0000_0000_0000
  {
    var r := MulEven64(a, b);
    DivModUnique(a[2 * k] as int * b[2 * k], r[2 * k + 1], r[2 * k], 0x1_0000_0000_0000_0000);
  }

  lemma MulOdd64Halves(a: seq<u64>, b: seq<u64>, k: nat)
    requires |a| == |b| == 4 && k < 2
    ensures MulOdd64(a, b)[2 * k] == (a[2 * k + 1] as int * b[2 * k + 1]) % 0x1_0000_0000_0000_0000
    ensures MulOdd64(a, b)[2 * k + 1] == (a[2 * k + 1] as int * b[2 * k + 1]) / 0x1_0000_0000_0000_0000
  {
    var r := MulOdd64(a, b);
    DivModUnique(a[2 * k + 1] as int * b[2 * k + 1], r[2 * k + 1], r[2 * k], 0x1_0000_0000_0000_0000);
  }
}
