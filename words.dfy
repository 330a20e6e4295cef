/*
 * Lanes read as numbers.  A lane of w bits holds a value in [0, 2^w); its
 * two's-complement reading is Signed.  The ops whose meaning is an order or
 * an arithmetic result (compares, min/max, products, sums, saturation) are
 * modelled on these values; the ops whose meaning is a bit pattern (shifts,
 * mask bits, shuffle tables) are modelled on bit-vectors.
 */
module Words {

  type u8 = x: int | 0 <= x < 0x100
  type u16 = x: int | 0 <= x < 0x1_0000
  type u32 = x: int | 0 <= x < 0x1_0000_0000
  type u64 = x: int | 0 <= x < 0x1_0000_0000_0000_0000

  /** Two's-complement reading of a lane's bits. */
  function Signed8(x: u8): (r: int)
    ensures -0x80 <= r < 0x80
  {
    if x < 0x80 then x else x - 0x100
  }

  function Signed16(x: u16): (r: int)
    ensures -0x8000 <= r < 0x8000
  {
    if x < 0x8000 then x else x - 0x1_0000
  }

  function Signed32(x: u32): (r: int)
    ensures -0x8000_0000 <= r < 0x8000_0000
  {
    if x < 0x8000_0000 then x else x - 0x1_0000_0000
  }

  function Signed64(x: u64): (r: int)
    ensures -0x8000_0000_0000_0000 <= r < 0x8000_0000_0000_0000
  {
    if x < 0x8000_0000_0000_0000 then x else x - 0x1_0000_0000_0000_0000
  }

  /** x ^ msb: XOR with the most significant bit toggles that bit. */
  function FlipTop16(x: u16): u16
  {
    if x < 0x8000 then x + 0x8000 else x - 0x8000
  }

  function FlipTop32(x: u32): u32
  {
    if x < 0x8000_0000 then x + 0x8000_0000 else x - 0x8000_0000
  }

  function FlipTop64(x: u64): u64
  {
    if x < 0x8000_0000_0000_0000 then x + 0x8000_0000_0000_0000 else x - 0x8000_0000_0000_0000
  }

  /** Lower and upper 32-bit half of a 64-bit lane (little-endian BitCast). */
  function Lo(x: u64): u32 { x % 0x1_0000_0000 }
  function Hi(x: u64): u32 { x / 0x1_0000_0000 }

  /** The 64-bit lane with the given halves. */
  function Join(hi: u32, lo: u32): (r: u64)
    ensures Hi(r) == hi && Lo(r) == lo
  {
    hi * 0x1_0000_0000 + lo
  }

  /** The lane widths of the x86 ops. */
  predicate LaneWidth(w: nat) { w == 8 || w == 16 || w == 32 || w == 64 }

  /** 2^(w-1): the first count that does not fit the signed lane type. */
  function SignedLimit(w: nat): (r: int)
    requires LaneWidth(w)
  {
    if w == 8 then 0x80 else if w == 16 then 0x8000 else if w == 32 then 0x8000_0000
    else 0x8000_0000_0000_0000
  }

  /**
   * A count cast to the signed lane type of w bits: truncated to w bits and
   * read in two's complement.
   */
  function CastSigned(w: nat, x: nat): (r: int)
    requires LaneWidth(w)
    ensures -SignedLimit(w) <= r < SignedLimit(w)
    ensures x < SignedLimit(w) ==> r == x
  {
    if w == 8 then Signed8(x % 0x100)
    else if w == 16 then Signed16(x % 0x1_0000)
    else if w == 32 then Signed32(x % 0x1_0000_0000)
    else Signed64(x % 0x1_0000_0000_0000_0000)
  }

  // ---------------------------------------------------------------- lemmas

  /** A 64-bit lane is determined by its halves. */
  lemma HalvesOf(x: u64)
    ensures x == Hi(x) * 0x1_0000_0000 + Lo(x)
  {
  }

  lemma JoinHalves(x: u64)
    ensures Join(Hi(x), Lo(x)) == x
  {
  }

  /** Two lanes are equal exactly when both halves are. */
  lemma EqualHalves(x: u64, y: u64)
    ensures x == y <==> Hi(x) == Hi(y) && Lo(x) == Lo(y)
  {
    HalvesOf(x);
    HalvesOf(y);
  }

  /**
   * The signed 64-bit order read from the halves: the upper halves decide
   * as signed numbers, and when they are equal the lower halves decide as
   * unsigned numbers.
   */
  lemma Signed64Halves(x: u64, y: u64)
    ensures Signed64(x) > Signed64(y) <==>
      Signed32(Hi(x)) > Signed32(Hi(y)) || (Hi(x) == Hi(y) && Lo(x) > Lo(y))
  {
    HalvesOf(x);
    HalvesOf(y);
  }

  /** Toggling the top bit turns the unsigned order into the signed order. */
  lemma FlipTopOrder16(x: u16, y: u16)
    ensures Signed16(FlipTop16(x)) > Signed16(FlipTop16(y)) <==> x > y
  {
  }

  lemma FlipTopOrder32(x: u32, y: u32)
    ensures Signed32(FlipTop32(x)) > Signed32(FlipTop32(y)) <==> x > y
  {
  }

  lemma FlipTopOrder64(x: u64, y: u64)
    ensures Signed64(FlipTop64(x)) > Signed64(FlipTop64(y)) <==> x > y
  {
  }
}
