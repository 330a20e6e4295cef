/*
 * The index tables of the SSSE3/SSE4 Compress (x86_128-inl.h), transcribed
 * from the source and shown to be instances of one closed form.
 *
 * Row m of a table is the index vector for mask bits m, stored as bytes.
 * Here each row is written as one number whose little-endian base-256
 * digits are those bytes: byte i of row m is digit i (the leftmost pair
 * of hex digits is the last byte of the row).
 * Each table is shown equal, row by row, to Packed of IndexTables, whose
 * slots are the lane indices of the selected lanes followed by zeros.
 */
module X86Tables128 {
  import opened Lanes
  import opened Digits
  import opened IndexTables

  // ------------------------------------------------------------ Idx16x8FromBits

  /*
   * table[256 * 8]: for mask bits m, the doubled lane indices (2 * lane) of the
   * selected 16-bit lanes, then zeros.  Row m is bytes 8 * m .. 8 * m + 7, so
   * the leftmost byte of each literal is the eighth entry of its row.
   * The 256 rows are kept in 32 parts of 8 rows (part h holds rows 8 * h ..).
   */
  const Idx16x8Part0: seq<nat> := [
    0x00_00_00_00_00_00_00_00,
    0x00_00_00_00_00_00_00_00,
    0x00_00_00_00_00_00_00_02,
    0x00_00_00_00_00_00_02_00,
    0x00_00_00_00_00_00_00_04,
    0x00_00_00_00_00_00_04_00,
    0x00_00_00_00_00_00_04_02,
    0x00_00_00_00_00_04_02_00
  ]

  const Idx16x8Part1: seq<nat> := [
    0x00_00_00_00_00_00_00_06,
    0x00_00_00_00_00_00_06_00,
    0x00_00_00_00_00_00_06_02,
    0x00_00_00_00_00_06_02_00,
    0x00_00_00_00_00_00_06_04,
    0x00_00_00_00_00_06_04_00,
    0x00_00_00_00_00_06_04_02,
    0x00_00_00_00_06_04_02_00
  ]

  const Idx16x8Part2: seq<nat> := [
    0x00_00_00_00_00_00_00_08,
    0x00_00_00_00_00_00_08_00,
    0x00_00_00_00_00_00_08_02,
    0x00_00_00_00_00_08_02_00,
    0x00_00_00_00_00_00_08_04,
    0x00_00_00_00_00_08_04_00,
    0x00_00_00_00_00_08_04_02,
    0x00_00_00_00_08_04_02_00
  ]

  const Idx16x8Part3: seq<nat> := [
    0x00_00_00_00_00_00_08_06,
    0x00_00_00_00_00_08_06_00,
    0x00_00_00_00_00_08_06_02,
    0x00_00_00_00_08_06_02_00,
    0x00_00_00_00_00_08_06_04,
    0x00_00_00_00_08_06_04_00,
    0x00_00_00_00_08_06_04_02,
    0x00_00_00_08_06_04_02_00
  ]

  const Idx16x8Part4: seq<nat> := [
    0x00_00_00_00_00_00_00_0a,
    0x00_00_00_00_00_00_0a_00,
    0x00_00_00_00_00_00_0a_02,
    0x00_00_00_00_00_0a_02_00,
    0x00_00_00_00_00_00_0a_04,
    0x00_00_00_00_00_0a_04_00,
    0x00_00_00_00_00_0a_04_02,
    0x00_00_00_00_0a_04_02_00
  ]

  const Idx16x8Part5: seq<nat> := [
    0x00_00_00_00_00_00_0a_06,
    0x00_00_00_00_00_0a_06_00,
    0x00_00_00_00_00_0a_06_02,
    0x00_00_00_00_0a_06_02_00,
    0x00_00_00_00_00_0a_06_04,
    0x00_00_00_00_0a_06_04_00,
    0x00_00_00_00_0a_06_04_02,
    0x00_00_00_0a_06_04_02_00
  ]

  const Idx16x8Part6: seq<nat> := [
    0x00_00_00_00_00_00_0a_08,
    0x00_00_00_00_00_0a_08_00,
    0x00_00_00_00_00_0a_08_02,
    0x00_00_00_00_0a_08_02_00,
    0x00_00_00_00_00_0a_08_04,
    0x00_00_00_00_0a_08_04_00,
    0x00_00_00_00_0a_08_04_02,
    0x00_00_00_0a_08_04_02_00
  ]

  const Idx16x8Part7: seq<nat> := [
    0x00_00_00_00_00_0a_08_06,
    0x00_00_00_00_0a_08_06_00,
    0x00_00_00_00_0a_08_06_02,
    0x00_00_00_0a_08_06_02_00,
    0x00_00_00_00_0a_08_06_04,
    0x00_00_00_0a_08_06_04_00,
    0x00_00_00_0a_08_06_04_02,
    0x00_00_0a_08_06_04_02_00
  ]

  const Idx16x8Part8: seq<nat> := [
    0x00_00_00_00_00_00_00_0c,
    0x00_00_00_00_00_00_0c_00,
    0x00_00_00_00_00_00_0c_02,
    0x00_00_00_00_00_0c_02_00,
    0x00_00_00_00_00_00_0c_04,
    0x00_00_00_00_00_0c_04_00,
    0x00_00_00_00_00_0c_04_02,
    0x00_00_00_00_0c_04_02_00
  ]

  const Idx16x8Part9: seq<nat> := [
    0x00_00_00_00_00_00_0c_06,
    0x00_00_00_00_00_0c_06_00,
    0x00_00_00_00_00_0c_06_02,
    0x00_00_00_00_0c_06_02_00,
    0x00_00_00_00_00_0c_06_04,
    0x00_00_00_00_0c_06_04_00,
    0x00_00_00_00_0c_06_04_02,
    0x00_00_00_0c_06_04_02_00
  ]

  const Idx16x8Part10: seq<nat> := [
    0x00_00_00_00_00_00_0c_08,
    0x00_00_00_00_00_0c_08_00,
    0x00_00_00_00_00_0c_08_02,
    0x00_00_00_00_0c_08_02_00,
    0x00_00_00_00_00_0c_08_04,
    0x00_00_00_00_0c_08_04_00,
    0x00_00_00_00_0c_08_04_02,
    0x00_00_00_0c_08_04_02_00
  ]

  const Idx16x8Part11: seq<nat> := [
    0x00_00_00_00_00_0c_08_06,
    0x00_00_00_00_0c_08_06_00,
    0x00_00_00_00_0c_08_06_02,
    0x00_00_00_0c_08_06_02_00,
    0x00_00_00_00_0c_08_06_04,
    0x00_00_00_0c_08_06_04_00,
    0x00_00_00_0c_08_06_04_02,
    0x00_00_0c_08_06_04_02_00
  ]

  const Idx16x8Part12: seq<nat> := [
    0x00_00_00_00_00_00_0c_0a,
    0x00_00_00_00_00_0c_0a_00,
    0x00_00_00_00_00_0c_0a_02,
    0x00_00_00_00_0c_0a_02_00,
    0x00_00_00_00_00_0c_0a_04,
    0x00_00_00_00_0c_0a_04_00,
    0x00_00_00_00_0c_0a_04_02,
    0x00_00_00_0c_0a_04_02_00
  ]

  const Idx16x8Part13: seq<nat> := [
    0x00_00_00_00_00_0c_0a_06,
    0x00_00_00_00_0c_0a_06_00,
    0x00_00_00_00_0c_0a_06_02,
    0x00_00_00_0c_0a_06_02_00,
    0x00_00_00_00_0c_0a_06_04,
    0x00_00_00_0c_0a_06_04_00,
    0x00_00_00_0c_0a_06_04_02,
    0x00_00_0c_0a_06_04_02_00
  ]

  const Idx16x8Part14: seq<nat> := [
    0x00_00_00_00_00_0c_0a_08,
    0x00_00_00_00_0c_0a_08_00,
    0x00_00_00_00_0c_0a_08_02,
    0x00_00_00_0c_0a_08_02_00,
    0x00_00_00_00_0c_0a_08_04,
    0x00_00_00_0c_0a_08_04_00,
    0x00_00_00_0c_0a_08_04_02,
    0x00_00_0c_0a_08_04_02_00
  ]

  const Idx16x8Part15: seq<nat> := [
    0x00_00_00_00_0c_0a_08_06,
    0x00_00_00_0c_0a_08_06_00,
    0x00_00_00_0c_0a_08_06_02,
    0x00_00_0c_0a_08_06_02_00,
    0x00_00_00_0c_0a_08_06_04,
    0x00_00_0c_0a_08_06_04_00,
    0x00_00_0c_0a_08_06_04_02,
    0x00_0c_0a_08_06_04_02_00
  ]

  const Idx16x8Part16: seq<nat> := [
    0x00_00_00_00_00_00_00_0e,
    0x00_00_00_00_00_00_0e_00,
    0x00_00_00_00_00_00_0e_02,
    0x00_00_00_00_00_0e_02_00,
    0x00_00_00_00_00_00_0e_04,
    0x00_00_00_00_00_0e_04_00,
    0x00_00_00_00_00_0e_04_02,
    0x00_00_00_00_0e_04_02_00
  ]

  const Idx16x8Part17: seq<nat> := [
    0x00_00_00_00_00_00_0e_06,
    0x00_00_00_00_00_0e_06_00,
    0x00_00_00_00_00_0e_06_02,
    0x00_00_00_00_0e_06_02_00,
    0x00_00_00_00_00_0e_06_04,
    0x00_00_00_00_0e_06_04_00,
    0x00_00_00_00_0e_06_04_02,
    0x00_00_00_0e_06_04_02_00
  ]

  const Idx16x8Part18: seq<nat> := [
    0x00_00_00_00_00_00_0e_08,
    0x00_00_00_00_00_0e_08_00,
    0x00_00_00_00_00_0e_08_02,
    0x00_00_00_00_0e_08_02_00,
    0x00_00_00_00_00_0e_08_04,
    0x00_00_00_00_0e_08_04_00,
    0x00_00_00_00_0e_08_04_02,
    0x00_00_00_0e_08_04_02_00
  ]

  const Idx16x8Part19: seq<nat> := [
    0x00_00_00_00_00_0e_08_06,
    0x00_00_00_00_0e_08_06_00,
    0x00_00_00_00_0e_08_06_02,
    0x00_00_00_0e_08_06_02_00,
    0x00_00_00_00_0e_08_06_04,
    0x00_00_00_0e_08_06_04_00,
    0x00_00_00_0e_08_06_04_02,
    0x00_00_0e_08_06_04_02_00
  ]

  const Idx16x8Part20: seq<nat> := [
    0x00_00_00_00_00_00_0e_0a,
    0x00_00_00_00_00_0e_0a_00,
    0x00_00_00_00_00_0e_0a_02,
    0x00_00_00_00_0e_0a_02_00,
    0x00_00_00_00_00_0e_0a_04,
    0x00_00_00_00_0e_0a_04_00,
    0x00_00_00_00_0e_0a_04_02,
    0x00_00_00_0e_0a_04_02_00
  ]

  const Idx16x8Part21: seq<nat> := [
    0x00_00_00_00_00_0e_0a_06,
    0x00_00_00_00_0e_0a_06_00,
    0x00_00_00_00_0e_0a_06_02,
    0x00_00_00_0e_0a_06_02_00,
    0x00_00_00_00_0e_0a_06_04,
    0x00_00_00_0e_0a_06_04_00,
    0x00_00_00_0e_0a_06_04_02,
    0x00_00_0e_0a_06_04_02_00
  ]

  const Idx16x8Part22: seq<nat> := [
    0x00_00_00_00_00_0e_0a_08,
    0x00_00_00_00_0e_0a_08_00,
    0x00_00_00_00_0e_0a_08_02,
    0x00_00_00_0e_0a_08_02_00,
    0x00_00_00_00_0e_0a_08_04,
    0x00_00_00_0e_0a_08_04_00,
    0x00_00_00_0e_0a_08_04_02,
    0x00_00_0e_0a_08_04_02_00
  ]

  const Idx16x8Part23: seq<nat> := [
    0x00_00_00_00_0e_0a_08_06,
    0x00_00_00_0e_0a_08_06_00,
    0x00_00_00_0e_0a_08_06_02,
    0x00_00_0e_0a_08_06_02_00,
    0x00_00_00_0e_0a_08_06_04,
    0x00_00_0e_0a_08_06_04_00,
    0x00_00_0e_0a_08_06_04_02,
    0x00_0e_0a_08_06_04_02_00
  ]

  const Idx16x8Part24: seq<nat> := [
    0x00_00_00_00_00_00_0e_0c,
    0x00_00_00_00_00_0e_0c_00,
    0x00_00_00_00_00_0e_0c_02,
    0x00_00_00_00_0e_0c_02_00,
    0x00_00_00_00_00_0e_0c_04,
    0x00_00_00_00_0e_0c_04_00,
    0x00_00_00_00_0e_0c_04_02,
    0x00_00_00_0e_0c_04_02_00
  ]

  const Idx16x8Part25: seq<nat> := [
    0x00_00_00_00_00_0e_0c_06,
    0x00_00_00_00_0e_0c_06_00,
    0x00_00_00_00_0e_0c_06_02,
    0x00_00_00_0e_0c_06_02_00,
    0x00_00_00_00_0e_0c_06_04,
    0x00_00_00_0e_0c_06_04_00,
    0x00_00_00_0e_0c_06_04_02,
    0x00_00_0e_0c_06_04_02_00
  ]

  const Idx16x8Part26: seq<nat> := [
    0x00_00_00_00_00_0e_0c_08,
    0x00_00_00_00_0e_0c_08_00,
    0x00_00_00_00_0e_0c_08_02,
    0x00_00_00_0e_0c_08_02_00,
    0x00_00_00_00_0e_0c_08_04,
    0x00_00_00_0e_0c_08_04_00,
    0x00_00_00_0e_0c_08_04_02,
    0x00_00_0e_0c_08_04_02_00
  ]

  const Idx16x8Part27: seq<nat> := [
    0x00_00_00_00_0e_0c_08_06,
    0x00_00_00_0e_0c_08_06_00,
    0x00_00_00_0e_0c_08_06_02,
    0x00_00_0e_0c_08_06_02_00,
    0x00_00_00_0e_0c_08_06_04,
    0x00_00_0e_0c_08_06_04_00,
    0x00_00_0e_0c_08_06_04_02,
    0x00_0e_0c_08_06_04_02_00
  ]

  const Idx16x8Part28: seq<nat> := [
    0x00_00_00_00_00_0e_0c_0a,
    0x00_00_00_00_0e_0c_0a_00,
    0x00_00_00_00_0e_0c_0a_02,
    0x00_00_00_0e_0c_0a_02_00,
    0x00_00_00_00_0e_0c_0a_04,
    0x00_00_00_0e_0c_0a_04_00,
    0x00_00_00_0e_0c_0a_04_02,
    0x00_00_0e_0c_0a_04_02_00
  ]

  const Idx16x8Part29: seq<nat> := [
    0x00_00_00_00_0e_0c_0a_06,
    0x00_00_00_0e_0c_0a_06_00,
    0x00_00_00_0e_0c_0a_06_02,
    0x00_00_0e_0c_0a_06_02_00,
    0x00_00_00_0e_0c_0a_06_04,
    0x00_00_0e_0c_0a_06_04_00,
    0x00_00_0e_0c_0a_06_04_02,
    0x00_0e_0c_0a_06_04_02_00
  ]

  const Idx16x8Part30: seq<nat> := [
    0x00_00_00_00_0e_0c_0a_08,
    0x00_00_00_0e_0c_0a_08_00,
    0x00_00_00_0e_0c_0a_08_02,
    0x00_00_0e_0c_0a_08_02_00,
    0x00_00_00_0e_0c_0a_08_04,
    0x00_00_0e_0c_0a_08_04_00,
    0x00_00_0e_0c_0a_08_04_02,
    0x00_0e_0c_0a_08_04_02_00
  ]

  const Idx16x8Part31: seq<nat> := [
    0x00_00_00_0e_0c_0a_08_06,
    0x00_00_0e_0c_0a_08_06_00,
    0x00_00_0e_0c_0a_08_06_02,
    0x00_0e_0c_0a_08_06_02_00,
    0x00_00_0e_0c_0a_08_06_04,
    0x00_0e_0c_0a_08_06_04_00,
    0x00_0e_0c_0a_08_06_04_02,
    0x0e_0c_0a_08_06_04_02_00
  ]

  /** Part h of table[256 * 8]. */
  function Idx16x8Block(h: nat): (r: seq<nat>)
    requires h < 32
    ensures |r| == 8
  {
    if h == 0 then Idx16x8Part0
    else if h == 1 then Idx16x8Part1
    else if h == 2 then Idx16x8Part2
    else if h == 3 then Idx16x8Part3
    else if h == 4 then Idx16x8Part4
    else if h == 5 then Idx16x8Part5
    else if h == 6 then Idx16x8Part6
    else if h == 7 then Idx16x8Part7
    else if h == 8 then Idx16x8Part8
    else if h == 9 then Idx16x8Part9
    else if h == 10 then Idx16x8Part10
    else if h == 11 then Idx16x8Part11
    else if h == 12 then Idx16x8Part12
    else if h == 13 then Idx16x8Part13
    else if h == 14 then Idx16x8Part14
    else if h == 15 then Idx16x8Part15
    else if h == 16 then Idx16x8Part16
    else if h == 17 then Idx16x8Part17
    else if h == 18 then Idx16x8Part18
    else if h == 19 then Idx16x8Part19
    else if h == 20 then Idx16x8Part20
    else if h == 21 then Idx16x8Part21
    else if h == 22 then Idx16x8Part22
    else if h == 23 then Idx16x8Part23
    else if h == 24 then Idx16x8Part24
    else if h == 25 then Idx16x8Part25
    else if h == 26 then Idx16x8Part26
    else if h == 27 then Idx16x8Part27
    else if h == 28 then Idx16x8Part28
    else if h == 29 then Idx16x8Part29
    else if h == 30 then Idx16x8Part30
    else Idx16x8Part31
  }

  /** Row m, looked up in parts lo .. hi - 1 by halving the range. */
  function Idx16x8RowIn(lo: nat, hi: nat, m: nat): nat
    requires lo < hi <= 32 && 8 * lo <= m < 8 * hi
    decreases hi - lo, m
  {
    if hi - lo == 1 then Idx16x8Block(lo)[m - 8 * lo]
    else if m < 8 * ((lo + hi) / 2) then Idx16x8RowIn(lo, (lo + hi) / 2, m)
    else Idx16x8RowIn((lo + hi) / 2, hi, m)
  }

  /** Row m of table[256 * 8] as the number whose bytes it holds. */
  function Idx16x8Row(m: nat): nat
    requires m < 256
  {
    Idx16x8RowIn(0, 32, m)
  }

  /** The lookup finds row m as entry m % 8 of part m / 8. */
  lemma {:induction false} Idx16x8RowInBlock(lo: nat, hi: nat, m: nat)
    requires lo < hi <= 32 && 8 * lo <= m < 8 * hi
    ensures Idx16x8RowIn(lo, hi, m) == Idx16x8Block(m / 8)[m % 8]
    decreases hi - lo, m
  {
    if hi - lo == 1 {
      assert m / 8 == lo && m % 8 == m - 8 * lo;
    } else if m < 8 * ((lo + hi) / 2) {
      Idx16x8RowInBlock(lo, (lo + hi) / 2, m);
    } else {
      Idx16x8RowInBlock((lo + hi) / 2, hi, m);
    }
  }

  /** Slot k of row m (the byte 2 * p) as a closed form in the bits of m. */
  function Idx16x8Closed(m: nat): nat
  {
    Place(m, 0x0, 0x100, 0x0, Place(m / 2, 0x2, 0x100, 0x0, Place(m / 4, 0x4, 0x100, 0x0, Place(m / 8, 0x6, 0x100, 0x0, Place(m / 16, 0x8, 0x100, 0x0, Place(m / 32, 0xa, 0x100, 0x0, Place(m / 64, 0xc, 0x100, 0x0, Place(m / 128, 0xe, 0x100, 0x0, 0))))))))
  }

  lemma Idx16x8Part0Closed()
    ensures forall lo | 0 <= lo < 8 :: Idx16x8Part0[lo] == Idx16x8Closed(0 + lo)
  {
    assert Idx16x8Part0[0] == Idx16x8Closed(0);
    assert Idx16x8Part0[1] == Idx16x8Closed(1);
    assert Idx16x8Part0[2] == Idx16x8Closed(2);
    assert Idx16x8Part0[3] == Idx16x8Closed(3);
    assert Idx16x8Part0[4] == Idx16x8Closed(4);
    assert Idx16x8Part0[5] == Idx16x8Closed(5);
    assert Idx16x8Part0[6] == Idx16x8Closed(6);
    assert Idx16x8Part0[7] == Idx16x8Closed(7);
  }

  lemma Idx16x8Part1Closed()
    ensures forall lo | 0 <= lo < 8 :: Idx16x8Part1[lo] == Idx16x8Closed(8 + lo)
  {
    assert Idx16x8Part1[0] == Idx16x8Closed(8);
    assert Idx16x8Part1[1] == Idx16x8Closed(9);
    assert Idx16x8Part1[2] == Idx16x8Closed(10);
    assert Idx16x8Part1[3] == Idx16x8Closed(11);
    assert Idx16x8Part1[4] == Idx16x8Closed(12);
    assert Idx16x8Part1[5] == Idx16x8Closed(13);
    assert Idx16x8Part1[6] == Idx16x8Closed(14);
    assert Idx16x8Part1[7] == Idx16x8Closed(15);
  }

  lemma Idx16x8Part2Closed()
    ensures forall lo | 0 <= lo < 8 :: Idx16x8Part2[lo] == Idx16x8Closed(16 + lo)
  {
    assert Idx16x8Part2[0] == Idx16x8Closed(16);
    assert Idx16x8Part2[1] == Idx16x8Closed(17);
    assert Idx16x8Part2[2] == Idx16x8Closed(18);
    assert Idx16x8Part2[3] == Idx16x8Closed(19);
    assert Idx16x8Part2[4] == Idx16x8Closed(20);
    assert Idx16x8Part2[5] == Idx16x8Closed(21);
    assert Idx16x8Part2[6] == Idx16x8Closed(22);
    assert Idx16x8Part2[7] == Idx16x8Closed(23);
  }

  lemma Idx16x8Part3Closed()
    ensures forall lo | 0 <= lo < 8 :: Idx16x8Part3[lo] == Idx16x8Closed(24 + lo)
  {
    assert Idx16x8Part3[0] == Idx16x8Closed(24);
    assert Idx16x8Part3[1] == Idx16x8Closed(25);
    assert Idx16x8Part3[2] == Idx16x8Closed(26);
    assert Idx16x8Part3[3] == Idx16x8Closed(27);
    assert Idx16x8Part3[4] == Idx16x8Closed(28);
    assert Idx16x8Part3[5] == Idx16x8Closed(29);
    assert Idx16x8Part3[6] == Idx16x8Closed(30);
    assert Idx16x8Part3[7] == Idx16x8Closed(31);
  }

  lemma Idx16x8Part4Closed()
    ensures forall lo | 0 <= lo < 8 :: Idx16x8Part4[lo] == Idx16x8Closed(32 + lo)
  {
    assert Idx16x8Part4[0] == Idx16x8Closed(32);
    assert Idx16x8Part4[1] == Idx16x8Closed(33);
    assert Idx16x8Part4[2] == Idx16x8Closed(34);
    assert Idx16x8Part4[3] == Idx16x8Closed(35);
    assert Idx16x8Part4[4] == Idx16x8Closed(36);
    assert Idx16x8Part4[5] == Idx16x8Closed(37);
    assert Idx16x8Part4[6] == Idx16x8Closed(38);
    assert Idx16x8Part4[7] == Idx16x8Closed(39);
  }

  lemma Idx16x8Part5Closed()
    ensures forall lo | 0 <= lo < 8 :: Idx16x8Part5[lo] == Idx16x8Closed(40 + lo)
  {
    assert Idx16x8Part5[0] == Idx16x8Closed(40);
    assert Idx16x8Part5[1] == Idx16x8Closed(41);
    assert Idx16x8Part5[2] == Idx16x8Closed(42);
    assert Idx16x8Part5[3] == Idx16x8Closed(43);
    assert Idx16x8Part5[4] == Idx16x8Closed(44);
    assert Idx16x8Part5[5] == Idx16x8Closed(45);
    assert Idx16x8Part5[6] == Idx16x8Closed(46);
    assert Idx16x8Part5[7] == Idx16x8Closed(47);
  }

  lemma Idx16x8Part6Closed()
    ensures forall lo | 0 <= lo < 8 :: Idx16x8Part6[lo] == Idx16x8Closed(48 + lo)
  {
    assert Idx16x8Part6[0] == Idx16x8Closed(48);
    assert Idx16x8Part6[1] == Idx16x8Closed(49);
    assert Idx16x8Part6[2] == Idx16x8Closed(50);
    assert Idx16x8Part6[3] == Idx16x8Closed(51);
    assert Idx16x8Part6[4] == Idx16x8Closed(52);
    assert Idx16x8Part6[5] == Idx16x8Closed(53);
    assert Idx16x8Part6[6] == Idx16x8Closed(54);
    assert Idx16x8Part6[7] == Idx16x8Closed(55);
  }

  lemma Idx16x8Part7Closed()
    ensures forall lo | 0 <= lo < 8 :: Idx16x8Part7[lo] == Idx16x8Closed(56 + lo)
  {
    assert Idx16x8Part7[0] == Idx16x8Closed(56);
    assert Idx16x8Part7[1] == Idx16x8Closed(57);
    assert Idx16x8Part7[2] == Idx16x8Closed(58);
    assert Idx16x8Part7[3] == Idx16x8Closed(59);
    assert Idx16x8Part7[4] == Idx16x8Closed(60);
    assert Idx16x8Part7[5] == Idx16x8Closed(61);
    assert Idx16x8Part7[6] == Idx16x8Closed(62);
    assert Idx16x8Part7[7] == Idx16x8Closed(63);
  }

  lemma Idx16x8Part8Closed()
    ensures forall lo | 0 <= lo < 8 :: Idx16x8Part8[lo] == Idx16x8Closed(64 + lo)
  {
    assert Idx16x8Part8[0] == Idx16x8Closed(64);
    assert Idx16x8Part8[1] == Idx16x8Closed(65);
    assert Idx16x8Part8[2] == Idx16x8Closed(66);
    assert Idx16x8Part8[3] == Idx16x8Closed(67);
    assert Idx16x8Part8[4] == Idx16x8Closed(68);
    assert Idx16x8Part8[5] == Idx16x8Closed(69);
    assert Idx16x8Part8[6] == Idx16x8Closed(70);
    assert Idx16x8Part8[7] == Idx16x8Closed(71);
  }

  lemma Idx16x8Part9Closed()
    ensures forall lo | 0 <= lo < 8 :: Idx16x8Part9[lo] == Idx16x8Closed(72 + lo)
  {
    assert Idx16x8Part9[0] == Idx16x8Closed(72);
    assert Idx16x8Part9[1] == Idx16x8Closed(73);
    assert Idx16x8Part9[2] == Idx16x8Closed(74);
    assert Idx16x8Part9[3] == Idx16x8Closed(75);
    assert Idx16x8Part9[4] == Idx16x8Closed(76);
    assert Idx16x8Part9[5] == Idx16x8Closed(77);
    assert Idx16x8Part9[6] == Idx16x8Closed(78);
    assert Idx16x8Part9[7] == Idx16x8Closed(79);
  }

  lemma Idx16x8Part10Closed()
    ensures forall lo | 0 <= lo < 8 :: Idx16x8Part10[lo] == Idx16x8Closed(80 + lo)
  {
    assert Idx16x8Part10[0] == Idx16x8Closed(80);
    assert Idx16x8Part10[1] == Idx16x8Closed(81);
    assert Idx16x8Part10[2] == Idx16x8Closed(82);
    assert Idx16x8Part10[3] == Idx16x8Closed(83);
    assert Idx16x8Part10[4] == Idx16x8Closed(84);
    assert Idx16x8Part10[5] == Idx16x8Closed(85);
    assert Idx16x8Part10[6] == Idx16x8Closed(86);
    assert Idx16x8Part10[7] == Idx16x8Closed(87);
  }

  lemma Idx16x8Part11Closed()
    ensures forall lo | 0 <= lo < 8 :: Idx16x8Part11[lo] == Idx16x8Closed(88 + lo)
  {
    assert Idx16x8Part11[0] == Idx16x8Closed(88);
    assert Idx16x8Part11[1] == Idx16x8Closed(89);
    assert Idx16x8Part11[2] == Idx16x8Closed(90);
    assert Idx16x8Part11[3] == Idx16x8Closed(91);
    assert Idx16x8Part11[4] == Idx16x8Closed(92);
    assert Idx16x8Part11[5] == Idx16x8Closed(93);
    assert Idx16x8Part11[6] == Idx16x8Closed(94);
    assert Idx16x8Part11[7] == Idx16x8Closed(95);
  }

  lemma Idx16x8Part12Closed()
    ensures forall lo | 0 <= lo < 8 :: Idx16x8Part12[lo] == Idx16x8Closed(96 + lo)
  {
    assert Idx16x8Part12[0] == Idx16x8Closed(96);
    assert Idx16x8Part12[1] == Idx16x8Closed(97);
    assert Idx16x8Part12[2] == Idx16x8Closed(98);
    assert Idx16x8Part12[3] == Idx16x8Closed(99);
    assert Idx16x8Part12[4] == Idx16x8Closed(100);
    assert Idx16x8Part12[5] == Idx16x8Closed(101);
    assert Idx16x8Part12[6] == Idx16x8Closed(102);
    assert Idx16x8Part12[7] == Idx16x8Closed(103);
  }

  lemma Idx16x8Part13Closed()
    ensures forall lo | 0 <= lo < 8 :: Idx16x8Part13[lo] == Idx16x8Closed(104 + lo)
  {
    assert Idx16x8Part13[0] == Idx16x8Closed(104);
    assert Idx16x8Part13[1] == Idx16x8Closed(105);
    assert Idx16x8Part13[2] == Idx16x8Closed(106);
    assert Idx16x8Part13[3] == Idx16x8Closed(107);
    assert Idx16x8Part13[4] == Idx16x8Closed(108);
    assert Idx16x8Part13[5] == Idx16x8Closed(109);
    assert Idx16x8Part13[6] == Idx16x8Closed(110);
    assert Idx16x8Part13[7] == Idx16x8Closed(111);
  }

  lemma Idx16x8Part14Closed()
    ensures forall lo | 0 <= lo < 8 :: Idx16x8Part14[lo] == Idx16x8Closed(112 + lo)
  {
    assert Idx16x8Part14[0] == Idx16x8Closed(112);
    assert Idx16x8Part14[1] == Idx16x8Closed(113);
    assert Idx16x8Part14[2] == Idx16x8Closed(114);
    assert Idx16x8Part14[3] == Idx16x8Closed(115);
    assert Idx16x8Part14[4] == Idx16x8Closed(116);
    assert Idx16x8Part14[5] == Idx16x8Closed(117);
    assert Idx16x8Part14[6] == Idx16x8Closed(118);
    assert Idx16x8Part14[7] == Idx16x8Closed(119);
  }

  lemma Idx16x8Part15Closed()
    ensures forall lo | 0 <= lo < 8 :: Idx16x8Part15[lo] == Idx16x8Closed(120 + lo)
  {
    assert Idx16x8Part15[0] == Idx16x8Closed(120);
    assert Idx16x8Part15[1] == Idx16x8Closed(121);
    assert Idx16x8Part15[2] == Idx16x8Closed(122);
    assert Idx16x8Part15[3] == Idx16x8Closed(123);
    assert Idx16x8Part15[4] == Idx16x8Closed(124);
    assert Idx16x8Part15[5] == Idx16x8Closed(125);
    assert Idx16x8Part15[6] == Idx16x8Closed(126);
    assert Idx16x8Part15[7] == Idx16x8Closed(127);
  }

  lemma Idx16x8Part16Closed()
    ensures forall lo | 0 <= lo < 8 :: Idx16x8Part16[lo] == Idx16x8Closed(128 + lo)
  {
    assert Idx16x8Part16[0] == Idx16x8Closed(128);
    assert Idx16x8Part16[1] == Idx16x8Closed(129);
    assert Idx16x8Part16[2] == Idx16x8Closed(130);
    assert Idx16x8Part16[3] == Idx16x8Closed(131);
    assert Idx16x8Part16[4] == Idx16x8Closed(132);
    assert Idx16x8Part16[5] == Idx16x8Closed(133);
    assert Idx16x8Part16[6] == Idx16x8Closed(134);
    assert Idx16x8Part16[7] == Idx16x8Closed(135);
  }

  lemma Idx16x8Part17Closed()
    ensures forall lo | 0 <= lo < 8 :: Idx16x8Part17[lo] == Idx16x8Closed(136 + lo)
  {
    assert Idx16x8Part17[0] == Idx16x8Closed(136);
    assert Idx16x8Part17[1] == Idx16x8Closed(137);
    assert Idx16x8Part17[2] == Idx16x8Closed(138);
    assert Idx16x8Part17[3] == Idx16x8Closed(139);
    assert Idx16x8Part17[4] == Idx16x8Closed(140);
    assert Idx16x8Part17[5] == Idx16x8Closed(141);
    assert Idx16x8Part17[6] == Idx16x8Closed(142);
    assert Idx16x8Part17[7] == Idx16x8Closed(143);
  }

  lemma Idx16x8Part18Closed()
    ensures forall lo | 0 <= lo < 8 :: Idx16x8Part18[lo] == Idx16x8Closed(144 + lo)
  {
    assert Idx16x8Part18[0] == Idx16x8Closed(144);
    assert Idx16x8Part18[1] == Idx16x8Closed(145);
    assert Idx16x8Part18[2] == Idx16x8Closed(146);
    assert Idx16x8Part18[3] == Idx16x8Closed(147);
    assert Idx16x8Part18[4] == Idx16x8Closed(148);
    assert Idx16x8Part18[5] == Idx16x8Closed(149);
    assert Idx16x8Part18[6] == Idx16x8Closed(150);
    assert Idx16x8Part18[7] == Idx16x8Closed(151);
  }

  lemma Idx16x8Part19Closed()
    ensures forall lo | 0 <= lo < 8 :: Idx16x8Part19[lo] == Idx16x8Closed(152 + lo)
  {
    assert Idx16x8Part19[0] == Idx16x8Closed(152);
    assert Idx16x8Part19[1] == Idx16x8Closed(153);
    assert Idx16x8Part19[2] == Idx16x8Closed(154);
    assert Idx16x8Part19[3] == Idx16x8Closed(155);
    assert Idx16x8Part19[4] == Idx16x8Closed(156);
    assert Idx16x8Part19[5] == Idx16x8Closed(157);
    assert Idx16x8Part19[6] == Idx16x8Closed(158);
    assert Idx16x8Part19[7] == Idx16x8Closed(159);
  }

  lemma Idx16x8Part20Closed()
    ensures forall lo | 0 <= lo < 8 :: Idx16x8Part20[lo] == Idx16x8Closed(160 + lo)
  {
    assert Idx16x8Part20[0] == Idx16x8Closed(160);
    assert Idx16x8Part20[1] == Idx16x8Closed(161);
    assert Idx16x8Part20[2] == Idx16x8Closed(162);
    assert Idx16x8Part20[3] == Idx16x8Closed(163);
    assert Idx16x8Part20[4] == Idx16x8Closed(164);
    assert Idx16x8Part20[5] == Idx16x8Closed(165);
    assert Idx16x8Part20[6] == Idx16x8Closed(166);
    assert Idx16x8Part20[7] == Idx16x8Closed(167);
  }

  lemma Idx16x8Part21Closed()
    ensures forall lo | 0 <= lo < 8 :: Idx16x8Part21[lo] == Idx16x8Closed(168 + lo)
  {
    assert Idx16x8Part21[0] == Idx16x8Closed(168);
    assert Idx16x8Part21[1] == Idx16x8Closed(169);
    assert Idx16x8Part21[2] == Idx16x8Closed(170);
    assert Idx16x8Part21[3] == Idx16x8Closed(171);
    assert Idx16x8Part21[4] == Idx16x8Closed(172);
    assert Idx16x8Part21[5] == Idx16x8Closed(173);
    assert Idx16x8Part21[6] == Idx16x8Closed(174);
    assert Idx16x8Part21[7] == Idx16x8Closed(175);
  }

  lemma Idx16x8Part22Closed()
    ensures forall lo | 0 <= lo < 8 :: Idx16x8Part22[lo] == Idx16x8Closed(176 + lo)
  {
    assert Idx16x8Part22[0] == Idx16x8Closed(176);
    assert Idx16x8Part22[1] == Idx16x8Closed(177);
    assert Idx16x8Part22[2] == Idx16x8Closed(178);
    assert Idx16x8Part22[3] == Idx16x8Closed(179);
    assert Idx16x8Part22[4] == Idx16x8Closed(180);
    assert Idx16x8Part22[5] == Idx16x8Closed(181);
    assert Idx16x8Part22[6] == Idx16x8Closed(182);
    assert Idx16x8Part22[7] == Idx16x8Closed(183);
  }

  lemma Idx16x8Part23Closed()
    ensures forall lo | 0 <= lo < 8 :: Idx16x8Part23[lo] == Idx16x8Closed(184 + lo)
  {
    assert Idx16x8Part23[0] == Idx16x8Closed(184);
    assert Idx16x8Part23[1] == Idx16x8Closed(185);
    assert Idx16x8Part23[2] == Idx16x8Closed(186);
    assert Idx16x8Part23[3] == Idx16x8Closed(187);
    assert Idx16x8Part23[4] == Idx16x8Closed(188);
    assert Idx16x8Part23[5] == Idx16x8Closed(189);
    assert Idx16x8Part23[6] == Idx16x8Closed(190);
    assert Idx16x8Part23[7] == Idx16x8Closed(191);
  }

  lemma Idx16x8Part24Closed()
    ensures forall lo | 0 <= lo < 8 :: Idx16x8Part24[lo] == Idx16x8Closed(192 + lo)
  {
    assert Idx16x8Part24[0] == Idx16x8Closed(192);
    assert Idx16x8Part24[1] == Idx16x8Closed(193);
    assert Idx16x8Part24[2] == Idx16x8Closed(194);
    assert Idx16x8Part24[3] == Idx16x8Closed(195);
    assert Idx16x8Part24[4] == Idx16x8Closed(196);
    assert Idx16x8Part24[5] == Idx16x8Closed(197);
    assert Idx16x8Part24[6] == Idx16x8Closed(198);
    assert Idx16x8Part24[7] == Idx16x8Closed(199);
  }

  lemma Idx16x8Part25Closed()
    ensures forall lo | 0 <= lo < 8 :: Idx16x8Part25[lo] == Idx16x8Closed(200 + lo)
  {
    assert Idx16x8Part25[0] == Idx16x8Closed(200);
    assert Idx16x8Part25[1] == Idx16x8Closed(201);
    assert Idx16x8Part25[2] == Idx16x8Closed(202);
    assert Idx16x8Part25[3] == Idx16x8Closed(203);
    assert Idx16x8Part25[4] == Idx16x8Closed(204);
    assert Idx16x8Part25[5] == Idx16x8Closed(205);
    assert Idx16x8Part25[6] == Idx16x8Closed(206);
    assert Idx16x8Part25[7] == Idx16x8Closed(207);
  }

  lemma Idx16x8Part26Closed()
    ensures forall lo | 0 <= lo < 8 :: Idx16x8Part26[lo] == Idx16x8Closed(208 + lo)
  {
    assert Idx16x8Part26[0] == Idx16x8Closed(208);
    assert Idx16x8Part26[1] == Idx16x8Closed(209);
    assert Idx16x8Part26[2] == Idx16x8Closed(210);
    assert Idx16x8Part26[3] == Idx16x8Closed(211);
    assert Idx16x8Part26[4] == Idx16x8Closed(212);
    assert Idx16x8Part26[5] == Idx16x8Closed(213);
    assert Idx16x8Part26[6] == Idx16x8Closed(214);
    assert Idx16x8Part26[7] == Idx16x8Closed(215);
  }

  lemma Idx16x8Part27Closed()
    ensures forall lo | 0 <= lo < 8 :: Idx16x8Part27[lo] == Idx16x8Closed(216 + lo)
  {
    assert Idx16x8Part27[0] == Idx16x8Closed(216);
    assert Idx16x8Part27[1] == Idx16x8Closed(217);
    assert Idx16x8Part27[2] == Idx16x8Closed(218);
    assert Idx16x8Part27[3] == Idx16x8Closed(219);
    assert Idx16x8Part27[4] == Idx16x8Closed(220);
    assert Idx16x8Part27[5] == Idx16x8Closed(221);
    assert Idx16x8Part27[6] == Idx16x8Closed(222);
    assert Idx16x8Part27[7] == Idx16x8Closed(223);
  }

  lemma Idx16x8Part28Closed()
    ensures forall lo | 0 <= lo < 8 :: Idx16x8Part28[lo] == Idx16x8Closed(224 + lo)
  {
    assert Idx16x8Part28[0] == Idx16x8Closed(224);
    assert Idx16x8Part28[1] == Idx16x8Closed(225);
    assert Idx16x8Part28[2] == Idx16x8Closed(226);
    assert Idx16x8Part28[3] == Idx16x8Closed(227);
    assert Idx16x8Part28[4] == Idx16x8Closed(228);
    assert Idx16x8Part28[5] == Idx16x8Closed(229);
    assert Idx16x8Part28[6] == Idx16x8Closed(230);
    assert Idx16x8Part28[7] == Idx16x8Closed(231);
  }

  lemma Idx16x8Part29Closed()
    ensures forall lo | 0 <= lo < 8 :: Idx16x8Part29[lo] == Idx16x8Closed(232 + lo)
  {
    assert Idx16x8Part29[0] == Idx16x8Closed(232);
    assert Idx16x8Part29[1] == Idx16x8Closed(233);
    assert Idx16x8Part29[2] == Idx16x8Closed(234);
    assert Idx16x8Part29[3] == Idx16x8Closed(235);
    assert Idx16x8Part29[4] == Idx16x8Closed(236);
    assert Idx16x8Part29[5] == Idx16x8Closed(237);
    assert Idx16x8Part29[6] == Idx16x8Closed(238);
    assert Idx16x8Part29[7] == Idx16x8Closed(239);
  }

  lemma Idx16x8Part30Closed()
    ensures forall lo | 0 <= lo < 8 :: Idx16x8Part30[lo] == Idx16x8Closed(240 + lo)
  {
    assert Idx16x8Part30[0] == Idx16x8Closed(240);
    assert Idx16x8Part30[1] == Idx16x8Closed(241);
    assert Idx16x8Part30[2] == Idx16x8Closed(242);
    assert Idx16x8Part30[3] == Idx16x8Closed(243);
    assert Idx16x8Part30[4] == Idx16x8Closed(244);
    assert Idx16x8Part30[5] == Idx16x8Closed(245);
    assert Idx16x8Part30[6] == Idx16x8Closed(246);
    assert Idx16x8Part30[7] == Idx16x8Closed(247);
  }

  lemma Idx16x8Part31Closed()
    ensures forall lo | 0 <= lo < 8 :: Idx16x8Part31[lo] == Idx16x8Closed(248 + lo)
  {
    assert Idx16x8Part31[0] == Idx16x8Closed(248);
    assert Idx16x8Part31[1] == Idx16x8Closed(249);
    assert Idx16x8Part31[2] == Idx16x8Closed(250);
    assert Idx16x8Part31[3] == Idx16x8Closed(251);
    assert Idx16x8Part31[4] == Idx16x8Closed(252);
    assert Idx16x8Part31[5] == Idx16x8Closed(253);
    assert Idx16x8Part31[6] == Idx16x8Closed(254);
    assert Idx16x8Part31[7] == Idx16x8Closed(255);
  }

  /** The closed form unrolls Packed with slots 2 * p. */
  lemma Idx16x8ClosedPacked(m: nat)
    ensures Idx16x8Closed(m) == Packed(2, 0, 0x100, 0, m, 8)
  {
    assert Packed(2, 0, 0x100, 7, m / 128, 1) == Place(m / 128, 0xe, 0x100, 0x0, 0);
    assert m / 64 / 2 == m / 128;
    assert Packed(2, 0, 0x100, 6, m / 64, 2) == Place(m / 64, 0xc, 0x100, 0x0, Packed(2, 0, 0x100, 7, m / 128, 1));
    assert m / 32 / 2 == m / 64;
    assert Packed(2, 0, 0x100, 5, m / 32, 3) == Place(m / 32, 0xa, 0x100, 0x0, Packed(2, 0, 0x100, 6, m / 64, 2));
    assert m / 16 / 2 == m / 32;
    assert Packed(2, 0, 0x100, 4, m / 16, 4) == Place(m / 16, 0x8, 0x100, 0x0, Packed(2, 0, 0x100, 5, m / 32, 3));
    assert m / 8 / 2 == m / 16;
    assert Packed(2, 0, 0x100, 3, m / 8, 5) == Place(m / 8, 0x6, 0x100, 0x0, Packed(2, 0, 0x100, 4, m / 16, 4));
    assert m / 4 / 2 == m / 8;
    assert Packed(2, 0, 0x100, 2, m / 4, 6) == Place(m / 4, 0x4, 0x100, 0x0, Packed(2, 0, 0x100, 3, m / 8, 5));
    assert m / 2 / 2 == m / 4;
    assert Packed(2, 0, 0x100, 1, m / 2, 7) == Place(m / 2, 0x2, 0x100, 0x0, Packed(2, 0, 0x100, 2, m / 4, 6));
    assert Packed(2, 0, 0x100, 0, m, 8) == Place(m, 0x0, 0x100, 0x0, Packed(2, 0, 0x100, 1, m / 2, 7));
  }

  /** Row m of a part h is entry m - 8 * h of that part. */
  lemma Idx16x8RowPart(h: nat, m: nat)
    requires h < 32 && 8 * h <= m < 8 * h + 8
    ensures Idx16x8Row(m) == Idx16x8Block(h)[m - 8 * h]
  {
    Idx16x8RowInBlock(0, 32, m);
    assert m / 8 == h;
  }

  lemma Idx16x8Part0Rows()
    ensures forall m | 0 <= m < 8 :: Idx16x8Row(m) == Idx16x8Closed(m)
  {
    Idx16x8Part0Closed();
    assert Idx16x8Block(0) == Idx16x8Part0;
    forall m | 0 <= m < 8
      ensures Idx16x8Row(m) == Idx16x8Closed(m)
    {
      Idx16x8RowPart(0, m);
    }
  }

  lemma Idx16x8Part1Rows()
    ensures forall m | 8 <= m < 16 :: Idx16x8Row(m) == Idx16x8Closed(m)
  {
    Idx16x8Part1Closed();
    assert Idx16x8Block(1) == Idx16x8Part1;
    forall m | 8 <= m < 16
      ensures Idx16x8Row(m) == Idx16x8Closed(m)
    {
      Idx16x8RowPart(1, m);
    }
  }

  lemma Idx16x8Part2Rows()
    ensures forall m | 16 <= m < 24 :: Idx16x8Row(m) == Idx16x8Closed(m)
  {
    Idx16x8Part2Closed();
    assert Idx16x8Block(2) == Idx16x8Part2;
    forall m | 16 <= m < 24
      ensures Idx16x8Row(m) == Idx16x8Closed(m)
    {
      Idx16x8RowPart(2, m);
    }
  }

  lemma Idx16x8Part3Rows()
    ensures forall m | 24 <= m < 32 :: Idx16x8Row(m) == Idx16x8Closed(m)
  {
    Idx16x8Part3Closed();
    assert Idx16x8Block(3) == Idx16x8Part3;
    forall m | 24 <= m < 32
      ensures Idx16x8Row(m) == Idx16x8Closed(m)
    {
      Idx16x8RowPart(3, m);
    }
  }

  lemma Idx16x8Part4Rows()
    ensures forall m | 32 <= m < 40 :: Idx16x8Row(m) == Idx16x8Closed(m)
  {
    Idx16x8Part4Closed();
    assert Idx16x8Block(4) == Idx16x8Part4;
    forall m | 32 <= m < 40
      ensures Idx16x8Row(m) == Idx16x8Closed(m)
    {
      Idx16x8RowPart(4, m);
    }
  }

  lemma Idx16x8Part5Rows()
    ensures forall m | 40 <= m < 48 :: Idx16x8Row(m) == Idx16x8Closed(m)
  {
    Idx16x8Part5Closed();
    assert Idx16x8Block(5) == Idx16x8Part5;
    forall m | 40 <= m < 48
      ensures Idx16x8Row(m) == Idx16x8Closed(m)
    {
      Idx16x8RowPart(5, m);
    }
  }

  lemma Idx16x8Part6Rows()
    ensures forall m | 48 <= m < 56 :: Idx16x8Row(m) == Idx16x8Closed(m)
  {
    Idx16x8Part6Closed();
    assert Idx16x8Block(6) == Idx16x8Part6;
    forall m | 48 <= m < 56
      ensures Idx16x8Row(m) == Idx16x8Closed(m)
    {
      Idx16x8RowPart(6, m);
    }
  }

  lemma Idx16x8Part7Rows()
    ensures forall m | 56 <= m < 64 :: Idx16x8Row(m) == Idx16x8Closed(m)
  {
    Idx16x8Part7Closed();
    assert Idx16x8Block(7) == Idx16x8Part7;
    forall m | 56 <= m < 64
      ensures Idx16x8Row(m) == Idx16x8Closed(m)
    {
      Idx16x8RowPart(7, m);
    }
  }

  lemma Idx16x8Part8Rows()
    ensures forall m | 64 <= m < 72 :: Idx16x8Row(m) == Idx16x8Closed(m)
  {
    Idx16x8Part8Closed();
    assert Idx16x8Block(8) == Idx16x8Part8;
    forall m | 64 <= m < 72
      ensures Idx16x8Row(m) == Idx16x8Closed(m)
    {
      Idx16x8RowPart(8, m);
    }
  }

  lemma Idx16x8Part9Rows()
    ensures forall m | 72 <= m < 80 :: Idx16x8Row(m) == Idx16x8Closed(m)
  {
    Idx16x8Part9Closed();
    assert Idx16x8Block(9) == Idx16x8Part9;
    forall m | 72 <= m < 80
      ensures Idx16x8Row(m) == Idx16x8Closed(m)
    {
      Idx16x8RowPart(9, m);
    }
  }

  lemma Idx16x8Part10Rows()
    ensures forall m | 80 <= m < 88 :: Idx16x8Row(m) == Idx16x8Closed(m)
  {
    Idx16x8Part10Closed();
    assert Idx16x8Block(10) == Idx16x8Part10;
    forall m | 80 <= m < 88
      ensures Idx16x8Row(m) == Idx16x8Closed(m)
    {
      Idx16x8RowPart(10, m);
    }
  }

  lemma Idx16x8Part11Rows()
    ensures forall m | 88 <= m < 96 :: Idx16x8Row(m) == Idx16x8Closed(m)
  {
    Idx16x8Part11Closed();
    assert Idx16x8Block(11) == Idx16x8Part11;
    forall m | 88 <= m < 96
      ensures Idx16x8Row(m) == Idx16x8Closed(m)
    {
      Idx16x8RowPart(11, m);
    }
  }

  lemma Idx16x8Part12Rows()
    ensures forall m | 96 <= m < 104 :: Idx16x8Row(m) == Idx16x8Closed(m)
  {
    Idx16x8Part12Closed();
    assert Idx16x8Block(12) == Idx16x8Part12;
    forall m | 96 <= m < 104
      ensures Idx16x8Row(m) == Idx16x8Closed(m)
    {
      Idx16x8RowPart(12, m);
    }
  }

  lemma Idx16x8Part13Rows()
    ensures forall m | 104 <= m < 112 :: Idx16x8Row(m) == Idx16x8Closed(m)
  {
    Idx16x8Part13Closed();
    assert Idx16x8Block(13) == Idx16x8Part13;
    forall m | 104 <= m < 112
      ensures Idx16x8Row(m) == Idx16x8Closed(m)
    {
      Idx16x8RowPart(13, m);
    }
  }

  lemma Idx16x8Part14Rows()
    ensures forall m | 112 <= m < 120 :: Idx16x8Row(m) == Idx16x8Closed(m)
  {
    Idx16x8Part14Closed();
    assert Idx16x8Block(14) == Idx16x8Part14;
    forall m | 112 <= m < 120
      ensures Idx16x8Row(m) == Idx16x8Closed(m)
    {
      Idx16x8RowPart(14, m);
    }
  }

  lemma Idx16x8Part15Rows()
    ensures forall m | 120 <= m < 128 :: Idx16x8Row(m) == Idx16x8Closed(m)
  {
    Idx16x8Part15Closed();
    assert Idx16x8Block(15) == Idx16x8Part15;
    forall m | 120 <= m < 128
      ensures Idx16x8Row(m) == Idx16x8Closed(m)
    {
      Idx16x8RowPart(15, m);
    }
  }

  lemma Idx16x8Part16Rows()
    ensures forall m | 128 <= m < 136 :: Idx16x8Row(m) == Idx16x8Closed(m)
  {
    Idx16x8Part16Closed();
    assert Idx16x8Block(16) == Idx16x8Part16;
    forall m | 128 <= m < 136
      ensures Idx16x8Row(m) == Idx16x8Closed(m)
    {
      Idx16x8RowPart(16, m);
    }
  }

  lemma Idx16x8Part17Rows()
    ensures forall m | 136 <= m < 144 :: Idx16x8Row(m) == Idx16x8Closed(m)
  {
    Idx16x8Part17Closed();
    assert Idx16x8Block(17) == Idx16x8Part17;
    forall m | 136 <= m < 144
      ensures Idx16x8Row(m) == Idx16x8Closed(m)
    {
      Idx16x8RowPart(17, m);
    }
  }

  lemma Idx16x8Part18Rows()
    ensures forall m | 144 <= m < 152 :: Idx16x8Row(m) == Idx16x8Closed(m)
  {
    Idx16x8Part18Closed();
    assert Idx16x8Block(18) == Idx16x8Part18;
    forall m | 144 <= m < 152
      ensures Idx16x8Row(m) == Idx16x8Closed(m)
    {
      Idx16x8RowPart(18, m);
    }
  }

  lemma Idx16x8Part19Rows()
    ensures forall m | 152 <= m < 160 :: Idx16x8Row(m) == Idx16x8Closed(m)
  {
    Idx16x8Part19Closed();
    assert Idx16x8Block(19) == Idx16x8Part19;
    forall m | 152 <= m < 160
      ensures Idx16x8Row(m) == Idx16x8Closed(m)
    {
      Idx16x8RowPart(19, m);
    }
  }

  lemma Idx16x8Part20Rows()
    ensures forall m | 160 <= m < 168 :: Idx16x8Row(m) == Idx16x8Closed(m)
  {
    Idx16x8Part20Closed();
    assert Idx16x8Block(20) == Idx16x8Part20;
    forall m | 160 <= m < 168
      ensures Idx16x8Row(m) == Idx16x8Closed(m)
    {
      Idx16x8RowPart(20, m);
    }
  }

  lemma Idx16x8Part21Rows()
    ensures forall m | 168 <= m < 176 :: Idx16x8Row(m) == Idx16x8Closed(m)
  {
    Idx16x8Part21Closed();
    assert Idx16x8Block(21) == Idx16x8Part21;
    forall m | 168 <= m < 176
      ensures Idx16x8Row(m) == Idx16x8Closed(m)
    {
      Idx16x8RowPart(21, m);
    }
  }

  lemma Idx16x8Part22Rows()
    ensures forall m | 176 <= m < 184 :: Idx16x8Row(m) == Idx16x8Closed(m)
  {
    Idx16x8Part22Closed();
    assert Idx16x8Block(22) == Idx16x8Part22;
    forall m | 176 <= m < 184
      ensures Idx16x8Row(m) == Idx16x8Closed(m)
    {
      Idx16x8RowPart(22, m);
    }
  }

  lemma Idx16x8Part23Rows()
    ensures forall m | 184 <= m < 192 :: Idx16x8Row(m) == Idx16x8Closed(m)
  {
    Idx16x8Part23Closed();
    assert Idx16x8Block(23) == Idx16x8Part23;
    forall m | 184 <= m < 192
      ensures Idx16x8Row(m) == Idx16x8Closed(m)
    {
      Idx16x8RowPart(23, m);
    }
  }

  lemma Idx16x8Part24Rows()
    ensures forall m | 192 <= m < 200 :: Idx16x8Row(m) == Idx16x8Closed(m)
  {
    Idx16x8Part24Closed();
    assert Idx16x8Block(24) == Idx16x8Part24;
    forall m | 192 <= m < 200
      ensures Idx16x8Row(m) == Idx16x8Closed(m)
    {
      Idx16x8RowPart(24, m);
    }
  }

  lemma Idx16x8Part25Rows()
    ensures forall m | 200 <= m < 208 :: Idx16x8Row(m) == Idx16x8Closed(m)
  {
    Idx16x8Part25Closed();
    assert Idx16x8Block(25) == Idx16x8Part25;
    forall m | 200 <= m < 208
      ensures Idx16x8Row(m) == Idx16x8Closed(m)
    {
      Idx16x8RowPart(25, m);
    }
  }

  lemma Idx16x8Part26Rows()
    ensures forall m | 208 <= m < 216 :: Idx16x8Row(m) == Idx16x8Closed(m)
  {
    Idx16x8Part26Closed();
    assert Idx16x8Block(26) == Idx16x8Part26;
    forall m | 208 <= m < 216
      ensures Idx16x8Row(m) == Idx16x8Closed(m)
    {
      Idx16x8RowPart(26, m);
    }
  }

  lemma Idx16x8Part27Rows()
    ensures forall m | 216 <= m < 224 :: Idx16x8Row(m) == Idx16x8Closed(m)
  {
    Idx16x8Part27Closed();
    assert Idx16x8Block(27) == Idx16x8Part27;
    forall m | 216 <= m < 224
      ensures Idx16x8Row(m) == Idx16x8Closed(m)
    {
      Idx16x8RowPart(27, m);
    }
  }

  lemma Idx16x8Part28Rows()
    ensures forall m | 224 <= m < 232 :: Idx16x8Row(m) == Idx16x8Closed(m)
  {
    Idx16x8Part28Closed();
    assert Idx16x8Block(28) == Idx16x8Part28;
    forall m | 224 <= m < 232
      ensures Idx16x8Row(m) == Idx16x8Closed(m)
    {
      Idx16x8RowPart(28, m);
    }
  }

  lemma Idx16x8Part29Rows()
    ensures forall m | 232 <= m < 240 :: Idx16x8Row(m) == Idx16x8Closed(m)
  {
    Idx16x8Part29Closed();
    assert Idx16x8Block(29) == Idx16x8Part29;
    forall m | 232 <= m < 240
      ensures Idx16x8Row(m) == Idx16x8Closed(m)
    {
      Idx16x8RowPart(29, m);
    }
  }

  lemma Idx16x8Part30Rows()
    ensures forall m | 240 <= m < 248 :: Idx16x8Row(m) == Idx16x8Closed(m)
  {
    Idx16x8Part30Closed();
    assert Idx16x8Block(30) == Idx16x8Part30;
    forall m | 240 <= m < 248
      ensures Idx16x8Row(m) == Idx16x8Closed(m)
    {
      Idx16x8RowPart(30, m);
    }
  }

  lemma Idx16x8Part31Rows()
    ensures forall m | 248 <= m < 256 :: Idx16x8Row(m) == Idx16x8Closed(m)
  {
    Idx16x8Part31Closed();
    assert Idx16x8Block(31) == Idx16x8Part31;
    forall m | 248 <= m < 256
      ensures Idx16x8Row(m) == Idx16x8Closed(m)
    {
      Idx16x8RowPart(31, m);
    }
  }

  /** Rows 0 .. 63 of table[256 * 8] in closed form. */
  lemma Idx16x8Quarter0Closed(m: nat)
    requires 0 <= m < 64
    ensures Idx16x8Row(m) == Idx16x8Closed(m)
  {
    if m < 8 {
      Idx16x8Part0Rows();
    }
    else if m < 16 {
      Idx16x8Part1Rows();
    }
    else if m < 24 {
      Idx16x8Part2Rows();
    }
    else if m < 32 {
      Idx16x8Part3Rows();
    }
    else if m < 40 {
      Idx16x8Part4Rows();
    }
    else if m < 48 {
      Idx16x8Part5Rows();
    }
    else if m < 56 {
      Idx16x8Part6Rows();
    }
    else {
      Idx16x8Part7Rows();
    }
  }

  /** Rows 64 .. 127 of table[256 * 8] in closed form. */
  lemma Idx16x8Quarter1Closed(m: nat)
    requires 64 <= m < 128
    ensures Idx16x8Row(m) == Idx16x8Closed(m)
  {
    if m < 72 {
      Idx16x8Part8Rows();
    }
    else if m < 80 {
      Idx16x8Part9Rows();
    }
    else if m < 88 {
      Idx16x8Part10Rows();
    }
    else if m < 96 {
      Idx16x8Part11Rows();
    }
    else if m < 104 {
      Idx16x8Part12Rows();
    }
    else if m < 112 {
      Idx16x8Part13Rows();
    }
    else if m < 120 {
      Idx16x8Part14Rows();
    }
    else {
      Idx16x8Part15Rows();
    }
  }

  /** Rows 128 .. 191 of table[256 * 8] in closed form. */
  lemma Idx16x8Quarter2Closed(m: nat)
    requires 128 <= m < 192
    ensures Idx16x8Row(m) == Idx16x8Closed(m)
  {
    if m < 136 {
      Idx16x8Part16Rows();
    }
    else if m < 144 {
      Idx16x8Part17Rows();
    }
    else if m < 152 {
      Idx16x8Part18Rows();
    }
    else if m < 160 {
      Idx16x8Part19Rows();
    }
    else if m < 168 {
      Idx16x8Part20Rows();
    }
    else if m < 176 {
      Idx16x8Part21Rows();
    }
    else if m < 184 {
      Idx16x8Part22Rows();
    }
    else {
      Idx16x8Part23Rows();
    }
  }

  /** Rows 192 .. 255 of table[256 * 8] in closed form. */
  lemma Idx16x8Quarter3Closed(m: nat)
    requires 192 <= m < 256
    ensures Idx16x8Row(m) == Idx16x8Closed(m)
  {
    if m < 200 {
      Idx16x8Part24Rows();
    }
    else if m < 208 {
      Idx16x8Part25Rows();
    }
    else if m < 216 {
      Idx16x8Part26Rows();
    }
    else if m < 224 {
      Idx16x8Part27Rows();
    }
    else if m < 232 {
      Idx16x8Part28Rows();
    }
    else if m < 240 {
      Idx16x8Part29Rows();
    }
    else if m < 248 {
      Idx16x8Part30Rows();
    }
    else {
      Idx16x8Part31Rows();
    }
  }

  /** Every row of table[256 * 8] is the packed row of doubled indices. */
  lemma Idx16x8RowPacked(m: nat)
    requires m < 256
    ensures Idx16x8Row(m) == Packed(2, 0, 0x100, 0, m, 8)
  {
    if m < 64 {
      Idx16x8Quarter0Closed(m);
    } else if m < 128 {
      Idx16x8Quarter1Closed(m);
    } else if m < 192 {
      Idx16x8Quarter2Closed(m);
    } else {
      Idx16x8Quarter3Closed(m);
    }
    Idx16x8ClosedPacked(m);
  }

  /** The eight bytes of row m: twice the index of each selected lane, then zeros. */
  lemma Idx16x8Bytes(m: nat)
    requires m < 256
    ensures ToDigits(Idx16x8Row(m), 256, 8) == Slots(2, 0, Indices(BitsOf(m, 8)))
  {
    Idx16x8RowPacked(m);
    RowSlots(2, 256, m, 8);
  }

  // ------------------------------------------------------------ Idx32x4FromBits

  /*
   * packed_array[16 * 16] of Idx32x4FromBits: for mask bits m, the byte
   * indices 4 * p .. 4 * p + 3 of each selected 32-bit lane p, then the
   * bytes 0, 1, 2, 3 of lane 0.
   */
  const Idx32x4Rows: seq<nat> := [
    0x03_02_01_00_03_02_01_00_03_02_01_00_03_02_01_00,
    0x03_02_01_00_03_02_01_00_03_02_01_00_03_02_01_00,
    0x03_02_01_00_03_02_01_00_03_02_01_00_07_06_05_04,
    0x03_02_01_00_03_02_01_00_07_06_05_04_03_02_01_00,
    0x03_02_01_00_03_02_01_00_03_02_01_00_0b_0a_09_08,
    0x03_02_01_00_03_02_01_00_0b_0a_09_08_03_02_01_00,
    0x03_02_01_00_03_02_01_00_0b_0a_09_08_07_06_05_04,
    0x03_02_01_00_0b_0a_09_08_07_06_05_04_03_02_01_00,
    0x03_02_01_00_03_02_01_00_03_02_01_00_0f_0e_0d_0c,
    0x03_02_01_00_03_02_01_00_0f_0e_0d_0c_03_02_01_00,
    0x03_02_01_00_03_02_01_00_0f_0e_0d_0c_07_06_05_04,
    0x03_02_01_00_0f_0e_0d_0c_07_06_05_04_03_02_01_00,
    0x03_02_01_00_03_02_01_00_0f_0e_0d_0c_0b_0a_09_08,
    0x03_02_01_00_0f_0e_0d_0c_0b_0a_09_08_03_02_01_00,
    0x03_02_01_00_0f_0e_0d_0c_0b_0a_09_08_07_06_05_04,
    0x0f_0e_0d_0c_0b_0a_09_08_07_06_05_04_03_02_01_00
  ]

  /** Row m as a closed form in the bits of m; each slot is four byte indices. */
  function Idx32x4Closed(m: nat): nat
  {
    Place(m, 0x3020100, 0x1_00000000, 0x3020100_00000000_00000000_00000000, Place(m / 2, 0x7060504, 0x1_00000000, 0x3020100_00000000_00000000, Place(m / 4, 0xb0a0908, 0x1_00000000, 0x3020100_00000000, Place(m / 8, 0xf0e0d0c, 0x1_00000000, 0x3020100, 0))))
  }

  lemma Idx32x4RowsClosed()
    ensures forall m | 0 <= m < 16 :: Idx32x4Rows[m] == Idx32x4Closed(m)
  {
    assert Idx32x4Rows[0] == Idx32x4Closed(0);
    assert Idx32x4Rows[1] == Idx32x4Closed(1);
    assert Idx32x4Rows[2] == Idx32x4Closed(2);
    assert Idx32x4Rows[3] == Idx32x4Closed(3);
    assert Idx32x4Rows[4] == Idx32x4Closed(4);
    assert Idx32x4Rows[5] == Idx32x4Closed(5);
    assert Idx32x4Rows[6] == Idx32x4Closed(6);
    assert Idx32x4Rows[7] == Idx32x4Closed(7);
    assert Idx32x4Rows[8] == Idx32x4Closed(8);
    assert Idx32x4Rows[9] == Idx32x4Closed(9);
    assert Idx32x4Rows[10] == Idx32x4Closed(10);
    assert Idx32x4Rows[11] == Idx32x4Closed(11);
    assert Idx32x4Rows[12] == Idx32x4Closed(12);
    assert Idx32x4Rows[13] == Idx32x4Closed(13);
    assert Idx32x4Rows[14] == Idx32x4Closed(14);
    assert Idx32x4Rows[15] == Idx32x4Closed(15);
  }

  /** The closed form unrolls Packed with four-byte slots. */
  lemma Idx32x4ClosedPacked(m: nat)
    ensures Idx32x4Closed(m) == Packed(0x0404_0404, 0x0302_0100, 0x1_0000_0000, 0, m, 4)
  {
    assert Power(0x1_00000000, 1) == 0x1_00000000;
    assert Power(0x1_00000000, 2) == 0x1_00000000_00000000;
    assert Power(0x1_00000000, 3) == 0x1_00000000_00000000_00000000;
    assert Packed(0x0404_0404, 0x0302_0100, 0x1_0000_0000, 3, m / 8, 1) == Place(m / 8, 0xf0e0d0c, 0x1_00000000, 0x3020100, 0);
    assert m / 4 / 2 == m / 8;
    assert Packed(0x0404_0404, 0x0302_0100, 0x1_0000_0000, 2, m / 4, 2) == Place(m / 4, 0xb0a0908, 0x1_00000000, 0x3020100_00000000, Packed(0x0404_0404, 0x0302_0100, 0x1_0000_0000, 3, m / 8, 1));
    assert m / 2 / 2 == m / 4;
    assert Packed(0x0404_0404, 0x0302_0100, 0x1_0000_0000, 1, m / 2, 3) == Place(m / 2, 0x7060504, 0x1_00000000, 0x3020100_00000000_00000000, Packed(0x0404_0404, 0x0302_0100, 0x1_0000_0000, 2, m / 4, 2));
    assert Packed(0x0404_0404, 0x0302_0100, 0x1_0000_0000, 0, m, 4) == Place(m, 0x3020100, 0x1_00000000, 0x3020100_00000000_00000000_00000000, Packed(0x0404_0404, 0x0302_0100, 0x1_0000_0000, 1, m / 2, 3));
  }

  /** Stride, Ramp and digit of the four-byte pieces as literals. */
  lemma Pieces4Literals()
    ensures Stride(4, 256) == 0x0404_0404 && Ramp(4, 256) == 0x0302_0100 && Power(256, 4) == 0x1_0000_0000
  {
    assert Repeat(1, 4) == [1, 1, 1, 1];
    assert Span(0, 4) == [0, 1, 2, 3];
  }

  /** The 16 bytes of row m: the four byte indices of each selected lane, then those of lane 0. */
  lemma Idx32x4Bytes(m: nat)
    requires m < 16
    ensures ToDigits(Idx32x4Rows[m], 256, 16) == IndexPieces(Indices(BitsOf(m, 4)), 4)
  {
    Idx32x4RowsClosed();
    Idx32x4ClosedPacked(m);
    Pieces4Literals();
    RowPieces(4, 256, m, 4);
  }

  // ------------------------------------------------------------ Idx64x2FromBits

  /*
   * packed_array[4 * 16] of Idx64x2FromBits: for mask bits m, the byte
   * indices 8 * p .. 8 * p + 7 of each selected 64-bit lane p, then those of
   * lane 0.
   */
  const Idx64x2Rows: seq<nat> := [
    0x07_06_05_04_03_02_01_00_07_06_05_04_03_02_01_00,
    0x07_06_05_04_03_02_01_00_07_06_05_04_03_02_01_00,
    0x07_06_05_04_03_02_01_00_0f_0e_0d_0c_0b_0a_09_08,
    0x0f_0e_0d_0c_0b_0a_09_08_07_06_05_04_03_02_01_00
  ]

  /** Row m as a closed form in the bits of m; each slot is eight byte indices. */
  function Idx64x2Closed(m: nat): nat
  {
    Place(m, 0x7060504_03020100, 0x1_00000000_00000000, 0x7060504_03020100_00000000_00000000, Place(m / 2, 0xf0e0d0c_0b0a0908, 0x1_00000000_00000000, 0x7060504_03020100, 0))
  }

  lemma Idx64x2RowsClosed()
    ensures forall m | 0 <= m < 4 :: Idx64x2Rows[m] == Idx64x2Closed(m)
  {
    assert Idx64x2Rows[0] == Idx64x2Closed(0);
    assert Idx64x2Rows[1] == Idx64x2Closed(1);
    assert Idx64x2Rows[2] == Idx64x2Closed(2);
    assert Idx64x2Rows[3] == Idx64x2Closed(3);
  }

  /** The closed form unrolls Packed with eight-byte slots. */
  lemma Idx64x2ClosedPacked(m: nat)
    ensures Idx64x2Closed(m) == Packed(0x0808_0808_0808_0808, 0x0706_0504_0302_0100, 0x1_0000_0000_0000_0000, 0, m, 2)
  {
    assert Power(0x1_00000000_00000000, 1) == 0x1_00000000_00000000;
    assert Packed(0x0808_0808_0808_0808, 0x0706_0504_0302_0100, 0x1_0000_0000_0000_0000, 1, m / 2, 1) == Place(m / 2, 0xf0e0d0c_0b0a0908, 0x1_00000000_00000000, 0x7060504_03020100, 0);
    assert Packed(0x0808_0808_0808_0808, 0x0706_0504_0302_0100, 0x1_0000_0000_0000_0000, 0, m, 2) == Place(m, 0x7060504_03020100, 0x1_00000000_00000000, 0x7060504_03020100_00000000_00000000, Packed(0x0808_0808_0808_0808, 0x0706_0504_0302_0100, 0x1_0000_0000_0000_0000, 1, m / 2, 1));
  }

  /** Stride, Ramp and digit of the eight-byte pieces as literals. */
  lemma Pieces8Literals()
    ensures Stride(8, 256) == 0x0808_0808_0808_0808 && Ramp(8, 256) == 0x0706_0504_0302_0100
    ensures Power(256, 8) == 0x1_0000_0000_0000_0000
  {
    assert Repeat(1, 8) == [1, 1, 1, 1, 1, 1, 1, 1];
    assert Span(0, 8) == [0, 1, 2, 3, 4, 5, 6, 7];
  }

  /** The 16 bytes of row m: the eight byte indices of each selected lane, then those of lane 0. */
  lemma Idx64x2Bytes(m: nat)
    requires m < 4
    ensures ToDigits(Idx64x2Rows[m], 256, 16) == IndexPieces(Indices(BitsOf(m, 2)), 8)
  {
    Idx64x2RowsClosed();
    Idx64x2ClosedPacked(m);
    Pieces8Literals();
    RowPieces(8, 256, m, 2);
  }
}
