/*
 * The index tables of the AVX2 Compress (x86_256-inl.h), transcribed from
 * the source and shown to be instances of the closed form Packed of
 * IndexTables.
 *
 * packed_array[256] of Idx32x8FromBits holds one 32-bit word per mask: its
 * nibble k (digit k in base 16) is the k-th selected lane.  packed_array[16 * 8]
 * of Idx64x4FromBits holds eight 32-bit indices per mask; each of its rows is
 * written here as one number whose base-2^32 digits are those indices, the
 * leftmost group of eight hex digits being the last index of the row.
 */
module X86Tables256 {
  import opened Lanes
  import opened Digits
  import opened IndexTables

  // ------------------------------------------------------------ Idx32x8FromBits

  /*
   * packed_array[256], kept in 32 parts of 8 words (part h holds the words
   * for masks 8 * h .. 8 * h + 7).
   */
  const Idx32x8Part0: seq<nat> := [0x00000000, 0x00000000, 0x00000001, 0x00000010, 0x00000002, 0x00000020, 0x00000021, 0x00000210]

  const Idx32x8Part1: seq<nat> := [0x00000003, 0x00000030, 0x00000031, 0x00000310, 0x00000032, 0x00000320, 0x00000321, 0x00003210]

  const Idx32x8Part2: seq<nat> := [0x00000004, 0x00000040, 0x00000041, 0x00000410, 0x00000042, 0x00000420, 0x00000421, 0x00004210]

  const Idx32x8Part3: seq<nat> := [0x00000043, 0x00000430, 0x00000431, 0x00004310, 0x00000432, 0x00004320, 0x00004321, 0x00043210]

  const Idx32x8Part4: seq<nat> := [0x00000005, 0x00000050, 0x00000051, 0x00000510, 0x00000052, 0x00000520, 0x00000521, 0x00005210]

  const Idx32x8Part5: seq<nat> := [0x00000053, 0x00000530, 0x00000531, 0x00005310, 0x00000532, 0x00005320, 0x00005321, 0x00053210]

  const Idx32x8Part6: seq<nat> := [0x00000054, 0x00000540, 0x00000541, 0x00005410, 0x00000542, 0x00005420, 0x00005421, 0x00054210]

  const Idx32x8Part7: seq<nat> := [0x00000543, 0x00005430, 0x00005431, 0x00054310, 0x00005432, 0x00054320, 0x00054321, 0x00543210]

  const Idx32x8Part8: seq<nat> := [0x00000006, 0x00000060, 0x00000061, 0x00000610, 0x00000062, 0x00000620, 0x00000621, 0x00006210]

  const Idx32x8Part9: seq<nat> := [0x00000063, 0x00000630, 0x00000631, 0x00006310, 0x00000632, 0x00006320, 0x00006321, 0x00063210]

  const Idx32x8Part10: seq<nat> := [0x00000064, 0x00000640, 0x00000641, 0x00006410, 0x00000642, 0x00006420, 0x00006421, 0x00064210]

  const Idx32x8Part11: seq<nat> := [0x00000643, 0x00006430, 0x00006431, 0x00064310, 0x00006432, 0x00064320, 0x00064321, 0x00643210]

  const Idx32x8Part12: seq<nat> := [0x00000065, 0x00000650, 0x00000651, 0x00006510, 0x00000652, 0x00006520, 0x00006521, 0x00065210]

  const Idx32x8Part13: seq<nat> := [0x00000653, 0x00006530, 0x00006531, 0x00065310, 0x00006532, 0x00065320, 0x00065321, 0x00653210]

  const Idx32x8Part14: seq<nat> := [0x00000654, 0x00006540, 0x00006541, 0x00065410, 0x00006542, 0x00065420, 0x00065421, 0x00654210]

  const Idx32x8Part15: seq<nat> := [0x00006543, 0x00065430, 0x00065431, 0x00654310, 0x00065432, 0x00654320, 0x00654321, 0x06543210]

  const Idx32x8Part16: seq<nat> := [0x00000007, 0x00000070, 0x00000071, 0x00000710, 0x00000072, 0x00000720, 0x00000721, 0x00007210]

  const Idx32x8Part17: seq<nat> := [0x00000073, 0x00000730, 0x00000731, 0x00007310, 0x00000732, 0x00007320, 0x00007321, 0x00073210]

  const Idx32x8Part18: seq<nat> := [0x00000074, 0x00000740, 0x00000741, 0x00007410, 0x00000742, 0x00007420, 0x00007421, 0x00074210]

  const Idx32x8Part19: seq<nat> := [0x00000743, 0x00007430, 0x00007431, 0x00074310, 0x00007432, 0x00074320, 0x00074321, 0x00743210]

  const Idx32x8Part20: seq<nat> := [0x00000075, 0x00000750, 0x00000751, 0x00007510, 0x00000752, 0x00007520, 0x00007521, 0x00075210]

  const Idx32x8Part21: seq<nat> := [0x00000753, 0x00007530, 0x00007531, 0x00075310, 0x00007532, 0x00075320, 0x00075321, 0x00753210]

  const Idx32x8Part22: seq<nat> := [0x00000754, 0x00007540, 0x00007541, 0x00075410, 0x00007542, 0x00075420, 0x00075421, 0x00754210]

  const Idx32x8Part23: seq<nat> := [0x00007543, 0x00075430, 0x00075431, 0x00754310, 0x00075432, 0x00754320, 0x00754321, 0x07543210]

  const Idx32x8Part24: seq<nat> := [0x00000076, 0x00000760, 0x00000761, 0x00007610, 0x00000762, 0x00007620, 0x00007621, 0x00076210]

  const Idx32x8Part25: seq<nat> := [0x00000763, 0x00007630, 0x00007631, 0x00076310, 0x00007632, 0x00076320, 0x00076321, 0x00763210]

  const Idx32x8Part26: seq<nat> := [0x00000764, 0x00007640, 0x00007641, 0x00076410, 0x00007642, 0x00076420, 0x00076421, 0x00764210]

  const Idx32x8Part27: seq<nat> := [0x00007643, 0x00076430, 0x00076431, 0x00764310, 0x00076432, 0x00764320, 0x00764321, 0x07643210]

  const Idx32x8Part28: seq<nat> := [0x00000765, 0x00007650, 0x00007651, 0x00076510, 0x00007652, 0x00076520, 0x00076521, 0x00765210]

  const Idx32x8Part29: seq<nat> := [0x00007653, 0x00076530, 0x00076531, 0x00765310, 0x00076532, 0x00765320, 0x00765321, 0x07653210]

  const Idx32x8Part30: seq<nat> := [0x00007654, 0x00076540, 0x00076541, 0x00765410, 0x00076542, 0x00765420, 0x00765421, 0x07654210]

  const Idx32x8Part31: seq<nat> := [0x00076543, 0x00765430, 0x00765431, 0x07654310, 0x00765432, 0x07654320, 0x07654321, 0x76543210]

  /** Part h of packed_array[256]. */
  function Idx32x8Block(h: nat): (r: seq<nat>)
    requires h < 32
    ensures |r| == 8
  {
    if h == 0 then Idx32x8Part0
    else if h == 1 then Idx32x8Part1
    else if h == 2 then Idx32x8Part2
    else if h == 3 then Idx32x8Part3
    else if h == 4 then Idx32x8Part4
    else if h == 5 then Idx32x8Part5
    else if h == 6 then Idx32x8Part6
    else if h == 7 then Idx32x8Part7
    else if h == 8 then Idx32x8Part8
    else if h == 9 then Idx32x8Part9
    else if h == 10 then Idx32x8Part10
    else if h == 11 then Idx32x8Part11
    else if h == 12 then Idx32x8Part12
    else if h == 13 then Idx32x8Part13
    else if h == 14 then Idx32x8Part14
    else if h == 15 then Idx32x8Part15
    else if h == 16 then Idx32x8Part16
    else if h == 17 then Idx32x8Part17
    else if h == 18 then Idx32x8Part18
    else if h == 19 then Idx32x8Part19
    else if h == 20 then Idx32x8Part20
    else if h == 21 then Idx32x8Part21
    else if h == 22 then Idx32x8Part22
    else if h == 23 then Idx32x8Part23
    else if h == 24 then Idx32x8Part24
    else if h == 25 then Idx32x8Part25
    else if h == 26 then Idx32x8Part26
    else if h == 27 then Idx32x8Part27
    else if h == 28 then Idx32x8Part28
    else if h == 29 then Idx32x8Part29
    else if h == 30 then Idx32x8Part30
    else Idx32x8Part31
  }

  /** Word m, looked up in parts lo .. hi - 1 by halving the range. */
  function Idx32x8WordIn(lo: nat, hi: nat, m: nat): nat
    requires lo < hi <= 32 && 8 * lo <= m < 8 * hi
    decreases hi - lo, m
  {
    if hi - lo == 1 then Idx32x8Block(lo)[m - 8 * lo]
    else if m < 8 * ((lo + hi) / 2) then Idx32x8WordIn(lo, (lo + hi) / 2, m)
    else Idx32x8WordIn((lo + hi) / 2, hi, m)
  }

  /** packed_array[m] of Idx32x8FromBits. */
  function Idx32x8Word(m: nat): nat
    requires m < 256
  {
    Idx32x8WordIn(0, 32, m)
  }

  /** The lookup finds word m as entry m % 8 of part m / 8. */
  lemma {:induction false} Idx32x8WordInBlock(lo: nat, hi: nat, m: nat)
    requires lo < hi <= 32 && 8 * lo <= m < 8 * hi
    ensures Idx32x8WordIn(lo, hi, m) == Idx32x8Block(m / 8)[m % 8]
    decreases hi - lo, m
  {
    if hi - lo == 1 {
      assert m / 8 == lo && m % 8 == m - 8 * lo;
    } else if m < 8 * ((lo + hi) / 2) {
      Idx32x8WordInBlock(lo, (lo + hi) / 2, m);
    } else {
      Idx32x8WordInBlock((lo + hi) / 2, hi, m);
    }
  }

  /** Word m as a closed form in the bits of m: nibble k is the k-th selected lane. */
  function Idx32x8Closed(m: nat): nat
  {
    Place(m, 0x0, 0x10, 0x0, Place(m / 2, 0x1, 0x10, 0x0, Place(m / 4, 0x2, 0x10, 0x0, Place(m / 8, 0x3, 0x10, 0x0, Place(m / 16, 0x4, 0x10, 0x0, Place(m / 32, 0x5, 0x10, 0x0, Place(m / 64, 0x6, 0x10, 0x0, Place(m / 128, 0x7, 0x10, 0x0, 0))))))))
  }

  lemma Idx32x8Part0Closed()
    ensures forall lo | 0 <= lo < 8 :: Idx32x8Part0[lo] == Idx32x8Closed(0 + lo)
  {
    assert Idx32x8Part0[0] == Idx32x8Closed(0);
    assert Idx32x8Part0[1] == Idx32x8Closed(1);
    assert Idx32x8Part0[2] == Idx32x8Closed(2);
    assert Idx32x8Part0[3] == Idx32x8Closed(3);
    assert Idx32x8Part0[4] == Idx32x8Closed(4);
    assert Idx32x8Part0[5] == Idx32x8Closed(5);
    assert Idx32x8Part0[6] == Idx32x8Closed(6);
    assert Idx32x8Part0[7] == Idx32x8Closed(7);
  }

  lemma Idx32x8Part1Closed()
    ensures forall lo | 0 <= lo < 8 :: Idx32x8Part1[lo] == Idx32x8Closed(8 + lo)
  {
    assert Idx32x8Part1[0] == Idx32x8Closed(8);
    assert Idx32x8Part1[1] == Idx32x8Closed(9);
    assert Idx32x8Part1[2] == Idx32x8Closed(10);
    assert Idx32x8Part1[3] == Idx32x8Closed(11);
    assert Idx32x8Part1[4] == Idx32x8Closed(12);
    assert Idx32x8Part1[5] == Idx32x8Closed(13);
    assert Idx32x8Part1[6] == Idx32x8Closed(14);
    assert Idx32x8Part1[7] == Idx32x8Closed(15);
  }

  lemma Idx32x8Part2Closed()
    ensures forall lo | 0 <= lo < 8 :: Idx32x8Part2[lo] == Idx32x8Closed(16 + lo)
  {
    assert Idx32x8Part2[0] == Idx32x8Closed(16);
    assert Idx32x8Part2[1] == Idx32x8Closed(17);
    assert Idx32x8Part2[2] == Idx32x8Closed(18);
    assert Idx32x8Part2[3] == Idx32x8Closed(19);
    assert Idx32x8Part2[4] == Idx32x8Closed(20);
    assert Idx32x8Part2[5] == Idx32x8Closed(21);
    assert Idx32x8Part2[6] == Idx32x8Closed(22);
    assert Idx32x8Part2[7] == Idx32x8Closed(23);
  }

  lemma Idx32x8Part3Closed()
    ensures forall lo | 0 <= lo < 8 :: Idx32x8Part3[lo] == Idx32x8Closed(24 + lo)
  {
    assert Idx32x8Part3[0] == Idx32x8Closed(24);
    assert Idx32x8Part3[1] == Idx32x8Closed(25);
    assert Idx32x8Part3[2] == Idx32x8Closed(26);
    assert Idx32x8Part3[3] == Idx32x8Closed(27);
    assert Idx32x8Part3[4] == Idx32x8Closed(28);
    assert Idx32x8Part3[5] == Idx32x8Closed(29);
    assert Idx32x8Part3[6] == Idx32x8Closed(30);
    assert Idx32x8Part3[7] == Idx32x8Closed(31);
  }

  lemma Idx32x8Part4Closed()
    ensures forall lo | 0 <= lo < 8 :: Idx32x8Part4[lo] == Idx32x8Closed(32 + lo)
  {
    assert Idx32x8Part4[0] == Idx32x8Closed(32);
    assert Idx32x8Part4[1] == Idx32x8Closed(33);
    assert Idx32x8Part4[2] == Idx32x8Closed(34);
    assert Idx32x8Part4[3] == Idx32x8Closed(35);
    assert Idx32x8Part4[4] == Idx32x8Closed(36);
    assert Idx32x8Part4[5] == Idx32x8Closed(37);
    assert Idx32x8Part4[6] == Idx32x8Closed(38);
    assert Idx32x8Part4[7] == Idx32x8Closed(39);
  }

  lemma Idx32x8Part5Closed()
    ensures forall lo | 0 <= lo < 8 :: Idx32x8Part5[lo] == Idx32x8Closed(40 + lo)
  {
    assert Idx32x8Part5[0] == Idx32x8Closed(40);
    assert Idx32x8Part5[1] == Idx32x8Closed(41);
    assert Idx32x8Part5[2] == Idx32x8Closed(42);
    assert Idx32x8Part5[3] == Idx32x8Closed(43);
    assert Idx32x8Part5[4] == Idx32x8Closed(44);
    assert Idx32x8Part5[5] == Idx32x8Closed(45);
    assert Idx32x8Part5[6] == Idx32x8Closed(46);
    assert Idx32x8Part5[7] == Idx32x8Closed(47);
  }

  lemma Idx32x8Part6Closed()
    ensures forall lo | 0 <= lo < 8 :: Idx32x8Part6[lo] == Idx32x8Closed(48 + lo)
  {
    assert Idx32x8Part6[0] == Idx32x8Closed(48);
    assert Idx32x8Part6[1] == Idx32x8Closed(49);
    assert Idx32x8Part6[2] == Idx32x8Closed(50);
    assert Idx32x8Part6[3] == Idx32x8Closed(51);
    assert Idx32x8Part6[4] == Idx32x8Closed(52);
    assert Idx32x8Part6[5] == Idx32x8Closed(53);
    assert Idx32x8Part6[6] == Idx32x8Closed(54);
    assert Idx32x8Part6[7] == Idx32x8Closed(55);
  }

  lemma Idx32x8Part7Closed()
    ensures forall lo | 0 <= lo < 8 :: Idx32x8Part7[lo] == Idx32x8Closed(56 + lo)
  {
    assert Idx32x8Part7[0] == Idx32x8Closed(56);
    assert Idx32x8Part7[1] == Idx32x8Closed(57);
    assert Idx32x8Part7[2] == Idx32x8Closed(58);
    assert Idx32x8Part7[3] == Idx32x8Closed(59);
    assert Idx32x8Part7[4] == Idx32x8Closed(60);
    assert Idx32x8Part7[5] == Idx32x8Closed(61);
    assert Idx32x8Part7[6] == Idx32x8Closed(62);
    assert Idx32x8Part7[7] == Idx32x8Closed(63);
  }

  lemma Idx32x8Part8Closed()
    ensures forall lo | 0 <= lo < 8 :: Idx32x8Part8[lo] == Idx32x8Closed(64 + lo)
  {
    assert Idx32x8Part8[0] == Idx32x8Closed(64);
    assert Idx32x8Part8[1] == Idx32x8Closed(65);
    assert Idx32x8Part8[2] == Idx32x8Closed(66);
    assert Idx32x8Part8[3] == Idx32x8Closed(67);
    assert Idx32x8Part8[4] == Idx32x8Closed(68);
    assert Idx32x8Part8[5] == Idx32x8Closed(69);
    assert Idx32x8Part8[6] == Idx32x8Closed(70);
    assert Idx32x8Part8[7] == Idx32x8Closed(71);
  }

  lemma Idx32x8Part9Closed()
    ensures forall lo | 0 <= lo < 8 :: Idx32x8Part9[lo] == Idx32x8Closed(72 + lo)
  {
    assert Idx32x8Part9[0] == Idx32x8Closed(72);
    assert Idx32x8Part9[1] == Idx32x8Closed(73);
    assert Idx32x8Part9[2] == Idx32x8Closed(74);
    assert Idx32x8Part9[3] == Idx32x8Closed(75);
    assert Idx32x8Part9[4] == Idx32x8Closed(76);
    assert Idx32x8Part9[5] == Idx32x8Closed(77);
    assert Idx32x8Part9[6] == Idx32x8Closed(78);
    assert Idx32x8Part9[7] == Idx32x8Closed(79);
  }

  lemma Idx32x8Part10Closed()
    ensures forall lo | 0 <= lo < 8 :: Idx32x8Part10[lo] == Idx32x8Closed(80 + lo)
  {
    assert Idx32x8Part10[0] == Idx32x8Closed(80);
    assert Idx32x8Part10[1] == Idx32x8Closed(81);
    assert Idx32x8Part10[2] == Idx32x8Closed(82);
    assert Idx32x8Part10[3] == Idx32x8Closed(83);
    assert Idx32x8Part10[4] == Idx32x8Closed(84);
    assert Idx32x8Part10[5] == Idx32x8Closed(85);
    assert Idx32x8Part10[6] == Idx32x8Closed(86);
    assert Idx32x8Part10[7] == Idx32x8Closed(87);
  }

  lemma Idx32x8Part11Closed()
    ensures forall lo | 0 <= lo < 8 :: Idx32x8Part11[lo] == Idx32x8Closed(88 + lo)
  {
    assert Idx32x8Part11[0] == Idx32x8Closed(88);
    assert Idx32x8Part11[1] == Idx32x8Closed(89);
    assert Idx32x8Part11[2] == Idx32x8Closed(90);
    assert Idx32x8Part11[3] == Idx32x8Closed(91);
    assert Idx32x8Part11[4] == Idx32x8Closed(92);
    assert Idx32x8Part11[5] == Idx32x8Closed(93);
    assert Idx32x8Part11[6] == Idx32x8Closed(94);
    assert Idx32x8Part11[7] == Idx32x8Closed(95);
  }

  lemma Idx32x8Part12Closed()
    ensures forall lo | 0 <= lo < 8 :: Idx32x8Part12[lo] == Idx32x8Closed(96 + lo)
  {
    assert Idx32x8Part12[0] == Idx32x8Closed(96);
    assert Idx32x8Part12[1] == Idx32x8Closed(97);
    assert Idx32x8Part12[2] == Idx32x8Closed(98);
    assert Idx32x8Part12[3] == Idx32x8Closed(99);
    assert Idx32x8Part12[4] == Idx32x8Closed(100);
    assert Idx32x8Part12[5] == Idx32x8Closed(101);
    assert Idx32x8Part12[6] == Idx32x8Closed(102);
    assert Idx32x8Part12[7] == Idx32x8Closed(103);
  }

  lemma Idx32x8Part13Closed()
    ensures forall lo | 0 <= lo < 8 :: Idx32x8Part13[lo] == Idx32x8Closed(104 + lo)
  {
    assert Idx32x8Part13[0] == Idx32x8Closed(104);
    assert Idx32x8Part13[1] == Idx32x8Closed(105);
    assert Idx32x8Part13[2] == Idx32x8Closed(106);
    assert Idx32x8Part13[3] == Idx32x8Closed(107);
    assert Idx32x8Part13[4] == Idx32x8Closed(108);
    assert Idx32x8Part13[5] == Idx32x8Closed(109);
    assert Idx32x8Part13[6] == Idx32x8Closed(110);
    assert Idx32x8Part13[7] == Idx32x8Closed(111);
  }

  lemma Idx32x8Part14Closed()
    ensures forall lo | 0 <= lo < 8 :: Idx32x8Part14[lo] == Idx32x8Closed(112 + lo)
  {
    assert Idx32x8Part14[0] == Idx32x8Closed(112);
    assert Idx32x8Part14[1] == Idx32x8Closed(113);
    assert Idx32x8Part14[2] == Idx32x8Closed(114);
    assert Idx32x8Part14[3] == Idx32x8Closed(115);
    assert Idx32x8Part14[4] == Idx32x8Closed(116);
    assert Idx32x8Part14[5] == Idx32x8Closed(117);
    assert Idx32x8Part14[6] == Idx32x8Closed(118);
    assert Idx32x8Part14[7] == Idx32x8Closed(119);
  }

  lemma Idx32x8Part15Closed()
    ensures forall lo | 0 <= lo < 8 :: Idx32x8Part15[lo] == Idx32x8Closed(120 + lo)
  {
    assert Idx32x8Part15[0] == Idx32x8Closed(120);
    assert Idx32x8Part15[1] == Idx32x8Closed(121);
    assert Idx32x8Part15[2] == Idx32x8Closed(122);
    assert Idx32x8Part15[3] == Idx32x8Closed(123);
    assert Idx32x8Part15[4] == Idx32x8Closed(124);
    assert Idx32x8Part15[5] == Idx32x8Closed(125);
    assert Idx32x8Part15[6] == Idx32x8Closed(126);
    assert Idx32x8Part15[7] == Idx32x8Closed(127);
  }

  lemma Idx32x8Part16Closed()
    ensures forall lo | 0 <= lo < 8 :: Idx32x8Part16[lo] == Idx32x8Closed(128 + lo)
  {
    assert Idx32x8Part16[0] == Idx32x8Closed(128);
    assert Idx32x8Part16[1] == Idx32x8Closed(129);
    assert Idx32x8Part16[2] == Idx32x8Closed(130);
    assert Idx32x8Part16[3] == Idx32x8Closed(131);
    assert Idx32x8Part16[4] == Idx32x8Closed(132);
    assert Idx32x8Part16[5] == Idx32x8Closed(133);
    assert Idx32x8Part16[6] == Idx32x8Closed(134);
    assert Idx32x8Part16[7] == Idx32x8Closed(135);
  }

  lemma Idx32x8Part17Closed()
    ensures forall lo | 0 <= lo < 8 :: Idx32x8Part17[lo] == Idx32x8Closed(136 + lo)
  {
    assert Idx32x8Part17[0] == Idx32x8Closed(136);
    assert Idx32x8Part17[1] == Idx32x8Closed(137);
    assert Idx32x8Part17[2] == Idx32x8Closed(138);
    assert Idx32x8Part17[3] == Idx32x8Closed(139);
    assert Idx32x8Part17[4] == Idx32x8Closed(140);
    assert Idx32x8Part17[5] == Idx32x8Closed(141);
    assert Idx32x8Part17[6] == Idx32x8Closed(142);
    assert Idx32x8Part17[7] == Idx32x8Closed(143);
  }

  lemma Idx32x8Part18Closed()
    ensures forall lo | 0 <= lo < 8 :: Idx32x8Part18[lo] == Idx32x8Closed(144 + lo)
  {
    assert Idx32x8Part18[0] == Idx32x8Closed(144);
    assert Idx32x8Part18[1] == Idx32x8Closed(145);
    assert Idx32x8Part18[2] == Idx32x8Closed(146);
    assert Idx32x8Part18[3] == Idx32x8Closed(147);
    assert Idx32x8Part18[4] == Idx32x8Closed(148);
    assert Idx32x8Part18[5] == Idx32x8Closed(149);
    assert Idx32x8Part18[6] == Idx32x8Closed(150);
    assert Idx32x8Part18[7] == Idx32x8Closed(151);
  }

  lemma Idx32x8Part19Closed()
    ensures forall lo | 0 <= lo < 8 :: Idx32x8Part19[lo] == Idx32x8Closed(152 + lo)
  {
    assert Idx32x8Part19[0] == Idx32x8Closed(152);
    assert Idx32x8Part19[1] == Idx32x8Closed(153);
    assert Idx32x8Part19[2] == Idx32x8Closed(154);
    assert Idx32x8Part19[3] == Idx32x8Closed(155);
    assert Idx32x8Part19[4] == Idx32x8Closed(156);
    assert Idx32x8Part19[5] == Idx32x8Closed(157);
    assert Idx32x8Part19[6] == Idx32x8Closed(158);
    assert Idx32x8Part19[7] == Idx32x8Closed(159);
  }

  lemma Idx32x8Part20Closed()
    ensures forall lo | 0 <= lo < 8 :: Idx32x8Part20[lo] == Idx32x8Closed(160 + lo)
  {
    assert Idx32x8Part20[0] == Idx32x8Closed(160);
    assert Idx32x8Part20[1] == Idx32x8Closed(161);
    assert Idx32x8Part20[2] == Idx32x8Closed(162);
    assert Idx32x8Part20[3] == Idx32x8Closed(163);
    assert Idx32x8Part20[4] == Idx32x8Closed(164);
    assert Idx32x8Part20[5] == Idx32x8Closed(165);
    assert Idx32x8Part20[6] == Idx32x8Closed(166);
    assert Idx32x8Part20[7] == Idx32x8Closed(167);
  }

  lemma Idx32x8Part21Closed()
    ensures forall lo | 0 <= lo < 8 :: Idx32x8Part21[lo] == Idx32x8Closed(168 + lo)
  {
    assert Idx32x8Part21[0] == Idx32x8Closed(168);
    assert Idx32x8Part21[1] == Idx32x8Closed(169);
    assert Idx32x8Part21[2] == Idx32x8Closed(170);
    assert Idx32x8Part21[3] == Idx32x8Closed(171);
    assert Idx32x8Part21[4] == Idx32x8Closed(172);
    assert Idx32x8Part21[5] == Idx32x8Closed(173);
    assert Idx32x8Part21[6] == Idx32x8Closed(174);
    assert Idx32x8Part21[7] == Idx32x8Closed(175);
  }

  lemma Idx32x8Part22Closed()
    ensures forall lo | 0 <= lo < 8 :: Idx32x8Part22[lo] == Idx32x8Closed(176 + lo)
  {
    assert Idx32x8Part22[0] == Idx32x8Closed(176);
    assert Idx32x8Part22[1] == Idx32x8Closed(177);
    assert Idx32x8Part22[2] == Idx32x8Closed(178);
    assert Idx32x8Part22[3] == Idx32x8Closed(179);
    assert Idx32x8Part22[4] == Idx32x8Closed(180);
    assert Idx32x8Part22[5] == Idx32x8Closed(181);
    assert Idx32x8Part22[6] == Idx32x8Closed(182);
    assert Idx32x8Part22[7] == Idx32x8Closed(183);
  }

  lemma Idx32x8Part23Closed()
    ensures forall lo | 0 <= lo < 8 :: Idx32x8Part23[lo] == Idx32x8Closed(184 + lo)
  {
    assert Idx32x8Part23[0] == Idx32x8Closed(184);
    assert Idx32x8Part23[1] == Idx32x8Closed(185);
    assert Idx32x8Part23[2] == Idx32x8Closed(186);
    assert Idx32x8Part23[3] == Idx32x8Closed(187);
    assert Idx32x8Part23[4] == Idx32x8Closed(188);
    assert Idx32x8Part23[5] == Idx32x8Closed(189);
    assert Idx32x8Part23[6] == Idx32x8Closed(190);
    assert Idx32x8Part23[7] == Idx32x8Closed(191);
  }

  lemma Idx32x8Part24Closed()
    ensures forall lo | 0 <= lo < 8 :: Idx32x8Part24[lo] == Idx32x8Closed(192 + lo)
  {
    assert Idx32x8Part24[0] == Idx32x8Closed(192);
    assert Idx32x8Part24[1] == Idx32x8Closed(193);
    assert Idx32x8Part24[2] == Idx32x8Closed(194);
    assert Idx32x8Part24[3] == Idx32x8Closed(195);
    assert Idx32x8Part24[4] == Idx32x8Closed(196);
    assert Idx32x8Part24[5] == Idx32x8Closed(197);
    assert Idx32x8Part24[6] == Idx32x8Closed(198);
    assert Idx32x8Part24[7] == Idx32x8Closed(199);
  }

  lemma Idx32x8Part25Closed()
    ensures forall lo | 0 <= lo < 8 :: Idx32x8Part25[lo] == Idx32x8Closed(200 + lo)
  {
    assert Idx32x8Part25[0] == Idx32x8Closed(200);
    assert Idx32x8Part25[1] == Idx32x8Closed(201);
    assert Idx32x8Part25[2] == Idx32x8Closed(202);
    assert Idx32x8Part25[3] == Idx32x8Closed(203);
    assert Idx32x8Part25[4] == Idx32x8Closed(204);
    assert Idx32x8Part25[5] == Idx32x8Closed(205);
    assert Idx32x8Part25[6] == Idx32x8Closed(206);
    assert Idx32x8Part25[7] == Idx32x8Closed(207);
  }

  lemma Idx32x8Part26Closed()
    ensures forall lo | 0 <= lo < 8 :: Idx32x8Part26[lo] == Idx32x8Closed(208 + lo)
  {
    assert Idx32x8Part26[0] == Idx32x8Closed(208);
    assert Idx32x8Part26[1] == Idx32x8Closed(209);
    assert Idx32x8Part26[2] == Idx32x8Closed(210);
    assert Idx32x8Part26[3] == Idx32x8Closed(211);
    assert Idx32x8Part26[4] == Idx32x8Closed(212);
    assert Idx32x8Part26[5] == Idx32x8Closed(213);
    assert Idx32x8Part26[6] == Idx32x8Closed(214);
    assert Idx32x8Part26[7] == Idx32x8Closed(215);
  }

  lemma Idx32x8Part27Closed()
    ensures forall lo | 0 <= lo < 8 :: Idx32x8Part27[lo] == Idx32x8Closed(216 + lo)
  {
    assert Idx32x8Part27[0] == Idx32x8Closed(216);
    assert Idx32x8Part27[1] == Idx32x8Closed(217);
    assert Idx32x8Part27[2] == Idx32x8Closed(218);
    assert Idx32x8Part27[3] == Idx32x8Closed(219);
    assert Idx32x8Part27[4] == Idx32x8Closed(220);
    assert Idx32x8Part27[5] == Idx32x8Closed(221);
    assert Idx32x8Part27[6] == Idx32x8Closed(222);
    assert Idx32x8Part27[7] == Idx32x8Closed(223);
  }

  lemma Idx32x8Part28Closed()
    ensures forall lo | 0 <= lo < 8 :: Idx32x8Part28[lo] == Idx32x8Closed(224 + lo)
  {
    assert Idx32x8Part28[0] == Idx32x8Closed(224);
    assert Idx32x8Part28[1] == Idx32x8Closed(225);
    assert Idx32x8Part28[2] == Idx32x8Closed(226);
    assert Idx32x8Part28[3] == Idx32x8Closed(227);
    assert Idx32x8Part28[4] == Idx32x8Closed(228);
    assert Idx32x8Part28[5] == Idx32x8Closed(229);
    assert Idx32x8Part28[6] == Idx32x8Closed(230);
    assert Idx32x8Part28[7] == Idx32x8Closed(231);
  }

  lemma Idx32x8Part29Closed()
    ensures forall lo | 0 <= lo < 8 :: Idx32x8Part29[lo] == Idx32x8Closed(232 + lo)
  {
    assert Idx32x8Part29[0] == Idx32x8Closed(232);
    assert Idx32x8Part29[1] == Idx32x8Closed(233);
    assert Idx32x8Part29[2] == Idx32x8Closed(234);
    assert Idx32x8Part29[3] == Idx32x8Closed(235);
    assert Idx32x8Part29[4] == Idx32x8Closed(236);
    assert Idx32x8Part29[5] == Idx32x8Closed(237);
    assert Idx32x8Part29[6] == Idx32x8Closed(238);
    assert Idx32x8Part29[7] == Idx32x8Closed(239);
  }

  lemma Idx32x8Part30Closed()
    ensures forall lo | 0 <= lo < 8 :: Idx32x8Part30[lo] == Idx32x8Closed(240 + lo)
  {
    assert Idx32x8Part30[0] == Idx32x8Closed(240);
    assert Idx32x8Part30[1] == Idx32x8Closed(241);
    assert Idx32x8Part30[2] == Idx32x8Closed(242);
    assert Idx32x8Part30[3] == Idx32x8Closed(243);
    assert Idx32x8Part30[4] == Idx32x8Closed(244);
    assert Idx32x8Part30[5] == Idx32x8Closed(245);
    assert Idx32x8Part30[6] == Idx32x8Closed(246);
    assert Idx32x8Part30[7] == Idx32x8Closed(247);
  }

  lemma Idx32x8Part31Closed()
    ensures forall lo | 0 <= lo < 8 :: Idx32x8Part31[lo] == Idx32x8Closed(248 + lo)
  {
    assert Idx32x8Part31[0] == Idx32x8Closed(248);
    assert Idx32x8Part31[1] == Idx32x8Closed(249);
    assert Idx32x8Part31[2] == Idx32x8Closed(250);
    assert Idx32x8Part31[3] == Idx32x8Closed(251);
    assert Idx32x8Part31[4] == Idx32x8Closed(252);
    assert Idx32x8Part31[5] == Idx32x8Closed(253);
    assert Idx32x8Part31[6] == Idx32x8Closed(254);
    assert Idx32x8Part31[7] == Idx32x8Closed(255);
  }

  /** The closed form unrolls Packed with one-nibble slots p. */
  lemma Idx32x8ClosedPacked(m: nat)
    ensures Idx32x8Closed(m) == Packed(1, 0, 16, 0, m, 8)
  {
    assert Packed(1, 0, 16, 7, m / 128, 1) == Place(m / 128, 0x7, 0x10, 0x0, 0);
    assert m / 64 / 2 == m / 128;
    assert Packed(1, 0, 16, 6, m / 64, 2) == Place(m / 64, 0x6, 0x10, 0x0, Packed(1, 0, 16, 7, m / 128, 1));
    assert m / 32 / 2 == m / 64;
    assert Packed(1, 0, 16, 5, m / 32, 3) == Place(m / 32, 0x5, 0x10, 0x0, Packed(1, 0, 16, 6, m / 64, 2));
    assert m / 16 / 2 == m / 32;
    assert Packed(1, 0, 16, 4, m / 16, 4) == Place(m / 16, 0x4, 0x10, 0x0, Packed(1, 0, 16, 5, m / 32, 3));
    assert m / 8 / 2 == m / 16;
    assert Packed(1, 0, 16, 3, m / 8, 5) == Place(m / 8, 0x3, 0x10, 0x0, Packed(1, 0, 16, 4, m / 16, 4));
    assert m / 4 / 2 == m / 8;
    assert Packed(1, 0, 16, 2, m / 4, 6) == Place(m / 4, 0x2, 0x10, 0x0, Packed(1, 0, 16, 3, m / 8, 5));
    assert m / 2 / 2 == m / 4;
    assert Packed(1, 0, 16, 1, m / 2, 7) == Place(m / 2, 0x1, 0x10, 0x0, Packed(1, 0, 16, 2, m / 4, 6));
    assert Packed(1, 0, 16, 0, m, 8) == Place(m, 0x0, 0x10, 0x0, Packed(1, 0, 16, 1, m / 2, 7));
  }

  /** Word m of a part h is entry m - 8 * h of that part. */
  lemma Idx32x8WordPart(h: nat, m: nat)
    requires h < 32 && 8 * h <= m < 8 * h + 8
    ensures Idx32x8Word(m) == Idx32x8Block(h)[m - 8 * h]
  {
    Idx32x8WordInBlock(0, 32, m);
    assert m / 8 == h;
  }

  lemma Idx32x8Part0Words()
    ensures forall m | 0 <= m < 8 :: Idx32x8Word(m) == Idx32x8Closed(m)
  {
    Idx32x8Part0Closed();
    assert Idx32x8Block(0) == Idx32x8Part0;
    forall m | 0 <= m < 8
      ensures Idx32x8Word(m) == Idx32x8Closed(m)
    {
      Idx32x8WordPart(0, m);
    }
  }

  lemma Idx32x8Part1Words()
    ensures forall m | 8 <= m < 16 :: Idx32x8Word(m) == Idx32x8Closed(m)
  {
    Idx32x8Part1Closed();
    assert Idx32x8Block(1) == Idx32x8Part1;
    forall m | 8 <= m < 16
      ensures Idx32x8Word(m) == Idx32x8Closed(m)
    {
      Idx32x8WordPart(1, m);
    }
  }

  lemma Idx32x8Part2Words()
    ensures forall m | 16 <= m < 24 :: Idx32x8Word(m) == Idx32x8Closed(m)
  {
    Idx32x8Part2Closed();
    assert Idx32x8Block(2) == Idx32x8Part2;
    forall m | 16 <= m < 24
      ensures Idx32x8Word(m) == Idx32x8Closed(m)
    {
      Idx32x8WordPart(2, m);
    }
  }

  lemma Idx32x8Part3Words()
    ensures forall m | 24 <= m < 32 :: Idx32x8Word(m) == Idx32x8Closed(m)
  {
    Idx32x8Part3Closed();
    assert Idx32x8Block(3) == Idx32x8Part3;
    forall m | 24 <= m < 32
      ensures Idx32x8Word(m) == Idx32x8Closed(m)
    {
      Idx32x8WordPart(3, m);
    }
  }

  lemma Idx32x8Part4Words()
    ensures forall m | 32 <= m < 40 :: Idx32x8Word(m) == Idx32x8Closed(m)
  {
    Idx32x8Part4Closed();
    assert Idx32x8Block(4) == Idx32x8Part4;
    forall m | 32 <= m < 40
      ensures Idx32x8Word(m) == Idx32x8Closed(m)
    {
      Idx32x8WordPart(4, m);
    }
  }

  lemma Idx32x8Part5Words()
    ensures forall m | 40 <= m < 48 :: Idx32x8Word(m) == Idx32x8Closed(m)
  {
    Idx32x8Part5Closed();
    assert Idx32x8Block(5) == Idx32x8Part5;
    forall m | 40 <= m < 48
      ensures Idx32x8Word(m) == Idx32x8Closed(m)
    {
      Idx32x8WordPart(5, m);
    }
  }

  lemma Idx32x8Part6Words()
    ensures forall m | 48 <= m < 56 :: Idx32x8Word(m) == Idx32x8Closed(m)
  {
    Idx32x8Part6Closed();
    assert Idx32x8Block(6) == Idx32x8Part6;
    forall m | 48 <= m < 56
      ensures Idx32x8Word(m) == Idx32x8Closed(m)
    {
      Idx32x8WordPart(6, m);
    }
  }

  lemma Idx32x8Part7Words()
    ensures forall m | 56 <= m < 64 :: Idx32x8Word(m) == Idx32x8Closed(m)
  {
    Idx32x8Part7Closed();
    assert Idx32x8Block(7) == Idx32x8Part7;
    forall m | 56 <= m < 64
      ensures Idx32x8Word(m) == Idx32x8Closed(m)
    {
      Idx32x8WordPart(7, m);
    }
  }

  lemma Idx32x8Part8Words()
    ensures forall m | 64 <= m < 72 :: Idx32x8Word(m) == Idx32x8Closed(m)
  {
    Idx32x8Part8Closed();
    assert Idx32x8Block(8) == Idx32x8Part8;
    forall m | 64 <= m < 72
      ensures Idx32x8Word(m) == Idx32x8Closed(m)
    {
      Idx32x8WordPart(8, m);
    }
  }

  lemma Idx32x8Part9Words()
    ensures forall m | 72 <= m < 80 :: Idx32x8Word(m) == Idx32x8Closed(m)
  {
    Idx32x8Part9Closed();
    assert Idx32x8Block(9) == Idx32x8Part9;
    forall m | 72 <= m < 80
      ensures Idx32x8Word(m) == Idx32x8Closed(m)
    {
      Idx32x8WordPart(9, m);
    }
  }

  lemma Idx32x8Part10Words()
    ensures forall m | 80 <= m < 88 :: Idx32x8Word(m) == Idx32x8Closed(m)
  {
    Idx32x8Part10Closed();
    assert Idx32x8Block(10) == Idx32x8Part10;
    forall m | 80 <= m < 88
      ensures Idx32x8Word(m) == Idx32x8Closed(m)
    {
      Idx32x8WordPart(10, m);
    }
  }

  lemma Idx32x8Part11Words()
    ensures forall m | 88 <= m < 96 :: Idx32x8Word(m) == Idx32x8Closed(m)
  {
    Idx32x8Part11Closed();
    assert Idx32x8Block(11) == Idx32x8Part11;
    forall m | 88 <= m < 96
      ensures Idx32x8Word(m) == Idx32x8Closed(m)
    {
      Idx32x8WordPart(11, m);
    }
  }

  lemma Idx32x8Part12Words()
    ensures forall m | 96 <= m < 104 :: Idx32x8Word(m) == Idx32x8Closed(m)
  {
    Idx32x8Part12Closed();
    assert Idx32x8Block(12) == Idx32x8Part12;
    forall m | 96 <= m < 104
      ensures Idx32x8Word(m) == Idx32x8Closed(m)
    {
      Idx32x8WordPart(12, m);
    }
  }

  lemma Idx32x8Part13Words()
    ensures forall m | 104 <= m < 112 :: Idx32x8Word(m) == Idx32x8Closed(m)
  {
    Idx32x8Part13Closed();
    assert Idx32x8Block(13) == Idx32x8Part13;
    forall m | 104 <= m < 112
      ensures Idx32x8Word(m) == Idx32x8Closed(m)
    {
      Idx32x8WordPart(13, m);
    }
  }

  lemma Idx32x8Part14Words()
    ensures forall m | 112 <= m < 120 :: Idx32x8Word(m) == Idx32x8Closed(m)
  {
    Idx32x8Part14Closed();
    assert Idx32x8Block(14) == Idx32x8Part14;
    forall m | 112 <= m < 120
      ensures Idx32x8Word(m) == Idx32x8Closed(m)
    {
      Idx32x8WordPart(14, m);
    }
  }

  lemma Idx32x8Part15Words()
    ensures forall m | 120 <= m < 128 :: Idx32x8Word(m) == Idx32x8Closed(m)
  {
    Idx32x8Part15Closed();
    assert Idx32x8Block(15) == Idx32x8Part15;
    forall m | 120 <= m < 128
      ensures Idx32x8Word(m) == Idx32x8Closed(m)
    {
      Idx32x8WordPart(15, m);
    }
  }

  lemma Idx32x8Part16Words()
    ensures forall m | 128 <= m < 136 :: Idx32x8Word(m) == Idx32x8Closed(m)
  {
    Idx32x8Part16Closed();
    assert Idx32x8Block(16) == Idx32x8Part16;
    forall m | 128 <= m < 136
      ensures Idx32x8Word(m) == Idx32x8Closed(m)
    {
      Idx32x8WordPart(16, m);
    }
  }

  lemma Idx32x8Part17Words()
    ensures forall m | 136 <= m < 144 :: Idx32x8Word(m) == Idx32x8Closed(m)
  {
    Idx32x8Part17Closed();
    assert Idx32x8Block(17) == Idx32x8Part17;
    forall m | 136 <= m < 144
      ensures Idx32x8Word(m) == Idx32x8Closed(m)
    {
      Idx32x8WordPart(17, m);
    }
  }

  lemma Idx32x8Part18Words()
    ensures forall m | 144 <= m < 152 :: Idx32x8Word(m) == Idx32x8Closed(m)
  {
    Idx32x8Part18Closed();
    assert Idx32x8Block(18) == Idx32x8Part18;
    forall m | 144 <= m < 152
      ensures Idx32x8Word(m) == Idx32x8Closed(m)
    {
      Idx32x8WordPart(18, m);
    }
  }

  lemma Idx32x8Part19Words()
    ensures forall m | 152 <= m < 160 :: Idx32x8Word(m) == Idx32x8Closed(m)
  {
    Idx32x8Part19Closed();
    assert Idx32x8Block(19) == Idx32x8Part19;
    forall m | 152 <= m < 160
      ensures Idx32x8Word(m) == Idx32x8Closed(m)
    {
      Idx32x8WordPart(19, m);
    }
  }

  lemma Idx32x8Part20Words()
    ensures forall m | 160 <= m < 168 :: Idx32x8Word(m) == Idx32x8Closed(m)
  {
    Idx32x8Part20Closed();
    assert Idx32x8Block(20) == Idx32x8Part20;
    forall m | 160 <= m < 168
      ensures Idx32x8Word(m) == Idx32x8Closed(m)
    {
      Idx32x8WordPart(20, m);
    }
  }

  lemma Idx32x8Part21Words()
    ensures forall m | 168 <= m < 176 :: Idx32x8Word(m) == Idx32x8Closed(m)
  {
    Idx32x8Part21Closed();
    assert Idx32x8Block(21) == Idx32x8Part21;
    forall m | 168 <= m < 176
      ensures Idx32x8Word(m) == Idx32x8Closed(m)
    {
      Idx32x8WordPart(21, m);
    }
  }

  lemma Idx32x8Part22Words()
    ensures forall m | 176 <= m < 184 :: Idx32x8Word(m) == Idx32x8Closed(m)
  {
    Idx32x8Part22Closed();
    assert Idx32x8Block(22) == Idx32x8Part22;
    forall m | 176 <= m < 184
      ensures Idx32x8Word(m) == Idx32x8Closed(m)
    {
      Idx32x8WordPart(22, m);
    }
  }

  lemma Idx32x8Part23Words()
    ensures forall m | 184 <= m < 192 :: Idx32x8Word(m) == Idx32x8Closed(m)
  {
    Idx32x8Part23Closed();
    assert Idx32x8Block(23) == Idx32x8Part23;
    forall m | 184 <= m < 192
      ensures Idx32x8Word(m) == Idx32x8Closed(m)
    {
      Idx32x8WordPart(23, m);
    }
  }

  lemma Idx32x8Part24Words()
    ensures forall m | 192 <= m < 200 :: Idx32x8Word(m) == Idx32x8Closed(m)
  {
    Idx32x8Part24Closed();
    assert Idx32x8Block(24) == Idx32x8Part24;
    forall m | 192 <= m < 200
      ensures Idx32x8Word(m) == Idx32x8Closed(m)
    {
      Idx32x8WordPart(24, m);
    }
  }

  lemma Idx32x8Part25Words()
    ensures forall m | 200 <= m < 208 :: Idx32x8Word(m) == Idx32x8Closed(m)
  {
    Idx32x8Part25Closed();
    assert Idx32x8Block(25) == Idx32x8Part25;
    forall m | 200 <= m < 208
      ensures Idx32x8Word(m) == Idx32x8Closed(m)
    {
      Idx32x8WordPart(25, m);
    }
  }

  lemma Idx32x8Part26Words()
    ensures forall m | 208 <= m < 216 :: Idx32x8Word(m) == Idx32x8Closed(m)
  {
    Idx32x8Part26Closed();
    assert Idx32x8Block(26) == Idx32x8Part26;
    forall m | 208 <= m < 216
      ensures Idx32x8Word(m) == Idx32x8Closed(m)
    {
      Idx32x8WordPart(26, m);
    }
  }

  lemma Idx32x8Part27Words()
    ensures forall m | 216 <= m < 224 :: Idx32x8Word(m) == Idx32x8Closed(m)
  {
    Idx32x8Part27Closed();
    assert Idx32x8Block(27) == Idx32x8Part27;
    forall m | 216 <= m < 224
      ensures Idx32x8Word(m) == Idx32x8Closed(m)
    {
      Idx32x8WordPart(27, m);
    }
  }

  lemma Idx32x8Part28Words()
    ensures forall m | 224 <= m < 232 :: Idx32x8Word(m) == Idx32x8Closed(m)
  {
    Idx32x8Part28Closed();
    assert Idx32x8Block(28) == Idx32x8Part28;
    forall m | 224 <= m < 232
      ensures Idx32x8Word(m) == Idx32x8Closed(m)
    {
      Idx32x8WordPart(28, m);
    }
  }

  lemma Idx32x8Part29Words()
    ensures forall m | 232 <= m < 240 :: Idx32x8Word(m) == Idx32x8Closed(m)
  {
    Idx32x8Part29Closed();
    assert Idx32x8Block(29) == Idx32x8Part29;
    forall m | 232 <= m < 240
      ensures Idx32x8Word(m) == Idx32x8Closed(m)
    {
      Idx32x8WordPart(29, m);
    }
  }

  lemma Idx32x8Part30Words()
    ensures forall m | 240 <= m < 248 :: Idx32x8Word(m) == Idx32x8Closed(m)
  {
    Idx32x8Part30Closed();
    assert Idx32x8Block(30) == Idx32x8Part30;
    forall m | 240 <= m < 248
      ensures Idx32x8Word(m) == Idx32x8Closed(m)
    {
      Idx32x8WordPart(30, m);
    }
  }

  lemma Idx32x8Part31Words()
    ensures forall m | 248 <= m < 256 :: Idx32x8Word(m) == Idx32x8Closed(m)
  {
    Idx32x8Part31Closed();
    assert Idx32x8Block(31) == Idx32x8Part31;
    forall m | 248 <= m < 256
      ensures Idx32x8Word(m) == Idx32x8Closed(m)
    {
      Idx32x8WordPart(31, m);
    }
  }

  /** Words 0 .. 63 of packed_array[256] in closed form. */
  lemma Idx32x8Quarter0Closed(m: nat)
    requires 0 <= m < 64
    ensures Idx32x8Word(m) == Idx32x8Closed(m)
  {
    if m < 8 {
      Idx32x8Part0Words();
    }
    else if m < 16 {
      Idx32x8Part1Words();
    }
    else if m < 24 {
      Idx32x8Part2Words();
    }
    else if m < 32 {
      Idx32x8Part3Words();
    }
    else if m < 40 {
      Idx32x8Part4Words();
    }
    else if m < 48 {
      Idx32x8Part5Words();
    }
    else if m < 56 {
      Idx32x8Part6Words();
    }
    else {
      Idx32x8Part7Words();
    }
  }

  /** Words 64 .. 127 of packed_array[256] in closed form. */
  lemma Idx32x8Quarter1Closed(m: nat)
    requires 64 <= m < 128
    ensures Idx32x8Word(m) == Idx32x8Closed(m)
  {
    if m < 72 {
      Idx32x8Part8Words();
    }
    else if m < 80 {
      Idx32x8Part9Words();
    }
    else if m < 88 {
      Idx32x8Part10Words();
    }
    else if m < 96 {
      Idx32x8Part11Words();
    }
    else if m < 104 {
      Idx32x8Part12Words();
    }
    else if m < 112 {
      Idx32x8Part13Words();
    }
    else if m < 120 {
      Idx32x8Part14Words();
    }
    else {
      Idx32x8Part15Words();
    }
  }

  /** Words 128 .. 191 of packed_array[256] in closed form. */
  lemma Idx32x8Quarter2Closed(m: nat)
    requires 128 <= m < 192
    ensures Idx32x8Word(m) == Idx32x8Closed(m)
  {
    if m < 136 {
      Idx32x8Part16Words();
    }
    else if m < 144 {
      Idx32x8Part17Words();
    }
    else if m < 152 {
      Idx32x8Part18Words();
    }
    else if m < 160 {
      Idx32x8Part19Words();
    }
    else if m < 168 {
      Idx32x8Part20Words();
    }
    else if m < 176 {
      Idx32x8Part21Words();
    }
    else if m < 184 {
      Idx32x8Part22Words();
    }
    else {
      Idx32x8Part23Words();
    }
  }

  /** Words 192 .. 255 of packed_array[256] in closed form. */
  lemma Idx32x8Quarter3Closed(m: nat)
    requires 192 <= m < 256
    ensures Idx32x8Word(m) == Idx32x8Closed(m)
  {
    if m < 200 {
      Idx32x8Part24Words();
    }
    else if m < 208 {
      Idx32x8Part25Words();
    }
    else if m < 216 {
      Idx32x8Part26Words();
    }
    else if m < 224 {
      Idx32x8Part27Words();
    }
    else if m < 232 {
      Idx32x8Part28Words();
    }
    else if m < 240 {
      Idx32x8Part29Words();
    }
    else if m < 248 {
      Idx32x8Part30Words();
    }
    else {
      Idx32x8Part31Words();
    }
  }

  /** Every word of packed_array[256] is the packed row of lane indices. */
  lemma Idx32x8WordPacked(m: nat)
    requires m < 256
    ensures Idx32x8Word(m) == Packed(1, 0, 16, 0, m, 8)
  {
    if m < 64 {
      Idx32x8Quarter0Closed(m);
    } else if m < 128 {
      Idx32x8Quarter1Closed(m);
    } else if m < 192 {
      Idx32x8Quarter2Closed(m);
    } else {
      Idx32x8Quarter3Closed(m);
    }
    Idx32x8ClosedPacked(m);
  }

  /** The eight nibbles of word m: the index of each selected lane in ascending order, then zeros. */
  lemma Idx32x8Nibbles(m: nat)
    requires m < 256
    ensures ToDigits(Idx32x8Word(m), 16, 8) == Slots(1, 0, Indices(BitsOf(m, 8)))
  {
    Idx32x8WordPacked(m);
    RowSlots(1, 16, m, 8);
  }

  // ------------------------------------------------------------ Idx64x4FromBits

  /*
   * packed_array[16 * 8] of Idx64x4FromBits: for mask bits m, the 32-bit
   * indices 2 * p, 2 * p + 1 of each selected 64-bit lane p, then 0, 1 (lane 0).
   */
  const Idx64x4Rows: seq<nat> := [
    0x00000001_00000000_00000001_00000000_00000001_00000000_00000001_00000000,
    0x00000001_00000000_00000001_00000000_00000001_00000000_00000001_00000000,
    0x00000001_00000000_00000001_00000000_00000001_00000000_00000003_00000002,
    0x00000001_00000000_00000001_00000000_00000003_00000002_00000001_00000000,
    0x00000001_00000000_00000001_00000000_00000001_00000000_00000005_00000004,
    0x00000001_00000000_00000001_00000000_00000005_00000004_00000001_00000000,
    0x00000001_00000000_00000001_00000000_00000005_00000004_00000003_00000002,
    0x00000001_00000000_00000005_00000004_00000003_00000002_00000001_00000000,
    0x00000001_00000000_00000001_00000000_00000001_00000000_00000007_00000006,
    0x00000001_00000000_00000001_00000000_00000007_00000006_00000001_00000000,
    0x00000001_00000000_00000001_00000000_00000007_00000006_00000003_00000002,
    0x00000001_00000000_00000007_00000006_00000003_00000002_00000001_00000000,
    0x00000001_00000000_00000001_00000000_00000007_00000006_00000005_00000004,
    0x00000001_00000000_00000007_00000006_00000005_00000004_00000001_00000000,
    0x00000001_00000000_00000007_00000006_00000005_00000004_00000003_00000002,
    0x00000007_00000006_00000005_00000004_00000003_00000002_00000001_00000000
  ]

  /** Row m as a closed form in the bits of m; each slot is two 32-bit indices. */
  function Idx64x4Closed(m: nat): nat
  {
    Place(m, 0x1_00000000, 0x1_00000000_00000000, 0x1_00000000_00000000_00000000_00000000_00000000_00000000_00000000, Place(m / 2, 0x3_00000002, 0x1_00000000_00000000, 0x1_00000000_00000000_00000000_00000000_00000000, Place(m / 4, 0x5_00000004, 0x1_00000000_00000000, 0x1_00000000_00000000_00000000, Place(m / 8, 0x7_00000006, 0x1_00000000_00000000, 0x1_00000000, 0))))
  }

  lemma Idx64x4RowsLowClosed()
    ensures forall m | 0 <= m < 8 :: Idx64x4Rows[m] == Idx64x4Closed(m)
  {
    assert Idx64x4Rows[0] == Idx64x4Closed(0);
    assert Idx64x4Rows[1] == Idx64x4Closed(1);
    assert Idx64x4Rows[2] == Idx64x4Closed(2);
    assert Idx64x4Rows[3] == Idx64x4Closed(3);
    assert Idx64x4Rows[4] == Idx64x4Closed(4);
    assert Idx64x4Rows[5] == Idx64x4Closed(5);
    assert Idx64x4Rows[6] == Idx64x4Closed(6);
    assert Idx64x4Rows[7] == Idx64x4Closed(7);
  }

  lemma Idx64x4RowsHighClosed()
    ensures forall m | 8 <= m < 16 :: Idx64x4Rows[m] == Idx64x4Closed(m)
  {
    assert Idx64x4Rows[8] == Idx64x4Closed(8);
    assert Idx64x4Rows[9] == Idx64x4Closed(9);
    assert Idx64x4Rows[10] == Idx64x4Closed(10);
    assert Idx64x4Rows[11] == Idx64x4Closed(11);
    assert Idx64x4Rows[12] == Idx64x4Closed(12);
    assert Idx64x4Rows[13] == Idx64x4Closed(13);
    assert Idx64x4Rows[14] == Idx64x4Closed(14);
    assert Idx64x4Rows[15] == Idx64x4Closed(15);
  }

  /** The closed form unrolls Packed with two-index slots. */
  lemma Idx64x4ClosedPacked(m: nat)
    ensures Idx64x4Closed(m) == Packed(0x2_00000002, 0x1_00000000, 0x1_00000000_00000000, 0, m, 4)
  {
    assert Power(0x1_00000000_00000000, 1) == 0x1_00000000_00000000;
    assert Power(0x1_00000000_00000000, 2) == 0x1_00000000_00000000_00000000_00000000;
    assert Power(0x1_00000000_00000000, 3) == 0x1_00000000_00000000_00000000_00000000_00000000_00000000;
    assert Packed(0x2_00000002, 0x1_00000000, 0x1_00000000_00000000, 3, m / 8, 1) == Place(m / 8, 0x7_00000006, 0x1_00000000_00000000, 0x1_00000000, 0);
    assert m / 4 / 2 == m / 8;
    assert Packed(0x2_00000002, 0x1_00000000, 0x1_00000000_00000000, 2, m / 4, 2) == Place(m / 4, 0x5_00000004, 0x1_00000000_00000000, 0x1_00000000_00000000_00000000, Packed(0x2_00000002, 0x1_00000000, 0x1_00000000_00000000, 3, m / 8, 1));
    assert m / 2 / 2 == m / 4;
    assert Packed(0x2_00000002, 0x1_00000000, 0x1_00000000_00000000, 1, m / 2, 3) == Place(m / 2, 0x3_00000002, 0x1_00000000_00000000, 0x1_00000000_00000000_00000000_00000000_00000000, Packed(0x2_00000002, 0x1_00000000, 0x1_00000000_00000000, 2, m / 4, 2));
    assert Packed(0x2_00000002, 0x1_00000000, 0x1_00000000_00000000, 0, m, 4) == Place(m, 0x1_00000000, 0x1_00000000_00000000, 0x1_00000000_00000000_00000000_00000000_00000000_00000000_00000000, Packed(0x2_00000002, 0x1_00000000, 0x1_00000000_00000000, 1, m / 2, 3));
  }

  /** Stride, Ramp and digit of the pieces of a 64-bit lane in 32-bit halves, as literals. */
  lemma Pieces2Words()
    ensures Stride(2, 0x1_00000000) == 0x2_00000002 && Ramp(2, 0x1_00000000) == 0x1_00000000
    ensures Power(0x1_00000000, 2) == 0x1_00000000_00000000
  {
    assert Repeat(1, 2) == [1, 1];
    assert Span(0, 2) == [0, 1];
  }

  /** The eight 32-bit indices of row m: 2 * p, 2 * p + 1 for each selected lane p, then 0, 1. */
  lemma Idx64x4Indices(m: nat)
    requires m < 16
    ensures ToDigits(Idx64x4Rows[m], 0x1_00000000, 8) == IndexPieces(Indices(BitsOf(m, 4)), 2)
  {
    if m < 8 {
      Idx64x4RowsLowClosed();
    } else {
      Idx64x4RowsHighClosed();
    }
    Idx64x4ClosedPacked(m);
    Pieces2Words();
    RowPieces(2, 0x1_00000000, m, 4);
  }
}
