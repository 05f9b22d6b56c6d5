/** The standard Huffman tables of the encoder (T.81 Annex K.3) and the proof
    that they have a code for every symbol the block coder can emit. */
module StandardTables {
  import opened Words
  import opened Huffman
  import opened Entropy

  const DC_LUM_BITS: seq<byte> := [0, 0, 1, 5, 1, 1, 1, 1, 1, 1, 0, 0, 0, 0, 0, 0, 0]
  const DC_LUM_VAL: seq<byte> := [0, 1, 2, 3, 4, 5, 6, 7, 8, 9, 10, 11]
  const AC_LUM_BITS: seq<byte> := [0, 0, 2, 1, 3, 3, 2, 4, 3, 5, 5, 4, 4, 0, 0, 1, 125]
  const LUM_0: seq<byte> := [0x01, 0x02, 0x03, 0x00, 0x04, 0x11, 0x05, 0x12, 0x21, 0x31, 0x41, 0x06, 0x13, 0x51, 0x61, 0x07]
  const LUM_1: seq<byte> := [0x22, 0x71, 0x14, 0x32, 0x81, 0x91, 0xa1, 0x08, 0x23, 0x42, 0xb1, 0xc1, 0x15, 0x52, 0xd1, 0xf0]
  const LUM_2: seq<byte> := [0x24, 0x33, 0x62, 0x72, 0x82, 0x09, 0x0a, 0x16, 0x17, 0x18, 0x19, 0x1a, 0x25, 0x26, 0x27, 0x28]
  const LUM_3: seq<byte> := [0x29, 0x2a, 0x34, 0x35, 0x36, 0x37, 0x38, 0x39, 0x3a, 0x43, 0x44, 0x45, 0x46, 0x47, 0x48, 0x49]
  const LUM_4: seq<byte> := [0x4a, 0x53, 0x54, 0x55, 0x56, 0x57, 0x58, 0x59, 0x5a, 0x63, 0x64, 0x65, 0x66, 0x67, 0x68, 0x69]
  const LUM_5: seq<byte> := [0x6a, 0x73, 0x74, 0x75, 0x76, 0x77, 0x78, 0x79, 0x7a, 0x83, 0x84, 0x85, 0x86, 0x87, 0x88, 0x89]
  const LUM_6: seq<byte> := [0x8a, 0x92, 0x93, 0x94, 0x95, 0x96, 0x97, 0x98, 0x99, 0x9a, 0xa2, 0xa3, 0xa4, 0xa5, 0xa6, 0xa7]
  const LUM_7: seq<byte> := [0xa8, 0xa9, 0xaa, 0xb2, 0xb3, 0xb4, 0xb5, 0xb6, 0xb7, 0xb8, 0xb9, 0xba, 0xc2, 0xc3, 0xc4, 0xc5]
  const LUM_8: seq<byte> := [0xc6, 0xc7, 0xc8, 0xc9, 0xca, 0xd2, 0xd3, 0xd4, 0xd5, 0xd6, 0xd7, 0xd8, 0xd9, 0xda, 0xe1, 0xe2]
  const LUM_9: seq<byte> := [0xe3, 0xe4, 0xe5, 0xe6, 0xe7, 0xe8, 0xe9, 0xea, 0xf1, 0xf2, 0xf3, 0xf4, 0xf5, 0xf6, 0xf7, 0xf8]
  const LUM_10: seq<byte> := [0xf9, 0xfa]
  const AC_LUM_VAL: seq<byte> :=
    LUM_0 + LUM_1 + LUM_2 + LUM_3 + LUM_4 + LUM_5 +
    LUM_6 + LUM_7 + LUM_8 + LUM_9 + LUM_10
  const DC_CHROMA_BITS: seq<byte> := [0, 0, 3, 1, 1, 1, 1, 1, 1, 1, 1, 1, 0, 0, 0, 0, 0]
  const DC_CHROMA_VAL: seq<byte> := [0, 1, 2, 3, 4, 5, 6, 7, 8, 9, 10, 11]
  const AC_CHROMA_BITS: seq<byte> := [0, 0, 2, 1, 2, 4, 4, 3, 4, 7, 5, 4, 4, 0, 1, 2, 119]
  const CHROMA_0: seq<byte> := [0x00, 0x01, 0x02, 0x03, 0x11, 0x04, 0x05, 0x21, 0x31, 0x06, 0x12, 0x41, 0x51, 0x07, 0x61, 0x71]
  const CHROMA_1: seq<byte> := [0x13, 0x22, 0x32, 0x81, 0x08, 0x14, 0x42, 0x91, 0xa1, 0xb1, 0xc1, 0x09, 0x23, 0x33, 0x52, 0xf0]
  const CHROMA_2: seq<byte> := [0x15, 0x62, 0x72, 0xd1, 0x0a, 0x16, 0x24, 0x34, 0xe1, 0x25, 0xf1, 0x17, 0x18, 0x19, 0x1a, 0x26]
  const CHROMA_3: seq<byte> := [0x27, 0x28, 0x29, 0x2a, 0x35, 0x36, 0x37, 0x38, 0x39, 0x3a, 0x43, 0x44, 0x45, 0x46, 0x47, 0x48]
  const CHROMA_4: seq<byte> := [0x49, 0x4a, 0x53, 0x54, 0x55, 0x56, 0x57, 0x58, 0x59, 0x5a, 0x63, 0x64, 0x65, 0x66, 0x67, 0x68]
  const CHROMA_5: seq<byte> := [0x69, 0x6a, 0x73, 0x74, 0x75, 0x76, 0x77, 0x78, 0x79, 0x7a, 0x82, 0x83, 0x84, 0x85, 0x86, 0x87]
  const CHROMA_6: seq<byte> := [0x88, 0x89, 0x8a, 0x92, 0x93, 0x94, 0x95, 0x96, 0x97, 0x98, 0x99, 0x9a, 0xa2, 0xa3, 0xa4, 0xa5]
  const CHROMA_7: seq<byte> := [0xa6, 0xa7, 0xa8, 0xa9, 0xaa, 0xb2, 0xb3, 0xb4, 0xb5, 0xb6, 0xb7, 0xb8, 0xb9, 0xba, 0xc2, 0xc3]
  const CHROMA_8: seq<byte> := [0xc4, 0xc5, 0xc6, 0xc7, 0xc8, 0xc9, 0xca, 0xd2, 0xd3, 0xd4, 0xd5, 0xd6, 0xd7, 0xd8, 0xd9, 0xda]
  const CHROMA_9: seq<byte> := [0xe2, 0xe3, 0xe4, 0xe5, 0xe6, 0xe7, 0xe8, 0xe9, 0xea, 0xf2, 0xf3, 0xf4, 0xf5, 0xf6, 0xf7, 0xf8]
  const CHROMA_10: seq<byte> := [0xf9, 0xfa]
  const AC_CHROMA_VAL: seq<byte> :=
    CHROMA_0 + CHROMA_1 + CHROMA_2 + CHROMA_3 + CHROMA_4 + CHROMA_5 +
    CHROMA_6 + CHROMA_7 + CHROMA_8 + CHROMA_9 + CHROMA_10

  const DC_LUM := Spec(DC_LUM_BITS, DC_LUM_VAL)
  const AC_LUM := Spec(AC_LUM_BITS, AC_LUM_VAL)
  const DC_CHROMA := Spec(DC_CHROMA_BITS, DC_CHROMA_VAL)
  const AC_CHROMA := Spec(AC_CHROMA_BITS, AC_CHROMA_VAL)

  const LUMA := Coder(DC_LUM, AC_LUM)
  const CHROMA := Coder(DC_CHROMA, AC_CHROMA)

  /** Three more code lengths. */
  lemma ThreeMore(bits: seq<byte>, l: nat, a: nat, b: nat, c: nat)
    requires |bits| == 17 && 1 <= l <= 14 && bits[l] == a && bits[l + 1] == b && bits[l + 2] == c
    ensures Index(bits, l + 3) == Index(bits, l) + a + b + c
    ensures First(bits, l + 3) == 8 * First(bits, l) + 8 * a + 4 * b + 2 * c
  {
    assert Index(bits, l + 1) == Index(bits, l) + a && First(bits, l + 1) == 2 * (First(bits, l) + a);
    assert Index(bits, l + 2) == Index(bits, l + 1) + b && First(bits, l + 2) == 2 * (First(bits, l + 1) + b);
  }

  lemma StartOfCounts(bits: seq<byte>)
    requires |bits| == 17
    ensures Index(bits, 1) == 0 && First(bits, 1) == 0
    ensures Total(bits) == Index(bits, 16) + bits[16]
  {
  }

  lemma DcLumCounts()
    ensures Total(DC_LUM_BITS) == 12 && First(DC_LUM_BITS, 16) + DC_LUM_BITS[16] == 65408
  {
    hide Index, First, Total;
    var bits := DC_LUM_BITS;
    StartOfCounts(bits);
    ThreeMore(bits, 1, 0, 1, 5);
    ThreeMore(bits, 4, 1, 1, 1);
    ThreeMore(bits, 7, 1, 1, 1);
    ThreeMore(bits, 10, 0, 0, 0);
    ThreeMore(bits, 13, 0, 0, 0);
  }

  lemma DcLumSizes()
    ensures Valid(DC_LUM) && Total(DC_LUM_BITS) == 12 && |DC_LUM_VAL| == 12 && DC_LUM_BITS[0] == 0
  {
    hide Index, First;
    DcLumCounts();
    Pow2Values();
    assert |DC_LUM_BITS| == 17 && |DC_LUM_VAL| == 12;
  }

  lemma AcLumCounts()
    ensures Total(AC_LUM_BITS) == 162 && First(AC_LUM_BITS, 16) + AC_LUM_BITS[16] == 65535
  {
    hide Index, First, Total;
    var bits := AC_LUM_BITS;
    StartOfCounts(bits);
    ThreeMore(bits, 1, 0, 2, 1);
    ThreeMore(bits, 4, 3, 3, 2);
    ThreeMore(bits, 7, 4, 3, 5);
    ThreeMore(bits, 10, 5, 4, 4);
    ThreeMore(bits, 13, 0, 0, 1);
  }

  lemma AcLumSizes()
    ensures Valid(AC_LUM) && Total(AC_LUM_BITS) == 162 && |AC_LUM_VAL| == 162 && AC_LUM_BITS[0] == 0
  {
    hide Index, First;
    AcLumCounts();
    Pow2Values();
    assert |AC_LUM_BITS| == 17 && |AC_LUM_VAL| == 162;
  }

  lemma DcChromaCounts()
    ensures Total(DC_CHROMA_BITS) == 12 && First(DC_CHROMA_BITS, 16) + DC_CHROMA_BITS[16] == 65504
  {
    hide Index, First, Total;
    var bits := DC_CHROMA_BITS;
    StartOfCounts(bits);
    ThreeMore(bits, 1, 0, 3, 1);
    ThreeMore(bits, 4, 1, 1, 1);
    ThreeMore(bits, 7, 1, 1, 1);
    ThreeMore(bits, 10, 1, 1, 0);
    ThreeMore(bits, 13, 0, 0, 0);
  }

  lemma DcChromaSizes()
    ensures Valid(DC_CHROMA) && Total(DC_CHROMA_BITS) == 12 && |DC_CHROMA_VAL| == 12 && DC_CHROMA_BITS[0] == 0
  {
    hide Index, First;
    DcChromaCounts();
    Pow2Values();
    assert |DC_CHROMA_BITS| == 17 && |DC_CHROMA_VAL| == 12;
  }

  lemma AcChromaCounts()
    ensures Total(AC_CHROMA_BITS) == 162 && First(AC_CHROMA_BITS, 16) + AC_CHROMA_BITS[16] == 65535
  {
    hide Index, First, Total;
    var bits := AC_CHROMA_BITS;
    StartOfCounts(bits);
    ThreeMore(bits, 1, 0, 2, 1);
    ThreeMore(bits, 4, 2, 4, 4);
    ThreeMore(bits, 7, 3, 4, 7);
    ThreeMore(bits, 10, 5, 4, 4);
    ThreeMore(bits, 13, 0, 1, 2);
  }

  lemma AcChromaSizes()
    ensures Valid(AC_CHROMA) && Total(AC_CHROMA_BITS) == 162 && |AC_CHROMA_VAL| == 162 && AC_CHROMA_BITS[0] == 0
  {
    hide Index, First;
    AcChromaCounts();
    Pow2Values();
    assert |AC_CHROMA_BITS| == 17 && |AC_CHROMA_VAL| == 162;
  }

  /** The rows in which the list is written. */
  function LumPart(k: nat): seq<byte>
    requires k < 11
  {
    match k
    case 0 => LUM_0
    case 1 => LUM_1
    case 2 => LUM_2
    case 3 => LUM_3
    case 4 => LUM_4
    case 5 => LUM_5
    case 6 => LUM_6
    case 7 => LUM_7
    case 8 => LUM_8
    case 9 => LUM_9
    case 10 => LUM_10
  }

  /** The symbols of zero run r, categories 1 to 10, are in some row. */
  ghost predicate LumListed(r: nat)
    requires r < 16
  {
    forall s :: 1 <= s <= 10 ==> exists k: nat :: k < 11 && RunSize(r, s) in LumPart(k)
  }

  lemma LumRow0()
    ensures LumListed(0)
  {
    assert LumPart(0)[0] == 0x01 && LumPart(0)[1] == 0x02 && LumPart(0)[2] == 0x03 && LumPart(0)[4] == 0x04 && LumPart(0)[6] == 0x05 && LumPart(0)[11] == 0x06 && LumPart(0)[15] == 0x07;
    assert LumPart(1)[7] == 0x08;
    assert LumPart(2)[5] == 0x09 && LumPart(2)[6] == 0x0a;
  }

  lemma LumRow1()
    ensures LumListed(1)
  {
    assert LumPart(0)[5] == 0x11 && LumPart(0)[7] == 0x12 && LumPart(0)[12] == 0x13;
    assert LumPart(1)[2] == 0x14 && LumPart(1)[12] == 0x15;
    assert LumPart(2)[7] == 0x16 && LumPart(2)[8] == 0x17 && LumPart(2)[9] == 0x18 && LumPart(2)[10] == 0x19 && LumPart(2)[11] == 0x1a;
  }

  lemma LumRow2()
    ensures LumListed(2)
  {
    assert LumPart(0)[8] == 0x21;
    assert LumPart(1)[0] == 0x22 && LumPart(1)[8] == 0x23;
    assert LumPart(2)[0] == 0x24 && LumPart(2)[12] == 0x25 && LumPart(2)[13] == 0x26 && LumPart(2)[14] == 0x27 && LumPart(2)[15] == 0x28;
    assert LumPart(3)[0] == 0x29 && LumPart(3)[1] == 0x2a;
  }

  lemma LumRow3()
    ensures LumListed(3)
  {
    assert LumPart(0)[9] == 0x31;
    assert LumPart(1)[3] == 0x32;
    assert LumPart(2)[1] == 0x33;
    assert LumPart(3)[2] == 0x34 && LumPart(3)[3] == 0x35 && LumPart(3)[4] == 0x36 && LumPart(3)[5] == 0x37 && LumPart(3)[6] == 0x38 && LumPart(3)[7] == 0x39 && LumPart(3)[8] == 0x3a;
  }

  lemma LumRow4()
    ensures LumListed(4)
  {
    assert LumPart(0)[10] == 0x41;
    assert LumPart(1)[9] == 0x42;
    assert LumPart(3)[9] == 0x43 && LumPart(3)[10] == 0x44 && LumPart(3)[11] == 0x45 && LumPart(3)[12] == 0x46 && LumPart(3)[13] == 0x47 && LumPart(3)[14] == 0x48 && LumPart(3)[15] == 0x49;
    assert LumPart(4)[0] == 0x4a;
  }

  lemma LumRow5()
    ensures LumListed(5)
  {
    assert LumPart(0)[13] == 0x51;
    assert LumPart(1)[13] == 0x52;
    assert LumPart(4)[1] == 0x53 && LumPart(4)[2] == 0x54 && LumPart(4)[3] == 0x55 && LumPart(4)[4] == 0x56 && LumPart(4)[5] == 0x57 && LumPart(4)[6] == 0x58 && LumPart(4)[7] == 0x59 && LumPart(4)[8] == 0x5a;
  }

  lemma LumRow6()
    ensures LumListed(6)
  {
    assert LumPart(0)[14] == 0x61;
    assert LumPart(2)[2] == 0x62;
    assert LumPart(4)[9] == 0x63 && LumPart(4)[10] == 0x64 && LumPart(4)[11] == 0x65 && LumPart(4)[12] == 0x66 && LumPart(4)[13] == 0x67 && LumPart(4)[14] == 0x68 && LumPart(4)[15] == 0x69;
    assert LumPart(5)[0] == 0x6a;
  }

  lemma LumRow7()
    ensures LumListed(7)
  {
    assert LumPart(1)[1] == 0x71;
    assert LumPart(2)[3] == 0x72;
    assert LumPart(5)[1] == 0x73 && LumPart(5)[2] == 0x74 && LumPart(5)[3] == 0x75 && LumPart(5)[4] == 0x76 && LumPart(5)[5] == 0x77 && LumPart(5)[6] == 0x78 && LumPart(5)[7] == 0x79 && LumPart(5)[8] == 0x7a;
  }

  lemma LumRow8()
    ensures LumListed(8)
  {
    assert LumPart(1)[4] == 0x81;
    assert LumPart(2)[4] == 0x82;
    assert LumPart(5)[9] == 0x83 && LumPart(5)[10] == 0x84 && LumPart(5)[11] == 0x85 && LumPart(5)[12] == 0x86 && LumPart(5)[13] == 0x87 && LumPart(5)[14] == 0x88 && LumPart(5)[15] == 0x89;
    assert LumPart(6)[0] == 0x8a;
  }

  lemma LumRow9()
    ensures LumListed(9)
  {
    assert LumPart(1)[5] == 0x91;
    assert LumPart(6)[1] == 0x92 && LumPart(6)[2] == 0x93 && LumPart(6)[3] == 0x94 && LumPart(6)[4] == 0x95 && LumPart(6)[5] == 0x96 && LumPart(6)[6] == 0x97 && LumPart(6)[7] == 0x98 && LumPart(6)[8] == 0x99 && LumPart(6)[9] == 0x9a;
  }

  lemma LumRow10()
    ensures LumListed(10)
  {
    assert LumPart(1)[6] == 0xa1;
    assert LumPart(6)[10] == 0xa2 && LumPart(6)[11] == 0xa3 && LumPart(6)[12] == 0xa4 && LumPart(6)[13] == 0xa5 && LumPart(6)[14] == 0xa6 && LumPart(6)[15] == 0xa7;
    assert LumPart(7)[0] == 0xa8 && LumPart(7)[1] == 0xa9 && LumPart(7)[2] == 0xaa;
  }

  lemma LumRow11()
    ensures LumListed(11)
  {
    assert LumPart(1)[10] == 0xb1;
    assert LumPart(7)[3] == 0xb2 && LumPart(7)[4] == 0xb3 && LumPart(7)[5] == 0xb4 && LumPart(7)[6] == 0xb5 && LumPart(7)[7] == 0xb6 && LumPart(7)[8] == 0xb7 && LumPart(7)[9] == 0xb8 && LumPart(7)[10] == 0xb9 && LumPart(7)[11] == 0xba;
  }

  lemma LumRow12()
    ensures LumListed(12)
  {
    assert LumPart(1)[11] == 0xc1;
    assert LumPart(7)[12] == 0xc2 && LumPart(7)[13] == 0xc3 && LumPart(7)[14] == 0xc4 && LumPart(7)[15] == 0xc5;
    assert LumPart(8)[0] == 0xc6 && LumPart(8)[1] == 0xc7 && LumPart(8)[2] == 0xc8 && LumPart(8)[3] == 0xc9 && LumPart(8)[4] == 0xca;
  }

  lemma LumRow13()
    ensures LumListed(13)
  {
    assert LumPart(1)[14] == 0xd1;
    assert LumPart(8)[5] == 0xd2 && LumPart(8)[6] == 0xd3 && LumPart(8)[7] == 0xd4 && LumPart(8)[8] == 0xd5 && LumPart(8)[9] == 0xd6 && LumPart(8)[10] == 0xd7 && LumPart(8)[11] == 0xd8 && LumPart(8)[12] == 0xd9 && LumPart(8)[13] == 0xda;
  }

  lemma LumRow14()
    ensures LumListed(14)
  {
    assert LumPart(8)[14] == 0xe1 && LumPart(8)[15] == 0xe2;
    assert LumPart(9)[0] == 0xe3 && LumPart(9)[1] == 0xe4 && LumPart(9)[2] == 0xe5 && LumPart(9)[3] == 0xe6 && LumPart(9)[4] == 0xe7 && LumPart(9)[5] == 0xe8 && LumPart(9)[6] == 0xe9 && LumPart(9)[7] == 0xea;
  }

  lemma LumRow15()
    ensures LumListed(15)
  {
    assert LumPart(9)[8] == 0xf1 && LumPart(9)[9] == 0xf2 && LumPart(9)[10] == 0xf3 && LumPart(9)[11] == 0xf4 && LumPart(9)[12] == 0xf5 && LumPart(9)[13] == 0xf6 && LumPart(9)[14] == 0xf7 && LumPart(9)[15] == 0xf8;
    assert LumPart(10)[0] == 0xf9 && LumPart(10)[1] == 0xfa;
  }

  /** The rows in which the list is written. */
  function ChromaPart(k: nat): seq<byte>
    requires k < 11
  {
    match k
    case 0 => CHROMA_0
    case 1 => CHROMA_1
    case 2 => CHROMA_2
    case 3 => CHROMA_3
    case 4 => CHROMA_4
    case 5 => CHROMA_5
    case 6 => CHROMA_6
    case 7 => CHROMA_7
    case 8 => CHROMA_8
    case 9 => CHROMA_9
    case 10 => CHROMA_10
  }

  /** The symbols of zero run r, categories 1 to 10, are in some row. */
  ghost predicate ChromaListed(r: nat)
    requires r < 16
  {
    forall s :: 1 <= s <= 10 ==> exists k: nat :: k < 11 && RunSize(r, s) in ChromaPart(k)
  }

  lemma ChromaRow0()
    ensures ChromaListed(0)
  {
    assert ChromaPart(0)[1] == 0x01 && ChromaPart(0)[2] == 0x02 && ChromaPart(0)[3] == 0x03 && ChromaPart(0)[5] == 0x04 && ChromaPart(0)[6] == 0x05 && ChromaPart(0)[9] == 0x06 && ChromaPart(0)[13] == 0x07;
    assert ChromaPart(1)[4] == 0x08 && ChromaPart(1)[11] == 0x09;
    assert ChromaPart(2)[4] == 0x0a;
  }

  lemma ChromaRow1()
    ensures ChromaListed(1)
  {
    assert ChromaPart(0)[4] == 0x11 && ChromaPart(0)[10] == 0x12;
    assert ChromaPart(1)[0] == 0x13 && ChromaPart(1)[5] == 0x14;
    assert ChromaPart(2)[0] == 0x15 && ChromaPart(2)[5] == 0x16 && ChromaPart(2)[11] == 0x17 && ChromaPart(2)[12] == 0x18 && ChromaPart(2)[13] == 0x19 && ChromaPart(2)[14] == 0x1a;
  }

  lemma ChromaRow2()
    ensures ChromaListed(2)
  {
    assert ChromaPart(0)[7] == 0x21;
    assert ChromaPart(1)[1] == 0x22 && ChromaPart(1)[12] == 0x23;
    assert ChromaPart(2)[6] == 0x24 && ChromaPart(2)[9] == 0x25 && ChromaPart(2)[15] == 0x26;
    assert ChromaPart(3)[0] == 0x27 && ChromaPart(3)[1] == 0x28 && ChromaPart(3)[2] == 0x29 && ChromaPart(3)[3] == 0x2a;
  }

  lemma ChromaRow3()
    ensures ChromaListed(3)
  {
    assert ChromaPart(0)[8] == 0x31;
    assert ChromaPart(1)[2] == 0x32 && ChromaPart(1)[13] == 0x33;
    assert ChromaPart(2)[7] == 0x34;
    assert ChromaPart(3)[4] == 0x35 && ChromaPart(3)[5] == 0x36 && ChromaPart(3)[6] == 0x37 && ChromaPart(3)[7] == 0x38 && ChromaPart(3)[8] == 0x39 && ChromaPart(3)[9] == 0x3a;
  }

  lemma ChromaRow4()
    ensures ChromaListed(4)
  {
    assert ChromaPart(0)[11] == 0x41;
    assert ChromaPart(1)[6] == 0x42;
    assert ChromaPart(3)[10] == 0x43 && ChromaPart(3)[11] == 0x44 && ChromaPart(3)[12] == 0x45 && ChromaPart(3)[13] == 0x46 && ChromaPart(3)[14] == 0x47 && ChromaPart(3)[15] == 0x48;
    assert ChromaPart(4)[0] == 0x49 && ChromaPart(4)[1] == 0x4a;
  }

  lemma ChromaRow5()
    ensures ChromaListed(5)
  {
    assert ChromaPart(0)[12] == 0x51;
    assert ChromaPart(1)[14] == 0x52;
    assert ChromaPart(4)[2] == 0x53 && ChromaPart(4)[3] == 0x54 && ChromaPart(4)[4] == 0x55 && ChromaPart(4)[5] == 0x56 && ChromaPart(4)[6] == 0x57 && ChromaPart(4)[7] == 0x58 && ChromaPart(4)[8] == 0x59 && ChromaPart(4)[9] == 0x5a;
  }

  lemma ChromaRow6()
    ensures ChromaListed(6)
  {
    assert ChromaPart(0)[14] == 0x61;
    assert ChromaPart(2)[1] == 0x62;
    assert ChromaPart(4)[10] == 0x63 && ChromaPart(4)[11] == 0x64 && ChromaPart(4)[12] == 0x65 && ChromaPart(4)[13] == 0x66 && ChromaPart(4)[14] == 0x67 && ChromaPart(4)[15] == 0x68;
    assert ChromaPart(5)[0] == 0x69 && ChromaPart(5)[1] == 0x6a;
  }

  lemma ChromaRow7()
    ensures ChromaListed(7)
  {
    assert ChromaPart(0)[15] == 0x71;
    assert ChromaPart(2)[2] == 0x72;
    assert ChromaPart(5)[2] == 0x73 && ChromaPart(5)[3] == 0x74 && ChromaPart(5)[4] == 0x75 && ChromaPart(5)[5] == 0x76 && ChromaPart(5)[6] == 0x77 && ChromaPart(5)[7] == 0x78 && ChromaPart(5)[8] == 0x79 && ChromaPart(5)[9] == 0x7a;
  }

  lemma ChromaRow8()
    ensures ChromaListed(8)
  {
    assert ChromaPart(1)[3] == 0x81;
    assert ChromaPart(5)[10] == 0x82 && ChromaPart(5)[11] == 0x83 && ChromaPart(5)[12] == 0x84 && ChromaPart(5)[13] == 0x85 && ChromaPart(5)[14] == 0x86 && ChromaPart(5)[15] == 0x87;
    assert ChromaPart(6)[0] == 0x88 && ChromaPart(6)[1] == 0x89 && ChromaPart(6)[2] == 0x8a;
  }

  lemma ChromaRow9()
    ensures ChromaListed(9)
  {
    assert ChromaPart(1)[7] == 0x91;
    assert ChromaPart(6)[3] == 0x92 && ChromaPart(6)[4] == 0x93 && ChromaPart(6)[5] == 0x94 && ChromaPart(6)[6] == 0x95 && ChromaPart(6)[7] == 0x96 && ChromaPart(6)[8] == 0x97 && ChromaPart(6)[9] == 0x98 && ChromaPart(6)[10] == 0x99 && ChromaPart(6)[11] == 0x9a;
  }

  lemma ChromaRow10()
    ensures ChromaListed(10)
  {
    assert ChromaPart(1)[8] == 0xa1;
    assert ChromaPart(6)[12] == 0xa2 && ChromaPart(6)[13] == 0xa3 && ChromaPart(6)[14] == 0xa4 && ChromaPart(6)[15] == 0xa5;
    assert ChromaPart(7)[0] == 0xa6 && ChromaPart(7)[1] == 0xa7 && ChromaPart(7)[2] == 0xa8 && ChromaPart(7)[3] == 0xa9 && ChromaPart(7)[4] == 0xaa;
  }

  lemma ChromaRow11()
    ensures ChromaListed(11)
  {
    assert ChromaPart(1)[9] == 0xb1;
    assert ChromaPart(7)[5] == 0xb2 && ChromaPart(7)[6] == 0xb3 && ChromaPart(7)[7] == 0xb4 && ChromaPart(7)[8] == 0xb5 && ChromaPart(7)[9] == 0xb6 && ChromaPart(7)[10] == 0xb7 && ChromaPart(7)[11] == 0xb8 && ChromaPart(7)[12] == 0xb9 && ChromaPart(7)[13] == 0xba;
  }

  lemma ChromaRow12()
    ensures ChromaListed(12)
  {
    assert ChromaPart(1)[10] == 0xc1;
    assert ChromaPart(7)[14] == 0xc2 && ChromaPart(7)[15] == 0xc3;
    assert ChromaPart(8)[0] == 0xc4 && ChromaPart(8)[1] == 0xc5 && ChromaPart(8)[2] == 0xc6 && ChromaPart(8)[3] == 0xc7 && ChromaPart(8)[4] == 0xc8 && ChromaPart(8)[5] == 0xc9 && ChromaPart(8)[6] == 0xca;
  }

  lemma ChromaRow13()
    ensures ChromaListed(13)
  {
    assert ChromaPart(2)[3] == 0xd1;
    assert ChromaPart(8)[7] == 0xd2 && ChromaPart(8)[8] == 0xd3 && ChromaPart(8)[9] == 0xd4 && ChromaPart(8)[10] == 0xd5 && ChromaPart(8)[11] == 0xd6 && ChromaPart(8)[12] == 0xd7 && ChromaPart(8)[13] == 0xd8 && ChromaPart(8)[14] == 0xd9 && ChromaPart(8)[15] == 0xda;
  }

  lemma ChromaRow14()
    ensures ChromaListed(14)
  {
    assert ChromaPart(2)[8] == 0xe1;
    assert ChromaPart(9)[0] == 0xe2 && ChromaPart(9)[1] == 0xe3 && ChromaPart(9)[2] == 0xe4 && ChromaPart(9)[3] == 0xe5 && ChromaPart(9)[4] == 0xe6 && ChromaPart(9)[5] == 0xe7 && ChromaPart(9)[6] == 0xe8 && ChromaPart(9)[7] == 0xe9 && ChromaPart(9)[8] == 0xea;
  }

  lemma ChromaRow15()
    ensures ChromaListed(15)
  {
    assert ChromaPart(2)[10] == 0xf1;
    assert ChromaPart(9)[9] == 0xf2 && ChromaPart(9)[10] == 0xf3 && ChromaPart(9)[11] == 0xf4 && ChromaPart(9)[12] == 0xf5 && ChromaPart(9)[13] == 0xf6 && ChromaPart(9)[14] == 0xf7 && ChromaPart(9)[15] == 0xf8;
    assert ChromaPart(10)[0] == 0xf9 && ChromaPart(10)[1] == 0xfa;
  }

  /** What is in a row is in the list. */
  lemma LumPartOf(k: nat, x: byte)
    requires k < 11 && x in LumPart(k)
    ensures x in AC_LUM_VAL
  {
  }

  lemma AcLumRows(r: nat)
    requires r < 16
    ensures LumListed(r)
  {
    hide LumListed;
    match r
    case 0 => LumRow0();
    case 1 => LumRow1();
    case 2 => LumRow2();
    case 3 => LumRow3();
    case 4 => LumRow4();
    case 5 => LumRow5();
    case 6 => LumRow6();
    case 7 => LumRow7();
    case 8 => LumRow8();
    case 9 => LumRow9();
    case 10 => LumRow10();
    case 11 => LumRow11();
    case 12 => LumRow12();
    case 13 => LumRow13();
    case 14 => LumRow14();
    case 15 => LumRow15();
  }

  lemma AcLumCovers()
    ensures CoversAc(AC_LUM)
  {
    hide LumPart, Valid;
    AcLumSizes();
    assert AC_LUM_VAL[..162] == AC_LUM_VAL;
    LumEnds();
    forall r, s | 0 <= r < 16 && 1 <= s <= 10
      ensures HasCode(AC_LUM, RunSize(r, s))
    {
      AcLumRows(r);
      assert LumListed(r);
      var k: nat :| k < 11 && RunSize(r, s) in LumPart(k);
      LumPartOf(k, RunSize(r, s));
    }
  }

  /** EOB and ZRL. */
  lemma LumEnds()
    ensures 0x00 in AC_LUM_VAL && 0xF0 in AC_LUM_VAL
  {
    assert LumPart(0)[3] == 0x00;
    LumPartOf(0, 0x00);
    assert LumPart(1)[15] == 0xf0;
    LumPartOf(1, 0xf0);
  }

  /** What is in a row is in the list. */
  lemma ChromaPartOf(k: nat, x: byte)
    requires k < 11 && x in ChromaPart(k)
    ensures x in AC_CHROMA_VAL
  {
  }

  lemma AcChromaRows(r: nat)
    requires r < 16
    ensures ChromaListed(r)
  {
    hide ChromaListed;
    match r
    case 0 => ChromaRow0();
    case 1 => ChromaRow1();
    case 2 => ChromaRow2();
    case 3 => ChromaRow3();
    case 4 => ChromaRow4();
    case 5 => ChromaRow5();
    case 6 => ChromaRow6();
    case 7 => ChromaRow7();
    case 8 => ChromaRow8();
    case 9 => ChromaRow9();
    case 10 => ChromaRow10();
    case 11 => ChromaRow11();
    case 12 => ChromaRow12();
    case 13 => ChromaRow13();
    case 14 => ChromaRow14();
    case 15 => ChromaRow15();
  }

  lemma AcChromaCovers()
    ensures CoversAc(AC_CHROMA)
  {
    hide ChromaPart, Valid;
    AcChromaSizes();
    assert AC_CHROMA_VAL[..162] == AC_CHROMA_VAL;
    ChromaEnds();
    forall r, s | 0 <= r < 16 && 1 <= s <= 10
      ensures HasCode(AC_CHROMA, RunSize(r, s))
    {
      AcChromaRows(r);
      assert ChromaListed(r);
      var k: nat :| k < 11 && RunSize(r, s) in ChromaPart(k);
      ChromaPartOf(k, RunSize(r, s));
    }
  }

  /** EOB and ZRL. */
  lemma ChromaEnds()
    ensures 0x00 in AC_CHROMA_VAL && 0xF0 in AC_CHROMA_VAL
  {
    assert ChromaPart(0)[0] == 0x00;
    ChromaPartOf(0, 0x00);
    assert ChromaPart(1)[15] == 0xf0;
    ChromaPartOf(1, 0xf0);
  }

  lemma DcLumCovers()
    ensures CoversDc(DC_LUM)
  {
    DcLumSizes();
    var v := DC_LUM_VAL;
    assert v[..12] == v;
    forall s | 0 <= s <= 11
      ensures HasCode(DC_LUM, s)
    {
      assert v[s] == s;
    }
  }

  lemma DcChromaCovers()
    ensures CoversDc(DC_CHROMA)
  {
    DcChromaSizes();
    var v := DC_CHROMA_VAL;
    assert v[..12] == v;
    forall s | 0 <= s <= 11
      ensures HasCode(DC_CHROMA, s)
    {
      assert v[s] == s;
    }
  }

  lemma StandardWellSized()
    ensures WellSized(DC_LUM) && WellSized(AC_LUM) && WellSized(DC_CHROMA) && WellSized(AC_CHROMA)
  {
    DcLumSizes();
    AcLumSizes();
    DcChromaSizes();
    AcChromaSizes();
  }

  /** Every symbol the encoder can emit has a code in the standard tables. */
  lemma StandardCovers()
    ensures Covers(LUMA) && Covers(CHROMA)
  {
    DcLumCovers();
    AcLumCovers();
    DcChromaCovers();
    AcChromaCovers();
  }
}
