/** Known answers of CRC32C: the entries of the tables that determine the others, and the
    examples of section B.4 of RFC 3720. */
module Crc32cAnswers {
  import opened Crc32c

  // ---------- The tables ----------

  lemma {:induction false} Entries0()
    ensures Table0(1) == 0xF26B_8303 && Table0(2) == 0xE13B_70F7
    ensures Table0(4) == 0xC79A_971F && Table0(8) == 0x8AD9_58CF
    ensures Table0(16) == 0x105E_C76F && Table0(32) == 0x20BD_8EDE
    ensures Table0(64) == 0x417B_1DBC && Table0(128) == 0x82F6_3B78
  {
  }

  // Each table adds up: an entry is the sum of those for the bits of its index.
  lemma {:induction false} EntriesXor(x: byte, y: byte)
    ensures Table0(Both(x, y)) == Xor(Table0(x), Table0(y)) && Table1(Both(x, y)) == Xor(Table1(x), Table1(y))
    ensures Table2(Both(x, y)) == Xor(Table2(x), Table2(y)) && Table3(Both(x, y)) == Xor(Table3(x), Table3(y))
  {
    WidenXor(x, y);
    hide Eight, Widen, Xor, Table1, Table2, Table3, Both;
    var a, b := Widen(x), Widen(y);
    EightXor(a, b);
    EightXor(Eight(a), Eight(b));
    EightXor(Eight(Eight(a)), Eight(Eight(b)));
    EightXor(Eight(Eight(Eight(a))), Eight(Eight(Eight(b))));
    TablesEight(x);
    TablesEight(y);
    TablesEight(Both(x, y));
  }

  function Both(x: byte, y: byte): byte {
    x ^ y
  }

  lemma WidenXor(x: byte, y: byte)
    ensures Widen(Both(x, y)) == Xor(Widen(x), Widen(y))
  {
  }

  // The entries of the first table for four bits at a time.
  function LowEntry(n: byte): word {
    if n == 0 then 0x0000_0000
    else if n == 1 then 0xF26B_8303
    else if n == 2 then 0xE13B_70F7
    else if n == 3 then 0x1350_F3F4
    else if n == 4 then 0xC79A_971F
    else if n == 5 then 0x35F1_141C
    else if n == 6 then 0x26A1_E7E8
    else if n == 7 then 0xD4CA_64EB
    else if n == 8 then 0x8AD9_58CF
    else if n == 9 then 0x78B2_DBCC
    else if n == 10 then 0x6BE2_2838
    else if n == 11 then 0x9989_AB3B
    else if n == 12 then 0x4D43_CFD0
    else if n == 13 then 0xBF28_4CD3
    else if n == 14 then 0xAC78_BF27
    else 0x5E13_3C24
  }

  function HighEntry(n: byte): word {
    if n == 0 then 0x0000_0000
    else if n == 16 then 0x105E_C76F
    else if n == 32 then 0x20BD_8EDE
    else if n == 48 then 0x30E3_49B1
    else if n == 64 then 0x417B_1DBC
    else if n == 80 then 0x5125_DAD3
    else if n == 96 then 0x61C6_9362
    else if n == 112 then 0x7198_540D
    else if n == 128 then 0x82F6_3B78
    else if n == 144 then 0x92A8_FC17
    else if n == 160 then 0xA24B_B5A6
    else if n == 176 then 0xB215_72C9
    else if n == 192 then 0xC38D_26C4
    else if n == 208 then 0xD3D3_E1AB
    else if n == 224 then 0xE330_A81A
    else 0xF36E_6F75
  }

  lemma {:induction false} LowEntriesA()
    ensures Table0(0) == 0x0000_0000 && Table0(1) == 0xF26B_8303
    ensures Table0(2) == 0xE13B_70F7 && Table0(3) == 0x1350_F3F4
    ensures Table0(4) == 0xC79A_971F && Table0(5) == 0x35F1_141C
    ensures Table0(6) == 0x26A1_E7E8 && Table0(7) == 0xD4CA_64EB
  {
  }

  lemma {:induction false} LowEntriesB()
    ensures Table0(8) == 0x8AD9_58CF && Table0(9) == 0x78B2_DBCC
    ensures Table0(10) == 0x6BE2_2838 && Table0(11) == 0x9989_AB3B
    ensures Table0(12) == 0x4D43_CFD0 && Table0(13) == 0xBF28_4CD3
    ensures Table0(14) == 0xAC78_BF27 && Table0(15) == 0x5E13_3C24
  {
  }

  lemma {:induction false} HighEntriesA()
    ensures Table0(0) == 0x0000_0000 && Table0(16) == 0x105E_C76F
    ensures Table0(32) == 0x20BD_8EDE && Table0(48) == 0x30E3_49B1
    ensures Table0(64) == 0x417B_1DBC && Table0(80) == 0x5125_DAD3
    ensures Table0(96) == 0x61C6_9362 && Table0(112) == 0x7198_540D
  {
  }

  lemma {:induction false} HighEntriesB()
    ensures Table0(128) == 0x82F6_3B78 && Table0(144) == 0x92A8_FC17
    ensures Table0(160) == 0xA24B_B5A6 && Table0(176) == 0xB215_72C9
    ensures Table0(192) == 0xC38D_26C4 && Table0(208) == 0xD3D3_E1AB
    ensures Table0(224) == 0xE330_A81A && Table0(240) == 0xF36E_6F75
  {
  }

  lemma {:induction false} Nibbles(x: byte, lo: byte, hi: byte)
    requires lo == x & 0xF && hi == x & 0xF0
    ensures x == Both(lo, hi)
    ensures lo in {0, 1, 2, 3, 4, 5, 6, 7, 8, 9, 10, 11, 12, 13, 14, 15}
    ensures hi in {0, 16, 32, 48, 64, 80, 96, 112, 128, 144, 160, 176, 192, 208, 224, 240}
  {
  }

  lemma {:induction false} LowIs(n: byte)
    requires n in {0, 1, 2, 3, 4, 5, 6, 7, 8, 9, 10, 11, 12, 13, 14, 15}
    ensures Table0(n) == LowEntry(n)
  {
    hide Table0;
    LowEntriesA();
    LowEntriesB();
  }

  lemma {:induction false} HighIs(n: byte)
    requires n in {0, 16, 32, 48, 64, 80, 96, 112, 128, 144, 160, 176, 192, 208, 224, 240}
    ensures Table0(n) == HighEntry(n)
  {
    hide Table0;
    HighEntriesA();
    HighEntriesB();
  }

  lemma {:induction false} NibbleEntries(x: byte, lo: byte, hi: byte)
    requires lo == x & 0xF && hi == x & 0xF0
    ensures Table0(x) == Xor(LowEntry(lo), HighEntry(hi))
  {
    hide *;
    Nibbles(x, lo, hi);
    EntriesXor(lo, hi);
    LowIs(lo);
    HighIs(hi);
  }

  // One byte, from those entries.
  lemma {:induction false} Fed(l: word, b: byte, x: byte, lo: byte, hi: byte, r: word)
    requires x == ((l & 0xFF) as byte) ^ b && lo == x & 0xF && hi == x & 0xF0
    requires r == LowEntry(lo) ^ HighEntry(hi) ^ (l >> 8)
    ensures FeedByte(l, b) == r
  {
    hide *;
    Step1Is(l, b);
    Step1Feeds(l, b);
    NibbleEntries(x, lo, hi);
    XorThree(LowEntry(lo), HighEntry(hi), l >> 8);
  }

  lemma {:induction false} Step1Is(l: word, b: byte)
    ensures Step1(l, b) == Xor(Table0(((l & 0xFF) as byte) ^ b), l >> 8)
  {
    hide Table0, Xor;
  }

  lemma {:induction false} XorThree(a: word, b: word, c: word)
    ensures Xor(Xor(a, b), c) == a ^ b ^ c
  {
  }

  lemma {:induction false} NextTable(x: byte)
    ensures Table1(x) == FeedByte(Table0(x), 0) && Table2(x) == FeedByte(Table1(x), 0) && Table3(x) == FeedByte(Table2(x), 0)
  {
    hide Eight, Widen, Table1, Table2, Table3, FeedByte;
    TablesEight(x);
    FedNothing(Table0(x));
    FedNothing(Table1(x));
    FedNothing(Table2(x));
  }

  lemma {:induction false} FedNothing(l: word)
    ensures FeedByte(l, 0) == Eight(l)
  {
    assert Xor(l, Widen(0)) == l;
    hide FeedByte, Eight, Xor;
    FeedByteEight(l, 0);
  }

  lemma {:induction false} LowEntries1()
    ensures Table1(1) == 0x13A2_9877 && Table1(2) == 0x2745_30EE
    ensures Table1(4) == 0x4E8A_61DC && Table1(8) == 0x9D14_C3B8
  {
    hide Table0, Table1, Table2, Table3, FeedByte;
    Entries0();
    NextTable(1);
    Fed(0xF26B_8303, 0, 3, 3, 0, 0x13A2_9877);
    NextTable(2);
    Fed(0xE13B_70F7, 0, 247, 7, 240, 0x2745_30EE);
    NextTable(4);
    Fed(0xC79A_971F, 0, 31, 15, 16, 0x4E8A_61DC);
    NextTable(8);
    Fed(0x8AD9_58CF, 0, 207, 15, 192, 0x9D14_C3B8);
  }

  lemma {:induction false} HighEntries1()
    ensures Table1(16) == 0x3FC5_F181 && Table1(32) == 0x7F8B_E302
    ensures Table1(64) == 0xFF17_C604 && Table1(128) == 0xFBC3_FAF9
  {
    hide Table0, Table1, Table2, Table3, FeedByte;
    Entries0();
    NextTable(16);
    Fed(0x105E_C76F, 0, 111, 15, 96, 0x3FC5_F181);
    NextTable(32);
    Fed(0x20BD_8EDE, 0, 222, 14, 208, 0x7F8B_E302);
    NextTable(64);
    Fed(0x417B_1DBC, 0, 188, 12, 176, 0xFF17_C604);
    NextTable(128);
    Fed(0x82F6_3B78, 0, 120, 8, 112, 0xFBC3_FAF9);
  }

  lemma {:induction false} Entries1()
    ensures Table1(1) == 0x13A2_9877 && Table1(2) == 0x2745_30EE
    ensures Table1(4) == 0x4E8A_61DC && Table1(8) == 0x9D14_C3B8
    ensures Table1(16) == 0x3FC5_F181 && Table1(32) == 0x7F8B_E302
    ensures Table1(64) == 0xFF17_C604 && Table1(128) == 0xFBC3_FAF9
  {
    LowEntries1();
    HighEntries1();
  }

  lemma {:induction false} LowEntries2()
    ensures Table2(1) == 0xA541_927E && Table2(2) == 0x4F6F_520D
    ensures Table2(4) == 0x9EDE_A41A && Table2(8) == 0x3851_3EC5
  {
    hide Table0, Table1, Table2, Table3, FeedByte;
    Entries1();
    NextTable(1);
    Fed(0x13A2_9877, 0, 119, 7, 112, 0xA541_927E);
    NextTable(2);
    Fed(0x2745_30EE, 0, 238, 14, 224, 0x4F6F_520D);
    NextTable(4);
    Fed(0x4E8A_61DC, 0, 220, 12, 208, 0x9EDE_A41A);
    NextTable(8);
    Fed(0x9D14_C3B8, 0, 184, 8, 176, 0x3851_3EC5);
  }

  lemma {:induction false} HighEntries2()
    ensures Table2(16) == 0x70A2_7D8A && Table2(32) == 0xE144_FB14
    ensures Table2(64) == 0xC765_80D9 && Table2(128) == 0x8B27_7743
  {
    hide Table0, Table1, Table2, Table3, FeedByte;
    Entries1();
    NextTable(16);
    Fed(0x3FC5_F181, 0, 129, 1, 128, 0x70A2_7D8A);
    NextTable(32);
    Fed(0x7F8B_E302, 0, 2, 2, 0, 0xE144_FB14);
    NextTable(64);
    Fed(0xFF17_C604, 0, 4, 4, 0, 0xC765_80D9);
    NextTable(128);
    Fed(0xFBC3_FAF9, 0, 249, 9, 240, 0x8B27_7743);
  }

  lemma {:induction false} Entries2()
    ensures Table2(1) == 0xA541_927E && Table2(2) == 0x4F6F_520D
    ensures Table2(4) == 0x9EDE_A41A && Table2(8) == 0x3851_3EC5
    ensures Table2(16) == 0x70A2_7D8A && Table2(32) == 0xE144_FB14
    ensures Table2(64) == 0xC765_80D9 && Table2(128) == 0x8B27_7743
  {
    LowEntries2();
    HighEntries2();
  }

  lemma {:induction false} LowEntries3()
    ensures Table3(1) == 0xDD45_AAB8 && Table3(2) == 0xBF67_2381
    ensures Table3(4) == 0x7B22_31F3 && Table3(8) == 0xF644_63E6
  {
    hide Table0, Table1, Table2, Table3, FeedByte;
    Entries2();
    NextTable(1);
    Fed(0xA541_927E, 0, 126, 14, 112, 0xDD45_AAB8);
    NextTable(2);
    Fed(0x4F6F_520D, 0, 13, 13, 0, 0xBF67_2381);
    NextTable(4);
    Fed(0x9EDE_A41A, 0, 26, 10, 16, 0x7B22_31F3);
    NextTable(8);
    Fed(0x3851_3EC5, 0, 197, 5, 192, 0xF644_63E6);
  }

  lemma {:induction false} HighEntries3()
    ensures Table3(16) == 0xE964_B13D && Table3(32) == 0xD725_148B
    ensures Table3(64) == 0xABA6_5FE7 && Table3(128) == 0x52A0_C93F
  {
    hide Table0, Table1, Table2, Table3, FeedByte;
    Entries2();
    NextTable(16);
    Fed(0x70A2_7D8A, 0, 138, 10, 128, 0xE964_B13D);
    NextTable(32);
    Fed(0xE144_FB14, 0, 20, 4, 16, 0xD725_148B);
    NextTable(64);
    Fed(0xC765_80D9, 0, 217, 9, 208, 0xABA6_5FE7);
    NextTable(128);
    Fed(0x8B27_7743, 0, 67, 3, 64, 0x52A0_C93F);
  }

  lemma {:induction false} Entries3()
    ensures Table3(1) == 0xDD45_AAB8 && Table3(2) == 0xBF67_2381
    ensures Table3(4) == 0x7B22_31F3 && Table3(8) == 0xF644_63E6
    ensures Table3(16) == 0xE964_B13D && Table3(32) == 0xD725_148B
    ensures Table3(64) == 0xABA6_5FE7 && Table3(128) == 0x52A0_C93F
  {
    LowEntries3();
    HighEntries3();
  }

  // ---------- Whole messages ----------

  lemma {:induction false} FedParts(l: word, a: seq<byte>, b: seq<byte>, c: seq<byte>, d: seq<byte>)
    ensures FeedAll(l, a + b + c + d) == FeedAll(FeedAll(FeedAll(FeedAll(l, a), b), c), d)
  {
    hide FeedAll;
    FeedAllConcat(l, a + b + c, d);
    FeedAllConcat(l, a + b, c);
    FeedAllConcat(l, a, b);
  }

  lemma {:induction false} Zeros0()
    ensures FeedAll(0xFFFF_FFFF, [0, 0, 0, 0, 0, 0, 0, 0]) == 0x73D7_4D75
  {
    hide FeedByte;
    Fed(0xFFFF_FFFF, 0, 255, 15, 240, 0xAD82_ACAE);
    Fed(0xAD82_ACAE, 0, 174, 14, 160, 0x0E9E_882D);
    Fed(0x0E9E_882D, 0, 45, 13, 32, 0x9F9B_5C85);
    Fed(0x9F9B_5C85, 0, 133, 5, 128, 0xB798_B438);
    Fed(0xB798_B438, 0, 56, 8, 48, 0xBA8D_89CA);
    Fed(0xBA8D_89CA, 0, 202, 10, 192, 0xA8D5_8375);
    Fed(0xA8D5_8375, 0, 117, 5, 112, 0x44C1_9592);
    Fed(0x44C1_9592, 0, 146, 2, 144, 0x73D7_4D75);
  }

  lemma {:induction false} Zeros1()
    ensures FeedAll(0x73D7_4D75, [0, 0, 0, 0, 0, 0, 0, 0]) == 0xBD8F_6515
  {
    hide FeedByte;
    Fed(0x73D7_4D75, 0, 117, 5, 112, 0x441A_975C);
    Fed(0x441A_975C, 0, 92, 12, 80, 0x1C22_0F94);
    Fed(0x1C22_0F94, 0, 148, 4, 144, 0x552E_4907);
    Fed(0x552E_4907, 0, 7, 7, 0, 0xD49F_4AA2);
    Fed(0xD49F_4AA2, 0, 162, 2, 160, 0x43A4_5A1B);
    Fed(0x43A4_5A1B, 0, 27, 11, 16, 0x8994_C80E);
    Fed(0x8994_C80E, 0, 14, 14, 0, 0xACF1_2BEF);
    Fed(0xACF1_2BEF, 0, 239, 15, 224, 0xBD8F_6515);
  }

  lemma {:induction false} Zeros2()
    ensures FeedAll(0xBD8F_6515, [0, 0, 0, 0, 0, 0, 0, 0]) == 0x7B04_1311
  {
    hide FeedByte;
    Fed(0xBD8F_6515, 0, 21, 5, 16, 0x2512_5C16);
    Fed(0x2512_5C16, 0, 22, 6, 16, 0x36DA_32DB);
    Fed(0x36DA_32DB, 0, 219, 11, 208, 0x4A6C_90A2);
    Fed(0x4A6C_90A2, 0, 162, 2, 160, 0x433A_A9C1);
    Fed(0x433A_A9C1, 0, 193, 1, 192, 0x31A5_9F6E);
    Fed(0x31A5_9F6E, 0, 110, 14, 96, 0xCD8F_89DA);
    Fed(0xCD8F_89DA, 0, 218, 10, 208, 0xB8FC_461A);
    Fed(0xB8FC_461A, 0, 26, 10, 16, 0x7B04_1311);
  }

  lemma {:induction false} Zeros3()
    ensures FeedAll(0x7B04_1311, [0, 0, 0, 0, 0, 0, 0, 0]) == 0x756E_C955
  {
    hide FeedByte;
    Fed(0x7B04_1311, 0, 17, 1, 16, 0xE24E_407F);
    Fed(0xE24E_407F, 0, 127, 15, 112, 0x2F69_2669);
    Fed(0x2F69_2669, 0, 105, 9, 96, 0x195B_2188);
    Fed(0x195B_2188, 0, 136, 8, 128, 0x0836_3896);
    Fed(0x0836_3896, 0, 150, 6, 144, 0xB401_2DC7);
    Fed(0xB401_2DC7, 0, 199, 7, 192, 0x17F3_4302);
    Fed(0x17F3_4302, 0, 2, 2, 0, 0xE12C_83B4);
    Fed(0xE12C_83B4, 0, 180, 4, 176, 0x756E_C955);
  }

  // 32 bytes of zero.
  lemma {:induction false} Zeros()
    ensures Crc(0, [0, 0, 0, 0, 0, 0, 0, 0] + [0, 0, 0, 0, 0, 0, 0, 0]
                   + [0, 0, 0, 0, 0, 0, 0, 0] + [0, 0, 0, 0, 0, 0, 0, 0]) == 0x8A91_36AA
  {
    hide FeedAll;
    FedParts(0xFFFF_FFFF, [0, 0, 0, 0, 0, 0, 0, 0], [0, 0, 0, 0, 0, 0, 0, 0],
             [0, 0, 0, 0, 0, 0, 0, 0], [0, 0, 0, 0, 0, 0, 0, 0]);
    Zeros0();
    Zeros1();
    Zeros2();
    Zeros3();
  }

  lemma {:induction false} Ascending0()
    ensures FeedAll(0xFFFF_FFFF, [0, 1, 2, 3, 4, 5, 6, 7]) == 0x75D3_43C4
  {
    hide FeedByte;
    Fed(0xFFFF_FFFF, 0, 255, 15, 240, 0xAD82_ACAE);
    Fed(0xAD82_ACAE, 1, 175, 15, 160, 0xFCF5_0B2E);
    Fed(0xFCF5_0B2E, 2, 44, 12, 32, 0x6D02_B405);
    Fed(0x6D02_B405, 3, 6, 6, 0, 0x26CC_E55C);
    Fed(0x26CC_E55C, 4, 88, 8, 80, 0xDBDA_4EF9);
    Fed(0xDBDA_4EF9, 5, 252, 12, 240, 0xBEF6_7AEB);
    Fed(0xBEF6_7AEB, 6, 237, 13, 224, 0x5CA6_12B3);
    Fed(0x5CA6_12B3, 7, 180, 4, 176, 0x75D3_43C4);
  }

  lemma {:induction false} Ascending1()
    ensures FeedAll(0x75D3_43C4, [8, 9, 10, 11, 12, 13, 14, 15]) == 0x2636_F714
  {
    hide FeedByte;
    Fed(0x75D3_43C4, 8, 204, 12, 192, 0x8EBB_3A57);
    Fed(0x8EBB_3A57, 9, 94, 14, 80, 0xFDD3_DECE);
    Fed(0xFDD3_DECE, 10, 196, 4, 192, 0x04EA_6205);
    Fed(0x04EA_6205, 11, 14, 14, 0, 0xAC7C_5545);
    Fed(0xAC7C_5545, 12, 73, 9, 64, 0x3965_BA25);
    Fed(0x3965_BA25, 13, 40, 8, 32, 0xAA5D_B3AB);
    Fed(0xAA5D_B3AB, 14, 165, 5, 160, 0x9710_FC09);
    Fed(0x9710_FC09, 15, 6, 6, 0, 0x2636_F714);
  }

  lemma {:induction false} Ascending2()
    ensures FeedAll(0x2636_F714, [16, 17, 18, 19, 20, 21, 22, 23]) == 0xD643_786A
  {
    hide FeedByte;
    Fed(0x2636_F714, 16, 4, 4, 0, 0xC7BC_A1E8);
    Fed(0xC7BC_A1E8, 17, 249, 9, 240, 0x8B1B_0818);
    Fed(0x8B1B_0818, 18, 10, 10, 0, 0x6B69_3330);
    Fed(0x6B69_3330, 19, 35, 3, 32, 0x3386_1419);
    Fed(0x3386_1419, 20, 13, 13, 0, 0xBF1B_CAC7);
    Fed(0xBF1B_CAC7, 21, 210, 2, 208, 0x3257_8A96);
    Fed(0x3257_8A96, 22, 128, 0, 128, 0x82C4_6CF2);
    Fed(0x82C4_6CF2, 23, 229, 5, 224, 0xD643_786A);
  }

  lemma {:induction false} Ascending3()
    ensures FeedAll(0xD643_786A, [24, 25, 26, 27, 28, 29, 30, 31]) == 0xB922_86B1
  {
    hide FeedByte;
    Fed(0xD643_786A, 24, 114, 2, 112, 0x9075_6782);
    Fed(0x9075_6782, 25, 155, 11, 144, 0x0BB1_224B);
    Fed(0x0BB1_224B, 26, 81, 1, 80, 0xA345_E8F2);
    Fed(0xA345_E8F2, 27, 233, 9, 224, 0x9B21_363E);
    Fed(0x9B21_363E, 28, 34, 2, 32, 0xC11D_DF1F);
    Fed(0xC11D_DF1F, 29, 2, 2, 0, 0xE1FA_6D28);
    Fed(0xE1FA_6D28, 30, 54, 6, 48, 0x16A3_5434);
    Fed(0x16A3_5434, 31, 43, 11, 32, 0xB922_86B1);
  }

  // The bytes 0 to 31.
  lemma {:induction false} Ascending()
    ensures Crc(0, [0, 1, 2, 3, 4, 5, 6, 7] + [8, 9, 10, 11, 12, 13, 14, 15]
                   + [16, 17, 18, 19, 20, 21, 22, 23] + [24, 25, 26, 27, 28, 29, 30, 31]) == 0x46DD_794E
  {
    hide FeedAll;
    FedParts(0xFFFF_FFFF, [0, 1, 2, 3, 4, 5, 6, 7], [8, 9, 10, 11, 12, 13, 14, 15],
             [16, 17, 18, 19, 20, 21, 22, 23], [24, 25, 26, 27, 28, 29, 30, 31]);
    Ascending0();
    Ascending1();
    Ascending2();
    Ascending3();
  }

  lemma {:induction false} Descending0()
    ensures FeedAll(0xFFFF_FFFF, [31, 30, 29, 28, 27, 26, 25, 24]) == 0xEEF6_0158
  {
    hide FeedByte;
    Fed(0xFFFF_FFFF, 31, 224, 0, 224, 0xE3CF_57E5);
    Fed(0xE3CF_57E5, 30, 251, 11, 240, 0x6A04_0B19);
    Fed(0x6A04_0B19, 29, 4, 4, 0, 0xC7F0_9314);
    Fed(0xC7F0_9314, 28, 8, 8, 0, 0x8A1E_A85C);
    Fed(0x8A1E_A85C, 27, 71, 7, 64, 0x953B_67FF);
    Fed(0x953B_67FF, 26, 229, 5, 224, 0xD654_8761);
    Fed(0xD654_8761, 25, 120, 8, 112, 0xFB97_5845);
    Fed(0xFB97_5845, 24, 93, 13, 80, 0xEEF6_0158);
  }

  lemma {:induction false} Descending1()
    ensures FeedAll(0xEEF6_0158, [23, 22, 21, 20, 19, 18, 17, 16]) == 0x7016_B70C
  {
    hide FeedByte;
    Fed(0xEEF6_0158, 23, 79, 15, 64, 0x1F86_D799);
    Fed(0x1F86_D799, 22, 143, 15, 128, 0xDCFA_818B);
    Fed(0xDCFA_818B, 21, 158, 14, 144, 0x3E0C_B9B1);
    Fed(0x3E0C_B9B1, 20, 165, 5, 160, 0x9784_AD03);
    Fed(0x9784_AD03, 19, 16, 0, 16, 0x10C9_43C2);
    Fed(0x10C9_43C2, 18, 208, 0, 208, 0xD3C3_28E8);
    Fed(0xD3C3_28E8, 17, 249, 9, 240, 0x8B0F_7791);
    Fed(0x8B0F_7791, 16, 129, 1, 128, 0x7016_B70C);
  }

  lemma {:induction false} Descending2()
    ensures FeedAll(0x7016_B70C, [15, 14, 13, 12, 11, 10, 9, 8]) == 0x5C7C_4CFA
  {
    hide FeedByte;
    Fed(0x7016_B70C, 15, 3, 3, 0, 0x1320_E543);
    Fed(0x1320_E543, 14, 77, 13, 64, 0xFE40_718A);
    Fed(0xFE40_718A, 13, 135, 7, 128, 0x56C2_1FE2);
    Fed(0x56C2_1FE2, 12, 238, 14, 224, 0x4F1E_D522);
    Fed(0x4F1E_D522, 11, 41, 9, 32, 0x5840_4BC7);
    Fed(0x5840_4BC7, 10, 205, 13, 192, 0x7CFD_2A5C);
    Fed(0x7CFD_2A5C, 9, 85, 5, 80, 0x64A8_33E5);
    Fed(0x64A8_33E5, 8, 237, 13, 224, 0x5C7C_4CFA);
  }

  lemma {:induction false} Descending3()
    ensures FeedAll(0x5C7C_4CFA, [7, 6, 5, 4, 3, 2, 1, 0]) == 0xEEC0_24A3
  {
    hide FeedByte;
    Fed(0x5C7C_4CFA, 7, 253, 13, 240, 0x4C1A_5FEA);
    Fed(0x4C1A_5FEA, 6, 236, 12, 224, 0xAE3F_7D95);
    Fed(0xAE3F_7D95, 5, 144, 0, 144, 0x9206_C36A);
    Fed(0x9206_C36A, 4, 110, 14, 96, 0xCD2C_2A86);
    Fed(0xCD2C_2A86, 3, 133, 5, 128, 0xB7CA_034E);
    Fed(0xB7CA_034E, 2, 76, 12, 64, 0x0C8F_186F);
    Fed(0x0C8F_186F, 1, 110, 14, 96, 0xCDB2_A35D);
    Fed(0xCDB2_A35D, 0, 93, 13, 80, 0xEEC0_24A3);
  }

  // The bytes 31 to 0.
  lemma {:induction false} Descending()
    ensures Crc(0, [31, 30, 29, 28, 27, 26, 25, 24] + [23, 22, 21, 20, 19, 18, 17, 16]
                   + [15, 14, 13, 12, 11, 10, 9, 8] + [7, 6, 5, 4, 3, 2, 1, 0]) == 0x113F_DB5C
  {
    hide FeedAll;
    FedParts(0xFFFF_FFFF, [31, 30, 29, 28, 27, 26, 25, 24], [23, 22, 21, 20, 19, 18, 17, 16],
             [15, 14, 13, 12, 11, 10, 9, 8], [7, 6, 5, 4, 3, 2, 1, 0]);
    Descending0();
    Descending1();
    Descending2();
    Descending3();
  }

  // Masking rotates by 15 bits and adds a constant.
  lemma {:induction false} MaskAnswers()
    ensures Mask(0) == 0xA282_EAD8 && Mask(1) == 0xA284_EAD8 && Mask(0x8000) == 0xA282_EAD9
  {
  }
}
