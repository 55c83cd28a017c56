/** The numbers in the tables of crypto/crc.c, and the published check value of CRC-32C. */
module CrcTables {
  import opened Basics
  import opened Crc

  /** The entries of a table at the powers of two. */
  function Powers(k: nat): (r: seq<bv32>) {
    [Table(k, 1), Table(k, 2), Table(k, 4), Table(k, 8),
     Table(k, 0x10), Table(k, 0x20), Table(k, 0x40), Table(k, 0x80)]
  }

  /** The others are sums of these. */
  lemma TableLinear(k: nat, i: bv32, j: bv32)
    ensures Table(k, Add(i, j)) == Add(Table(k, i), Table(k, j)) && Table(k, 0) == 0
  {
    hide Bits, Add;
    BitsLinear(8 * k + 8, i, j);
    BitsOfZero(8 * k + 8);
  }

  /** A power of two is shifted down to one first. */
  lemma Shifted(n: nat)
    ensures Bits(n + 1, 2) == Bits(n + 2, 4) == Bits(n + 3, 8) == Bits(n, 1)
    ensures Bits(n + 4, 0x10) == Bits(n + 5, 0x20) == Bits(n + 6, 0x40) == Bits(n + 7, 0x80) == Bits(n, 1)
  {
    hide Bits, Half;
    HalvingOnes();
    BitsZero(n, 2);
    BitsZero(n + 1, 4);
    BitsZero(n + 2, 8);
    BitsZero(n + 3, 0x10);
    BitsZero(n + 4, 0x20);
    BitsZero(n + 5, 0x40);
    BitsZero(n + 6, 0x80);
  }

  lemma NextBit(n: nat, c: bv32)
    ensures Bits(n + 1, c) == Bit(Bits(n, c))
  {
    hide Bit;
    BitsAdd(n, 1, c);
    OneBit(Bits(n, c));
  }

  /** `s` goes on by one bit of division at a time. */
  ghost predicate Divides(s: seq<bv32>) {
    forall i, j :: 0 <= i && j == i + 1 && j < |s| ==> s[j] == Bit(s[i])
  }

  lemma {:induction false} Divided(s: seq<bv32>, n: nat, c: bv32, i: nat)
    requires i < |s| && Divides(s) && s[0] == Bits(n, c)
    ensures s[i] == Bits(n + i, c)
  {
    hide Bits, Bit;
    if i > 0 {
      Divided(s, n, c, i - 1);
      NextBit(n + i - 1, c);
    }
  }

  /** Nine successive remainders give the eight entries. */
  lemma PowersAre(k: nat, s: seq<bv32>)
    requires |s| == 9 && Divides(s) && s[0] == Bits(8 * k, 1)
    ensures Powers(k) == [s[8], s[7], s[6], s[5], s[4], s[3], s[2], s[1]]
    ensures s[8] == Bits(8 * (k + 1), 1)
  {
    hide Bits, Divides;
    forall i | 0 <= i < 9 ensures s[i] == Bits(8 * k + i, 1) {
      Divided(s, 8 * k, 1, i);
    }
    Shifted(8 * k + 1);
    Shifted(8 * k + 2);
    Shifted(8 * k + 3);
    Shifted(8 * k + 4);
    Shifted(8 * k + 5);
    Shifted(8 * k + 6);
    Shifted(8 * k + 7);
  }

  /** Entries of table_il8_o32. */
  lemma Table0()
    ensures Powers(0) == [0xF26B_8303, 0xE13B_70F7, 0xC79A_971F, 0x8AD9_58CF,
                          0x105E_C76F, 0x20BD_8EDE, 0x417B_1DBC, 0x82F6_3B78]
    ensures Bits(8, 1) == 0xF26B_8303
  {
    hide Bits, Powers;
    NoBits(1);
    var s: seq<bv32> := [0x0000_0001, 0x82F6_3B78, 0x417B_1DBC, 0x20BD_8EDE, 0x105E_C76F,
                         0x8AD9_58CF, 0xC79A_971F, 0xE13B_70F7, 0xF26B_8303];
    assert Divides(s);
    PowersAre(0, s);
  }

  /** Entries of table_il8_o40. */
  lemma Table1()
    ensures Powers(1) == [0x13A2_9877, 0x2745_30EE, 0x4E8A_61DC, 0x9D14_C3B8,
                          0x3FC5_F181, 0x7F8B_E302, 0xFF17_C604, 0xFBC3_FAF9]
    ensures Bits(16, 1) == 0x13A2_9877
  {
    hide Bits, Powers;
    Table0();
    var s: seq<bv32> := [0xF26B_8303, 0xFBC3_FAF9, 0xFF17_C604, 0x7F8B_E302, 0x3FC5_F181,
                         0x9D14_C3B8, 0x4E8A_61DC, 0x2745_30EE, 0x13A2_9877];
    assert Divides(s);
    PowersAre(1, s);
  }

  /** Entries of table_il8_o48. */
  lemma Table2()
    ensures Powers(2) == [0xA541_927E, 0x4F6F_520D, 0x9EDE_A41A, 0x3851_3EC5,
                          0x70A2_7D8A, 0xE144_FB14, 0xC765_80D9, 0x8B27_7743]
    ensures Bits(24, 1) == 0xA541_927E
  {
    hide Bits, Powers;
    Table1();
    var s: seq<bv32> := [0x13A2_9877, 0x8B27_7743, 0xC765_80D9, 0xE144_FB14, 0x70A2_7D8A,
                         0x3851_3EC5, 0x9EDE_A41A, 0x4F6F_520D, 0xA541_927E];
    assert Divides(s);
    PowersAre(2, s);
  }

  /** Entries of table_il8_o56. */
  lemma Table3()
    ensures Powers(3) == [0xDD45_AAB8, 0xBF67_2381, 0x7B22_31F3, 0xF644_63E6,
                          0xE964_B13D, 0xD725_148B, 0xABA6_5FE7, 0x52A0_C93F]
    ensures Bits(32, 1) == 0xDD45_AAB8
  {
    hide Bits, Powers;
    Table2();
    var s: seq<bv32> := [0xA541_927E, 0x52A0_C93F, 0xABA6_5FE7, 0xD725_148B, 0xE964_B13D,
                         0xF644_63E6, 0x7B22_31F3, 0xBF67_2381, 0xDD45_AAB8];
    assert Divides(s);
    PowersAre(3, s);
  }

  /** Entries of table_il8_o64. */
  lemma Table4()
    ensures Powers(4) == [0x3811_6FAC, 0x7022_DF58, 0xE045_BEB0, 0xC567_0B91,
                          0x8F22_61D3, 0x1BA8_B557, 0x3751_6AAE, 0x6EA2_D55C]
    ensures Bits(40, 1) == 0x3811_6FAC
  {
    hide Bits, Powers;
    Table3();
    var s: seq<bv32> := [0xDD45_AAB8, 0x6EA2_D55C, 0x3751_6AAE, 0x1BA8_B557, 0x8F22_61D3,
                         0xC567_0B91, 0xE045_BEB0, 0x7022_DF58, 0x3811_6FAC];
    assert Divides(s);
    PowersAre(4, s);
  }

  /** Entries of table_il8_o72. */
  lemma Table5()
    ensures Powers(5) == [0xEF30_6B19, 0xDB8C_A0C3, 0xB2F5_3777, 0x6006_181F,
                          0xC00C_303E, 0x85F4_168D, 0x0E04_5BEB, 0x1C08_B7D6]
    ensures Bits(48, 1) == 0xEF30_6B19
  {
    hide Bits, Powers;
    Table4();
    var s: seq<bv32> := [0x3811_6FAC, 0x1C08_B7D6, 0x0E04_5BEB, 0x85F4_168D, 0xC00C_303E,
                         0x6006_181F, 0xB2F5_3777, 0xDB8C_A0C3, 0xEF30_6B19];
    assert Divides(s);
    PowersAre(5, s);
  }

  /** Entries of table_il8_o80. */
  lemma Table6()
    ensures Powers(6) == [0x6803_2CC8, 0xD006_5990, 0xA5E0_C5D1, 0x4E2D_FD53,
                          0x9C5B_FAA6, 0x3D5B_83BD, 0x7AB7_077A, 0xF56E_0EF4]
    ensures Bits(56, 1) == 0x6803_2CC8
  {
    hide Bits, Powers;
    Table5();
    var s: seq<bv32> := [0xEF30_6B19, 0xF56E_0EF4, 0x7AB7_077A, 0x3D5B_83BD, 0x9C5B_FAA6,
                         0x4E2D_FD53, 0xA5E0_C5D1, 0xD006_5990, 0x6803_2CC8];
    assert Divides(s);
    PowersAre(6, s);
  }

  /** Entries of table_il8_o88. */
  lemma Table7()
    ensures Powers(7) == [0x493C_7D27, 0x9278_FA4E, 0x211D_826D, 0x423B_04DA,
                          0x8476_09B4, 0x0D00_6599, 0x1A00_CB32, 0x3401_9664]
    ensures Bits(64, 1) == 0x493C_7D27
  {
    hide Bits, Powers;
    Table6();
    var s: seq<bv32> := [0x6803_2CC8, 0x3401_9664, 0x1A00_CB32, 0x0D00_6599, 0x8476_09B4,
                         0x423B_04DA, 0x211D_826D, 0x9278_FA4E, 0x493C_7D27];
    assert Divides(s);
    PowersAre(7, s);
  }

  /** One byte of the reference, with the nine remainders of its division. */
  lemma ByteDivided(c: bv32, buf: seq<bv8>, i: nat, s: seq<bv32>)
    requires i < |buf| && |s| == 9 && Divides(s) && s[0] == Add(Reference(c, buf[..i]), Byte(buf[i]))
    ensures Reference(c, buf[..i + 1]) == s[8]
  {
    hide Bits, Divides, Add, Byte, Reference;
    NoBits(s[0]);
    Divided(s, 0, s[0], 8);
    ReferenceNext(c, buf, i);
  }

  lemma Digit1(buf: seq<bv8>)
    requires |buf| == 9 && buf[0] == 0x31 && Reference(0xFFFF_FFFF, buf[..0]) == 0xFFFF_FFFF
    ensures Reference(0xFFFF_FFFF, buf[..1]) == 0x6F0A_661C
  {
    hide Reference;
    var s: seq<bv32> := [0xFFFF_FFCE, 0x7FFF_FFE7, 0xBD09_C48B, 0xDC72_D93D, 0xECCF_57E6,
                         0x7667_ABF3, 0xB9C5_EE81, 0xDE14_CC38, 0x6F0A_661C];
    assert Divides(s);
    ByteDivided(0xFFFF_FFFF, buf, 0, s);
  }

  lemma Digit2(buf: seq<bv8>)
    requires |buf| == 9 && buf[1] == 0x32 && Reference(0xFFFF_FFFF, buf[..1]) == 0x6F0A_661C
    ensures Reference(0xFFFF_FFFF, buf[..2]) == 0x8CAA_3B9F
  {
    hide Reference;
    var s: seq<bv32> := [0x6F0A_662E, 0x3785_3317, 0x9934_A2F3, 0xCE6C_6A01, 0xE5C0_0E78,
                         0x72E0_073C, 0x3970_039E, 0x1CB8_01CF, 0x8CAA_3B9F];
    assert Divides(s);
    ByteDivided(0xFFFF_FFFF, buf, 1, s);
  }

  lemma Digit3(buf: seq<bv8>)
    requires |buf| == 9 && buf[2] == 0x33 && Reference(0xFFFF_FFFF, buf[..2]) == 0x8CAA_3B9F
    ensures Reference(0xFFFF_FFFF, buf[..3]) == 0xEF84_D04D
  {
    hide Reference;
    var s: seq<bv32> := [0x8CAA_3BAC, 0x4655_1DD6, 0x232A_8EEB, 0x9363_7C0D, 0xCB47_857E,
                         0x65A3_C2BF, 0xB027_DA27, 0xDAE5_D66B, 0xEF84_D04D];
    assert Divides(s);
    ByteDivided(0xFFFF_FFFF, buf, 2, s);
  }

  lemma Digit4(buf: seq<bv8>)
    requires |buf| == 9 && buf[3] == 0x34 && Reference(0xFFFF_FFFF, buf[..3]) == 0xEF84_D04D
    ensures Reference(0xFFFF_FFFF, buf[..4]) == 0x09C5_0B11
  {
    hide Reference;
    var s: seq<bv32> := [0xEF84_D079, 0xF534_5344, 0x7A9A_29A2, 0x3D4D_14D1, 0x9C50_B110,
                         0x4E28_5888, 0x2714_2C44, 0x138A_1622, 0x09C5_0B11];
    assert Divides(s);
    ByteDivided(0xFFFF_FFFF, buf, 3, s);
  }

  lemma Digit5(buf: seq<bv8>)
    requires |buf| == 9 && buf[4] == 0x35 && Reference(0xFFFF_FFFF, buf[..4]) == 0x09C5_0B11
    ensures Reference(0xFFFF_FFFF, buf[..5]) == 0xE72E_DCCA
  {
    hide Reference;
    var s: seq<bv32> := [0x09C5_0B24, 0x04E2_8592, 0x0271_42C9, 0x83CE_9A1C, 0x41E7_4D0E,
                         0x20F3_A687, 0x928F_E83B, 0xCBB1_CF65, 0xE72E_DCCA];
    assert Divides(s);
    ByteDivided(0xFFFF_FFFF, buf, 4, s);
  }

  lemma Digit6(buf: seq<bv8>)
    requires |buf| == 9 && buf[5] == 0x36 && Reference(0xFFFF_FFFF, buf[..5]) == 0xE72E_DCCA
    ensures Reference(0xFFFF_FFFF, buf[..6]) == 0xBECA_8E79
  {
    hide Reference;
    var s: seq<bv32> := [0xE72E_DCFC, 0x7397_6E7E, 0x39CB_B73F, 0x9E13_E0E7, 0xCDFF_CB0B,
                         0xE409_DEFD, 0xF0F2_D406, 0x7879_6A03, 0xBECA_8E79];
    assert Divides(s);
    ByteDivided(0xFFFF_FFFF, buf, 5, s);
  }

  lemma Digit7(buf: seq<bv8>)
    requires |buf| == 9 && buf[6] == 0x37 && Reference(0xFFFF_FFFF, buf[..6]) == 0xBECA_8E79
    ensures Reference(0xFFFF_FFFF, buf[..7]) == 0xEDBD_6815
  {
    hide Reference;
    var s: seq<bv32> := [0xBECA_8E4E, 0x5F65_4727, 0xAD44_98EB, 0xD454_770D, 0xE8DC_00FE,
                         0x746E_007F, 0xB8C1_3B47, 0xDE96_A6DB, 0xEDBD_6815];
    assert Divides(s);
    ByteDivided(0xFFFF_FFFF, buf, 6, s);
  }

  lemma Digit8(buf: seq<bv8>)
    requires |buf| == 9 && buf[7] == 0x38 && Reference(0xFFFF_FFFF, buf[..7]) == 0xEDBD_6815
    ensures Reference(0xFFFF_FFFF, buf[..8]) == 0x9F78_7F65
  {
    hide Reference;
    var s: seq<bv32> := [0xEDBD_682D, 0xF428_8F6E, 0x7A14_47B7, 0xBFFC_18A3, 0xDD08_3729,
                         0xEC72_20EC, 0x7639_1076, 0x3B1C_883B, 0x9F78_7F65];
    assert Divides(s);
    ByteDivided(0xFFFF_FFFF, buf, 7, s);
  }

  lemma Digit9(buf: seq<bv8>)
    requires |buf| == 9 && buf[8] == 0x39 && Reference(0xFFFF_FFFF, buf[..8]) == 0x9F78_7F65
    ensures Reference(0xFFFF_FFFF, buf[..9]) == 0x1CF9_6D7C
  {
    hide Reference;
    var s: seq<bv32> := [0x9F78_7F5C, 0x4FBC_3FAE, 0x27DE_1FD7, 0x9119_3493, 0xCA7A_A131,
                         0xE7CB_6BE0, 0x73E5_B5F0, 0x39F2_DAF8, 0x1CF9_6D7C];
    assert Divides(s);
    ByteDivided(0xFFFF_FFFF, buf, 8, s);
  }

  /** The published check value: the digits 1 to 9 in ASCII give E3069283. */
  method CheckValue(address: nat) returns (r: Option<bv32>)
    ensures r == Some(0xE306_9283)
  {
    hide Reference;
    var buf: seq<bv8> := [0x31, 0x32, 0x33, 0x34, 0x35, 0x36, 0x37, 0x38, 0x39];
    r := Hash(buf, address);
    CheckReference(buf);
  }

  lemma CheckReference(buf: seq<bv8>)
    requires buf == [0x31, 0x32, 0x33, 0x34, 0x35, 0x36, 0x37, 0x38, 0x39]
    ensures Reference(0xFFFF_FFFF, buf) ^ 0xFFFF_FFFF == 0xE306_9283
  {
    hide Reference;
    ReferenceEmpty(0xFFFF_FFFF);
    assert buf[..0] == [] && buf[..9] == buf;
    Digit1(buf);
    Digit2(buf);
    Digit3(buf);
    Digit4(buf);
    Digit5(buf);
    Digit6(buf);
    Digit7(buf);
    Digit8(buf);
    Digit9(buf);
  }
}
