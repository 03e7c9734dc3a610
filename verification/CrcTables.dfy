/** The lookup tables of util/crc32c.cc, by their entries at the powers of two: each of the five tables is linear,
    so these eight determine the others. */
module CrcTables {
  import opened Keys
  import opened Crc32c

  // ----- every table is a number of zero bytes after its index -----

  lemma {:induction false} UpTakesOne(y: Word, n: nat)
    requires Small(y) && n > 0
    ensures Advance(Up(y), n) == Advance(y, n - 1)
  {
    hide ZeroByte, Up, Small;
    if n == 1 {
      HighBytesMove(y);
      assert Advance(Up(y), 0) == Up(y);
    } else {
      UpTakesOne(y, n - 1);
    }
  }

  lemma LanesAreSmall(c: byte)
    ensures Small(Lane(c, 0)) && Small(Lane(c, 1)) && Small(Lane(c, 2))
    ensures Lane(c, 0) == Wide(c) && Lane(c, 1) == Up(Wide(c)) && Lane(c, 2) == Up(Up(Wide(c)))
  {
    assert Lane(c, 2) == Up(Lane(c, 1)) == Up(Up(Lane(c, 0)));
  }

  // Table 3 - lane: the index, then 16 - lane zero bytes.
  lemma StrideIsAdvance(lane: nat, c: byte)
    requires lane < 4
    ensures StrideExtension(lane, c) == Advance(Wide(c), 16 - lane)
  {
    LanesAreSmall(c);
    hide Advance, Up, Wide, Small;
    if lane > 0 { UpTakesOne(Lane(c, lane - 1), 16); }
    if lane > 1 { UpTakesOne(Lane(c, lane - 2), 15); }
    if lane > 2 { UpTakesOne(Lane(c, 0), 14); }
  }

  lemma ByteIsAdvance(c: byte)
    ensures ByteExtension(c) == Advance(Wide(c), 1)
  {
    assert Advance(Wide(c), 0) == Wide(c);
    hide ZeroByte;
  }

  lemma WideXor(a: byte, b: byte)
    ensures Wide(Xor8(a, b)) == Xor(Wide(a), Wide(b))
  {
  }

  // An entry is the sum of the entries at the parts of its index.
  lemma EntriesAdd(lane: nat, a: byte, b: byte)
    requires lane < 4
    ensures ByteExtension(Xor8(a, b)) == Xor(ByteExtension(a), ByteExtension(b))
    ensures StrideExtension(lane, Xor8(a, b)) == Xor(StrideExtension(lane, a), StrideExtension(lane, b))
  {
    hide Wide, Xor8, Xor, ByteExtension, StrideExtension, Advance;
    WideXor(a, b);
    ByteIsAdvance(a);
    ByteIsAdvance(b);
    ByteIsAdvance(Xor8(a, b));
    StrideIsAdvance(lane, a);
    StrideIsAdvance(lane, b);
    StrideIsAdvance(lane, Xor8(a, b));
    AdvanceLinear(Wide(a), Wide(b), 1);
    AdvanceLinear(Wide(a), Wide(b), 16 - lane);
  }

  // ----- the entries at the powers of two -----

  lemma OneMore(x: Word, n: nat, y: Word, z: Word)
    requires Advance(x, n) == y && ZeroByte(y) == z
    ensures Advance(x, n + 1) == z
  {
    hide ZeroByte;
  }

  lemma FourMore(x: Word, n: nat, a: Word, b: Word, c: Word, d: Word, e: Word)
    requires Advance(x, n) == a && ZeroByte(a) == b && ZeroByte(b) == c && ZeroByte(c) == d && ZeroByte(d) == e
    ensures Advance(x, n + 4) == e
  {
    hide ZeroByte;
    assert Advance(x, n + 1) == b && Advance(x, n + 2) == c && Advance(x, n + 3) == d;
  }

  lemma Chain0()
    ensures Advance(1, 1) == 0xf26b_8303 && Advance(1, 13) == 0x30d2_3865 && Advance(1, 14) == 0x5407_5546
    ensures Advance(1, 15) == 0x678e_fd01 && Advance(1, 16) == 0xf20c_0dfe
  {
    assert Advance(1, 0) == 1;
    hide Advance;
    OneMore(1, 0, 1, 0xf26b_8303);
    FourMore(1, 1, 0xf26b_8303, 0x13a2_9877, 0xa541_927e, 0xdd45_aab8, 0x3811_6fac);
    FourMore(1, 5, 0x3811_6fac, 0xef30_6b19, 0x6803_2cc8, 0x493c_7d27, 0xf43e_d648);
    FourMore(1, 9, 0xf43e_d648, 0xcb56_7ba5, 0x9771_f7c1, 0x3171_d430, 0x30d2_3865);
    OneMore(1, 13, 0x30d2_3865, 0x5407_5546);
    OneMore(1, 14, 0x5407_5546, 0x678e_fd01);
    OneMore(1, 15, 0x678e_fd01, 0xf20c_0dfe);
  }

  lemma Chain1()
    ensures Advance(2, 1) == 0xe13b_70f7 && Advance(2, 13) == 0x61a4_70ca && Advance(2, 14) == 0xa80e_aa8c
    ensures Advance(2, 15) == 0xcf1d_fa02 && Advance(2, 16) == 0xe1f4_6d0d
  {
    assert Advance(2, 0) == 2;
    hide Advance;
    OneMore(2, 0, 2, 0xe13b_70f7);
    FourMore(2, 1, 0xe13b_70f7, 0x2745_30ee, 0x4f6f_520d, 0xbf67_2381, 0x7022_df58);
    FourMore(2, 5, 0x7022_df58, 0xdb8c_a0c3, 0xd006_5990, 0x9278_fa4e, 0xed91_da61);
    FourMore(2, 9, 0xed91_da61, 0x9340_81bb, 0x2b0f_9973, 0x62e3_a860, 0x61a4_70ca);
    OneMore(2, 13, 0x61a4_70ca, 0xa80e_aa8c);
    OneMore(2, 14, 0xa80e_aa8c, 0xcf1d_fa02);
    OneMore(2, 15, 0xcf1d_fa02, 0xe1f4_6d0d);
  }

  lemma Chain2()
    ensures Advance(4, 1) == 0xc79a_971f && Advance(4, 13) == 0xc348_e194 && Advance(4, 14) == 0x55f1_23e9
    ensures Advance(4, 15) == 0x9bd7_82f5 && Advance(4, 16) == 0xc604_aceb
  {
    assert Advance(4, 0) == 4;
    hide Advance;
    OneMore(4, 0, 4, 0xc79a_971f);
    FourMore(4, 1, 0xc79a_971f, 0x4e8a_61dc, 0x9ede_a41a, 0x7b22_31f3, 0xe045_beb0);
    FourMore(4, 5, 0xe045_beb0, 0xb2f5_3777, 0xa5e0_c5d1, 0x211d_826d, 0xdecf_c233);
    FourMore(4, 9, 0xdecf_c233, 0x236d_7587, 0x561f_32e6, 0xc5c7_50c0, 0xc348_e194);
    OneMore(4, 13, 0xc348_e194, 0x55f1_23e9);
    OneMore(4, 14, 0x55f1_23e9, 0x9bd7_82f5);
    OneMore(4, 15, 0x9bd7_82f5, 0xc604_aceb);
  }

  lemma Chain3()
    ensures Advance(8, 1) == 0x8ad9_58cf && Advance(8, 13) == 0x837d_b5d9 && Advance(8, 14) == 0xabe2_47d2
    ensures Advance(8, 15) == 0x3243_731b && Advance(8, 16) == 0x89e5_2f27
  {
    assert Advance(8, 0) == 8;
    hide Advance;
    OneMore(8, 0, 8, 0x8ad9_58cf);
    FourMore(8, 1, 0x8ad9_58cf, 0x9d14_c3b8, 0x3851_3ec5, 0xf644_63e6, 0xc567_0b91);
    FourMore(8, 5, 0xc567_0b91, 0x6006_181f, 0x4e2d_fd53, 0x423b_04da, 0xb873_f297);
    FourMore(8, 9, 0xb873_f297, 0x46da_eb0e, 0xac3e_65cc, 0x8e62_d771, 0x837d_b5d9);
    OneMore(8, 13, 0x837d_b5d9, 0xabe2_47d2);
    OneMore(8, 14, 0xabe2_47d2, 0x3243_731b);
    OneMore(8, 15, 0x3243_731b, 0x89e5_2f27);
  }

  lemma Chain4()
    ensures Advance(16, 1) == 0x105e_c76f && Advance(16, 13) == 0x0317_1d43 && Advance(16, 14) == 0x5228_f955
    ensures Advance(16, 15) == 0x6486_e636 && Advance(16, 16) == 0x1626_28bf
  {
    assert Advance(16, 0) == 16;
    hide Advance;
    OneMore(16, 0, 16, 0x105e_c76f);
    FourMore(16, 1, 0x105e_c76f, 0x3fc5_f181, 0x70a2_7d8a, 0xe964_b13d, 0x8f22_61d3);
    FourMore(16, 5, 0x8f22_61d3, 0xc00c_303e, 0x9c5b_faa6, 0x8476_09b4, 0x750b_93df);
    FourMore(16, 9, 0x750b_93df, 0x8db5_d61c, 0x5d90_bd69, 0x1929_d813, 0x0317_1d43);
    OneMore(16, 13, 0x0317_1d43, 0x5228_f955);
    OneMore(16, 14, 0x5228_f955, 0x6486_e636);
    OneMore(16, 15, 0x6486_e636, 0x1626_28bf);
  }

  lemma Chain5()
    ensures Advance(32, 1) == 0x20bd_8ede && Advance(32, 13) == 0x062e_3a86 && Advance(32, 14) == 0xa451_f2aa
    ensures Advance(32, 15) == 0xc90d_cc6c && Advance(32, 16) == 0x2c4c_517e
  {
    assert Advance(32, 0) == 32;
    hide Advance;
    OneMore(32, 0, 32, 0x20bd_8ede);
    FourMore(32, 1, 0x20bd_8ede, 0x7f8b_e302, 0xe144_fb14, 0xd725_148b, 0x1ba8_b557);
    FourMore(32, 5, 0x1ba8_b557, 0x85f4_168d, 0x3d5b_83bd, 0x0d00_6599, 0xea17_27be);
    FourMore(32, 9, 0xea17_27be, 0x1e87_dac9, 0xbb21_7ad2, 0x3253_b026, 0x062e_3a86);
    OneMore(32, 13, 0x062e_3a86, 0xa451_f2aa);
    OneMore(32, 14, 0xa451_f2aa, 0xc90d_cc6c);
    OneMore(32, 15, 0xc90d_cc6c, 0x2c4c_517e);
  }

  lemma Chain6()
    ensures Advance(64, 1) == 0x417b_1dbc && Advance(64, 13) == 0x0c5c_750c && Advance(64, 14) == 0x4d4f_93a5
    ensures Advance(64, 15) == 0x97f7_ee29 && Advance(64, 16) == 0x5898_a2fc
  {
    assert Advance(64, 0) == 64;
    hide Advance;
    OneMore(64, 0, 64, 0x417b_1dbc);
    FourMore(64, 1, 0x417b_1dbc, 0xff17_c604, 0xc765_80d9, 0xaba6_5fe7, 0x3751_6aae);
    FourMore(64, 5, 0x3751_6aae, 0x0e04_5beb, 0x7ab7_077a, 0x1a00_cb32, 0xd1c2_398d);
    FourMore(64, 9, 0xd1c2_398d, 0x3d0f_b592, 0x73ae_8355, 0x64a7_604c, 0x0c5c_750c);
    OneMore(64, 13, 0x0c5c_750c, 0x4d4f_93a5);
    OneMore(64, 14, 0x4d4f_93a5, 0x97f7_ee29);
    OneMore(64, 15, 0x97f7_ee29, 0x5898_a2fc);
  }

  lemma Chain7()
    ensures Advance(128, 1) == 0x82f6_3b78 && Advance(128, 13) == 0x18b8_ea18 && Advance(128, 14) == 0x9a9f_274a
    ensures Advance(128, 15) == 0x2a03_aaa3 && Advance(128, 16) == 0xb131_45f8
  {
    assert Advance(128, 0) == 128;
    hide Advance;
    OneMore(128, 0, 128, 0x82f6_3b78);
    FourMore(128, 1, 0x82f6_3b78, 0xfbc3_faf9, 0x8b27_7743, 0x52a0_c93f, 0x6ea2_d55c);
    FourMore(128, 5, 0x6ea2_d55c, 0x1c08_b7d6, 0xf56e_0ef4, 0x3401_9664, 0xa668_05eb);
    FourMore(128, 9, 0xa668_05eb, 0x7a1f_6b24, 0xe75d_06aa, 0xc94e_c098, 0x18b8_ea18);
    OneMore(128, 13, 0x18b8_ea18, 0x9a9f_274a);
    OneMore(128, 14, 0x9a9f_274a, 0x2a03_aaa3);
    OneMore(128, 15, 0x2a03_aaa3, 0xb131_45f8);
  }

  lemma WidePowers()
    ensures Wide(1) == 1 && Wide(2) == 2 && Wide(4) == 4 && Wide(8) == 8 && Wide(16) == 16 && Wide(32) == 32 && Wide(64) == 64 && Wide(128) == 128
  {
  }

  // kByteExtensionTable at 1, 2, 4, ... 128.
  lemma ByteTable()
    ensures ByteExtension(1) == 0xf26b_8303 && ByteExtension(2) == 0xe13b_70f7
    ensures ByteExtension(4) == 0xc79a_971f && ByteExtension(8) == 0x8ad9_58cf
    ensures ByteExtension(16) == 0x105e_c76f && ByteExtension(32) == 0x20bd_8ede
    ensures ByteExtension(64) == 0x417b_1dbc && ByteExtension(128) == 0x82f6_3b78
  {
    hide Advance, ByteExtension, StrideExtension;
    WidePowers();
    Chain0();
    ByteIsAdvance(1);
    Chain1();
    ByteIsAdvance(2);
    Chain2();
    ByteIsAdvance(4);
    Chain3();
    ByteIsAdvance(8);
    Chain4();
    ByteIsAdvance(16);
    Chain5();
    ByteIsAdvance(32);
    Chain6();
    ByteIsAdvance(64);
    Chain7();
    ByteIsAdvance(128);
  }

  // kStrideExtensionTable3 at 1, 2, 4, ... 128.
  lemma StrideTable3()
    ensures StrideExtension(0, 1) == 0xf20c_0dfe && StrideExtension(0, 2) == 0xe1f4_6d0d
    ensures StrideExtension(0, 4) == 0xc604_aceb && StrideExtension(0, 8) == 0x89e5_2f27
    ensures StrideExtension(0, 16) == 0x1626_28bf && StrideExtension(0, 32) == 0x2c4c_517e
    ensures StrideExtension(0, 64) == 0x5898_a2fc && StrideExtension(0, 128) == 0xb131_45f8
  {
    hide Advance, ByteExtension, StrideExtension;
    WidePowers();
    Chain0();
    StrideIsAdvance(0, 1);
    Chain1();
    StrideIsAdvance(0, 2);
    Chain2();
    StrideIsAdvance(0, 4);
    Chain3();
    StrideIsAdvance(0, 8);
    Chain4();
    StrideIsAdvance(0, 16);
    Chain5();
    StrideIsAdvance(0, 32);
    Chain6();
    StrideIsAdvance(0, 64);
    Chain7();
    StrideIsAdvance(0, 128);
  }

  // kStrideExtensionTable2 at 1, 2, 4, ... 128.
  lemma StrideTable2()
    ensures StrideExtension(1, 1) == 0x678e_fd01 && StrideExtension(1, 2) == 0xcf1d_fa02
    ensures StrideExtension(1, 4) == 0x9bd7_82f5 && StrideExtension(1, 8) == 0x3243_731b
    ensures StrideExtension(1, 16) == 0x6486_e636 && StrideExtension(1, 32) == 0xc90d_cc6c
    ensures StrideExtension(1, 64) == 0x97f7_ee29 && StrideExtension(1, 128) == 0x2a03_aaa3
  {
    hide Advance, ByteExtension, StrideExtension;
    WidePowers();
    Chain0();
    StrideIsAdvance(1, 1);
    Chain1();
    StrideIsAdvance(1, 2);
    Chain2();
    StrideIsAdvance(1, 4);
    Chain3();
    StrideIsAdvance(1, 8);
    Chain4();
    StrideIsAdvance(1, 16);
    Chain5();
    StrideIsAdvance(1, 32);
    Chain6();
    StrideIsAdvance(1, 64);
    Chain7();
    StrideIsAdvance(1, 128);
  }

  // kStrideExtensionTable1 at 1, 2, 4, ... 128.
  lemma StrideTable1()
    ensures StrideExtension(2, 1) == 0x5407_5546 && StrideExtension(2, 2) == 0xa80e_aa8c
    ensures StrideExtension(2, 4) == 0x55f1_23e9 && StrideExtension(2, 8) == 0xabe2_47d2
    ensures StrideExtension(2, 16) == 0x5228_f955 && StrideExtension(2, 32) == 0xa451_f2aa
    ensures StrideExtension(2, 64) == 0x4d4f_93a5 && StrideExtension(2, 128) == 0x9a9f_274a
  {
    hide Advance, ByteExtension, StrideExtension;
    WidePowers();
    Chain0();
    StrideIsAdvance(2, 1);
    Chain1();
    StrideIsAdvance(2, 2);
    Chain2();
    StrideIsAdvance(2, 4);
    Chain3();
    StrideIsAdvance(2, 8);
    Chain4();
    StrideIsAdvance(2, 16);
    Chain5();
    StrideIsAdvance(2, 32);
    Chain6();
    StrideIsAdvance(2, 64);
    Chain7();
    StrideIsAdvance(2, 128);
  }

  // kStrideExtensionTable0 at 1, 2, 4, ... 128.
  lemma StrideTable0()
    ensures StrideExtension(3, 1) == 0x30d2_3865 && StrideExtension(3, 2) == 0x61a4_70ca
    ensures StrideExtension(3, 4) == 0xc348_e194 && StrideExtension(3, 8) == 0x837d_b5d9
    ensures StrideExtension(3, 16) == 0x0317_1d43 && StrideExtension(3, 32) == 0x062e_3a86
    ensures StrideExtension(3, 64) == 0x0c5c_750c && StrideExtension(3, 128) == 0x18b8_ea18
  {
    hide Advance, ByteExtension, StrideExtension;
    WidePowers();
    Chain0();
    StrideIsAdvance(3, 1);
    Chain1();
    StrideIsAdvance(3, 2);
    Chain2();
    StrideIsAdvance(3, 4);
    Chain3();
    StrideIsAdvance(3, 8);
    Chain4();
    StrideIsAdvance(3, 16);
    Chain5();
    StrideIsAdvance(3, 32);
    Chain6();
    StrideIsAdvance(3, 64);
    Chain7();
    StrideIsAdvance(3, 128);
  }
}
