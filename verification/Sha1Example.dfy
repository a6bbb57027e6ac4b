/** The digest of "abc", the one-block example of FIPS 180. */
module Sha1Example {
  import opened Words
  import opened Sha1Spec

  const ABC: seq<Byte> := [0x61, 0x62, 0x63]

  /** The one block of the padded message. */
  const BLOCK: seq<Word> :=
    [0x61626380, 0, 0, 0, 0, 0, 0, 0, 0, 0, 0, 0, 0, 0, 0, 0x18]

  lemma {:induction false} Padding()
    ensures Pad(ABC, 24) == ABC + [0x80] + Zeros(52) + [0, 0, 0, 0, 0, 0, 0, 24]
  {
    hide CountBytes; hide Zeros;
    CountIs();
    assert PadZeros(3) == 52;
  }

  lemma {:induction false} CountIs()
    ensures CountBytes(24) == [0, 0, 0, 0, 0, 0, 0, 24]
  {
    hide ToByte;
    SmallBytes();
  }

  lemma {:induction false} SmallBytes()
    ensures ToByte(0) == 0 && ToByte(24) == 24
  {
  }

  lemma {:induction false} BlockIs()
    ensures BlockWords(Pad(ABC, 24)) == BLOCK
  {
    Padding();
    hide Pad;
    var p := Pad(ABC, 24);
    assert p[..4] == [0x61, 0x62, 0x63, 0x80] && p[56..] == [0, 0, 0, 0, 0, 0, 0, 24];
    assert forall i :: 4 <= i < 63 ==> p[i] == 0;
    hide Join;
    assert Join(0x80, 0x63, 0x62, 0x61) == 0x61626380 && Join(24, 0, 0, 0) == 24 && Join(0, 0, 0, 0) == 0 by {
      Joins();
    }
  }

  lemma {:induction false} Joins()
    ensures Join(0x80, 0x63, 0x62, 0x61) == 0x61626380 && Join(24, 0, 0, 0) == 24 && Join(0, 0, 0, 0) == 0
  {
  }

  ghost predicate WordIs(t: int, w: Word) {
    t >= 0 && W(BLOCK, t) == w
  }

  lemma {:induction false} FirstWords()
    ensures WordIs(0, 0x61626380) && WordIs(15, 0x18) && forall t :: 0 < t < 15 ==> WordIs(t, 0)
  {
  }

  lemma {:induction false} NextWord(t: int, a: Word, b: Word, c: Word, d: Word)
    requires t >= 16 && WordIs(t - 3, a) && WordIs(t - 8, b) && WordIs(t - 14, c) && WordIs(t - 16, d)
    ensures WordIs(t, Rotl1(XorW(XorW(XorW(a, b), c), d)))
  {
    hide Rotl1; hide XorW;
  }

  lemma {:induction false} Words16()
    ensures WordIs(16, 0xc2c4c700) && WordIs(17, 0x00000000)
    ensures WordIs(18, 0x00000030) && WordIs(19, 0x85898e01)
    ensures WordIs(20, 0x00000000) && WordIs(21, 0x00000060)
    ensures WordIs(22, 0x0b131c03) && WordIs(23, 0x00000030)
  {
    hide WordIs;
    FirstWords();
    NextWord(16, 0x00000000, 0x00000000, 0x00000000, 0x61626380);
    NextWord(17, 0x00000000, 0x00000000, 0x00000000, 0x00000000);
    NextWord(18, 0x00000018, 0x00000000, 0x00000000, 0x00000000);
    NextWord(19, 0xc2c4c700, 0x00000000, 0x00000000, 0x00000000);
    NextWord(20, 0x00000000, 0x00000000, 0x00000000, 0x00000000);
    NextWord(21, 0x00000030, 0x00000000, 0x00000000, 0x00000000);
    NextWord(22, 0x85898e01, 0x00000000, 0x00000000, 0x00000000);
    NextWord(23, 0x00000000, 0x00000018, 0x00000000, 0x00000000);
  }

  lemma {:induction false} Words24()
    ensures WordIs(24, 0x85898ec1) && WordIs(25, 0x16263806)
    ensures WordIs(26, 0x00000000) && WordIs(27, 0x00000180)
    ensures WordIs(28, 0x2c4c700c) && WordIs(29, 0x000000f0)
    ensures WordIs(30, 0x93afb507) && WordIs(31, 0x5898e048)
  {
    hide WordIs;
    FirstWords();
    Words16();
    NextWord(24, 0x00000060, 0xc2c4c700, 0x00000000, 0x00000000);
    NextWord(25, 0x0b131c03, 0x00000000, 0x00000000, 0x00000000);
    NextWord(26, 0x00000030, 0x00000030, 0x00000000, 0x00000000);
    NextWord(27, 0x85898ec1, 0x85898e01, 0x00000000, 0x00000000);
    NextWord(28, 0x16263806, 0x00000000, 0x00000000, 0x00000000);
    NextWord(29, 0x00000000, 0x00000060, 0x00000018, 0x00000000);
    NextWord(30, 0x00000180, 0x0b131c03, 0xc2c4c700, 0x00000000);
    NextWord(31, 0x2c4c700c, 0x00000030, 0x00000000, 0x00000018);
  }

  lemma {:induction false} Words32()
    ensures WordIs(32, 0x8e9a9202) && WordIs(33, 0x00000600)
    ensures WordIs(34, 0xb131c0f0) && WordIs(35, 0x16263bc6)
    ensures WordIs(36, 0x4ebed41e) && WordIs(37, 0x626380a1)
    ensures WordIs(38, 0x16263806) && WordIs(39, 0x000018c0)
  {
    hide WordIs;
    Words16();
    Words24();
    NextWord(32, 0x000000f0, 0x85898ec1, 0x00000030, 0xc2c4c700);
    NextWord(33, 0x93afb507, 0x16263806, 0x85898e01, 0x00000000);
    NextWord(34, 0x5898e048, 0x00000000, 0x00000000, 0x00000030);
    NextWord(35, 0x8e9a9202, 0x00000180, 0x00000060, 0x85898e01);
    NextWord(36, 0x00000600, 0x2c4c700c, 0x0b131c03, 0x00000000);
    NextWord(37, 0xb131c0f0, 0x000000f0, 0x00000030, 0x00000060);
    NextWord(38, 0x16263bc6, 0x93afb507, 0x85898ec1, 0x0b131c03);
    NextWord(39, 0x4ebed41e, 0x5898e048, 0x16263806, 0x00000030);
  }

  lemma {:induction false} Words40()
    ensures WordIs(40, 0xd2e138c4) && WordIs(41, 0x00000f00)
    ensures WordIs(42, 0x3afb5079) && WordIs(43, 0x898e04e5)
    ensures WordIs(44, 0xe2ba3c2b) && WordIs(45, 0x000060c0)
    ensures WordIs(46, 0x053a37cd) && WordIs(47, 0x74458547)
  {
    hide WordIs;
    Words24();
    Words32();
    NextWord(40, 0x626380a1, 0x8e9a9202, 0x00000000, 0x85898ec1);
    NextWord(41, 0x16263806, 0x00000600, 0x00000180, 0x16263806);
    NextWord(42, 0x000018c0, 0xb131c0f0, 0x2c4c700c, 0x00000000);
    NextWord(43, 0xd2e138c4, 0x16263bc6, 0x000000f0, 0x00000180);
    NextWord(44, 0x00000f00, 0x4ebed41e, 0x93afb507, 0x2c4c700c);
    NextWord(45, 0x3afb5079, 0x626380a1, 0x5898e048, 0x000000f0);
    NextWord(46, 0x898e04e5, 0x16263806, 0x8e9a9202, 0x93afb507);
    NextWord(47, 0xe2ba3c2b, 0x000018c0, 0x00000600, 0x5898e048);
  }

  lemma {:induction false} Words48()
    ensures WordIs(48, 0xda9415ed) && WordIs(49, 0x26380a16)
    ensures WordIs(50, 0x626383a1) && WordIs(51, 0x4ebf54de)
    ensures WordIs(52, 0x3835b44b) && WordIs(53, 0x0000f600)
    ensures WordIs(54, 0x1e84c7a3) && WordIs(55, 0x98e04d98)
  {
    hide WordIs;
    Words32();
    Words40();
    NextWord(48, 0x000060c0, 0xd2e138c4, 0xb131c0f0, 0x8e9a9202);
    NextWord(49, 0x053a37cd, 0x00000f00, 0x16263bc6, 0x00000600);
    NextWord(50, 0x74458547, 0x3afb5079, 0x4ebed41e, 0xb131c0f0);
    NextWord(51, 0xda9415ed, 0x898e04e5, 0x626380a1, 0x16263bc6);
    NextWord(52, 0x26380a16, 0xe2ba3c2b, 0x16263806, 0x4ebed41e);
    NextWord(53, 0x626383a1, 0x000060c0, 0x000018c0, 0x626380a1);
    NextWord(54, 0x4ebf54de, 0x053a37cd, 0xd2e138c4, 0x16263806);
    NextWord(55, 0x3835b44b, 0x74458547, 0x00000f00, 0x000018c0);
  }

  lemma {:induction false} Words56()
    ensures WordIs(56, 0x651d16a0) && WordIs(57, 0x62658ca1)
    ensures WordIs(58, 0x458544d6) && WordIs(59, 0x44584cb7)
    ensures WordIs(60, 0x7ba06619) && WordIs(61, 0x6380aea2)
    ensures WordIs(62, 0x0ae55269) && WordIs(63, 0x627b49a1)
  {
    hide WordIs;
    Words40();
    Words48();
    NextWord(56, 0x0000f600, 0xda9415ed, 0x3afb5079, 0xd2e138c4);
    NextWord(57, 0x1e84c7a3, 0x26380a16, 0x898e04e5, 0x00000f00);
    NextWord(58, 0x98e04d98, 0x626383a1, 0xe2ba3c2b, 0x3afb5079);
    NextWord(59, 0x651d16a0, 0x4ebf54de, 0x000060c0, 0x898e04e5);
    NextWord(60, 0x62658ca1, 0x3835b44b, 0x053a37cd, 0xe2ba3c2b);
    NextWord(61, 0x458544d6, 0x0000f600, 0x74458547, 0x000060c0);
    NextWord(62, 0x44584cb7, 0x1e84c7a3, 0xda9415ed, 0x053a37cd);
    NextWord(63, 0x7ba06619, 0x98e04d98, 0x26380a16, 0x74458547);
  }

  lemma {:induction false} Words64()
    ensures WordIs(64, 0x7cd45c9d) && WordIs(65, 0x000f0000)
    ensures WordIs(66, 0xfb50753a) && WordIs(67, 0xec6765e8)
    ensures WordIs(68, 0xba3c2be2) && WordIs(69, 0x0060c000)
    ensures WordIs(70, 0x3a37cd05) && WordIs(71, 0x458546f4)
  {
    hide WordIs;
    Words48();
    Words56();
    NextWord(64, 0x6380aea2, 0x651d16a0, 0x626383a1, 0xda9415ed);
    NextWord(65, 0x0ae55269, 0x62658ca1, 0x4ebf54de, 0x26380a16);
    NextWord(66, 0x627b49a1, 0x458544d6, 0x3835b44b, 0x626383a1);
    NextWord(67, 0x7cd45c9d, 0x44584cb7, 0x0000f600, 0x4ebf54de);
    NextWord(68, 0x000f0000, 0x7ba06619, 0x1e84c7a3, 0x3835b44b);
    NextWord(69, 0xfb50753a, 0x6380aea2, 0x98e04d98, 0x0000f600);
    NextWord(70, 0xec6765e8, 0x0ae55269, 0x651d16a0, 0x1e84c7a3);
    NextWord(71, 0xba3c2be2, 0x627b49a1, 0x62658ca1, 0x98e04d98);
  }

  lemma {:induction false} Words72()
    ensures WordIs(72, 0xb8599dd6) && WordIs(73, 0x380a1a26)
    ensures WordIs(74, 0x01e02203) && WordIs(75, 0xe7cc3456)
    ensures WordIs(76, 0xe6e60b69) && WordIs(77, 0x00f60a00)
    ensures WordIs(78, 0x5795ef4f) && WordIs(79, 0x822e0879)
  {
    hide WordIs;
    Words56();
    Words64();
    NextWord(72, 0x0060c000, 0x7cd45c9d, 0x458544d6, 0x651d16a0);
    NextWord(73, 0x3a37cd05, 0x000f0000, 0x44584cb7, 0x62658ca1);
    NextWord(74, 0x458546f4, 0xfb50753a, 0x7ba06619, 0x458544d6);
    NextWord(75, 0xb8599dd6, 0xec6765e8, 0x6380aea2, 0x44584cb7);
    NextWord(76, 0x380a1a26, 0xba3c2be2, 0x0ae55269, 0x7ba06619);
    NextWord(77, 0x01e02203, 0x0060c000, 0x627b49a1, 0x6380aea2);
    NextWord(78, 0xe7cc3456, 0x3a37cd05, 0x7cd45c9d, 0x0ae55269);
    NextWord(79, 0xe6e60b69, 0x458546f4, 0x000f0000, 0x627b49a1);
  }

  lemma {:induction false} NextRound(t: nat, r: Regs, w: Word)
    requires t > 0 && Rounds(BLOCK, INITIAL, t - 1) == r && WordIs(t - 1, w)
    ensures Rounds(BLOCK, INITIAL, t) == Round(r, t - 1, w)
  {
    hide Round; hide W;
  }

  lemma {:induction false} Rounds8()
    ensures Rounds(BLOCK, INITIAL, 8) == Regs(0x9e8c07d4, 0x993e30c1, 0x0ff1f290, 0xb3f52677, 0xf3763846)
  {
    hide Rounds; hide WordIs;
    NoRounds();
    FirstWords();
    NextRound(1, Regs(0x67452301, 0xefcdab89, 0x98badcfe, 0x10325476, 0xc3d2e1f0), 0x61626380);
    NextRound(2, Regs(0x0116fc33, 0x67452301, 0x7bf36ae2, 0x98badcfe, 0x10325476), 0x00000000);
    NextRound(3, Regs(0x8990536d, 0x0116fc33, 0x59d148c0, 0x7bf36ae2, 0x98badcfe), 0x00000000);
    NextRound(4, Regs(0xa1390f08, 0x8990536d, 0xc045bf0c, 0x59d148c0, 0x7bf36ae2), 0x00000000);
    NextRound(5, Regs(0xcdd8e11b, 0xa1390f08, 0x626414db, 0xc045bf0c, 0x59d148c0), 0x00000000);
    NextRound(6, Regs(0xcfd499de, 0xcdd8e11b, 0x284e43c2, 0x626414db, 0xc045bf0c), 0x00000000);
    NextRound(7, Regs(0x3fc7ca40, 0xcfd499de, 0xf3763846, 0x284e43c2, 0x626414db), 0x00000000);
    NextRound(8, Regs(0x993e30c1, 0x3fc7ca40, 0xb3f52677, 0xf3763846, 0x284e43c2), 0x00000000);
  }

  lemma {:induction false} Rounds16()
    ensures Rounds(BLOCK, INITIAL, 16) == Regs(0x20bdd62f, 0x196bee77, 0x644a3da5, 0x1181ed99, 0x18c623f9)
  {
    hide Rounds; hide WordIs;
    Rounds8();
    FirstWords();
    NextRound(9, Regs(0x9e8c07d4, 0x993e30c1, 0x0ff1f290, 0xb3f52677, 0xf3763846), 0x00000000);
    NextRound(10, Regs(0x4b6ae328, 0x9e8c07d4, 0x664f8c30, 0x0ff1f290, 0xb3f52677), 0x00000000);
    NextRound(11, Regs(0x8351f929, 0x4b6ae328, 0x27a301f5, 0x664f8c30, 0x0ff1f290), 0x00000000);
    NextRound(12, Regs(0xfbda9e89, 0x8351f929, 0x12dab8ca, 0x27a301f5, 0x664f8c30), 0x00000000);
    NextRound(13, Regs(0x63188fe4, 0xfbda9e89, 0x60d47e4a, 0x12dab8ca, 0x27a301f5), 0x00000000);
    NextRound(14, Regs(0x4607b664, 0x63188fe4, 0x7ef6a7a2, 0x60d47e4a, 0x12dab8ca), 0x00000000);
    NextRound(15, Regs(0x9128f695, 0x4607b664, 0x18c623f9, 0x7ef6a7a2, 0x60d47e4a), 0x00000000);
    NextRound(16, Regs(0x196bee77, 0x9128f695, 0x1181ed99, 0x18c623f9, 0x7ef6a7a2), 0x00000018);
  }

  lemma {:induction false} Rounds24()
    ensures Rounds(BLOCK, INITIAL, 24) == Regs(0xd541f12d, 0x21283486, 0x0ce88eff, 0x868dec32, 0x7f67875f)
  {
    hide Rounds; hide WordIs;
    Rounds16();
    Words16();
    NextRound(17, Regs(0x20bdd62f, 0x196bee77, 0x644a3da5, 0x1181ed99, 0x18c623f9), 0xc2c4c700);
    NextRound(18, Regs(0x4e925823, 0x20bdd62f, 0xc65afb9d, 0x644a3da5, 0x1181ed99), 0x00000000);
    NextRound(19, Regs(0x82aa6728, 0x4e925823, 0xc82f758b, 0xc65afb9d, 0x644a3da5), 0x00000030);
    NextRound(20, Regs(0xdc64901d, 0x82aa6728, 0xd3a49608, 0xc82f758b, 0xc65afb9d), 0x85898e01);
    NextRound(21, Regs(0xfd9e1d7d, 0xdc64901d, 0x20aa99ca, 0xd3a49608, 0xc82f758b), 0x00000000);
    NextRound(22, Regs(0x1a37b0ca, 0xfd9e1d7d, 0x77192407, 0x20aa99ca, 0xd3a49608), 0x00000060);
    NextRound(23, Regs(0x33a23bfc, 0x1a37b0ca, 0x7f67875f, 0x77192407, 0x20aa99ca), 0x0b131c03);
    NextRound(24, Regs(0x21283486, 0x33a23bfc, 0x868dec32, 0x7f67875f, 0x77192407), 0x00000030);
  }

  lemma {:induction false} Rounds32()
    ensures Rounds(BLOCK, INITIAL, 32) == Regs(0x3b845d33, 0x1267b407, 0x717eebd7, 0xa0dc2d4b, 0xd2aa1365)
  {
    hide Rounds; hide WordIs;
    Rounds24();
    Words24();
    NextRound(25, Regs(0xd541f12d, 0x21283486, 0x0ce88eff, 0x868dec32, 0x7f67875f), 0x85898ec1);
    NextRound(26, Regs(0xc7567dc6, 0xd541f12d, 0x884a0d21, 0x0ce88eff, 0x868dec32), 0x16263806);
    NextRound(27, Regs(0x48413ba4, 0xc7567dc6, 0x75507c4b, 0x884a0d21, 0x0ce88eff), 0x00000000);
    NextRound(28, Regs(0xbe35fbd5, 0x48413ba4, 0xb1d59f71, 0x75507c4b, 0x884a0d21), 0x00000180);
    NextRound(29, Regs(0x4aa84d97, 0xbe35fbd5, 0x12104ee9, 0xb1d59f71, 0x75507c4b), 0x2c4c700c);
    NextRound(30, Regs(0x8370b52e, 0x4aa84d97, 0x6f8d7ef5, 0x12104ee9, 0xb1d59f71), 0x000000f0);
    NextRound(31, Regs(0xc5fbaf5d, 0x8370b52e, 0xd2aa1365, 0x6f8d7ef5, 0x12104ee9), 0x93afb507);
    NextRound(32, Regs(0x1267b407, 0xc5fbaf5d, 0xa0dc2d4b, 0xd2aa1365, 0x6f8d7ef5), 0x5898e048);
  }

  lemma {:induction false} Rounds40()
    ensures Rounds(BLOCK, INITIAL, 40) == Regs(0x32de1cba, 0x4c986405, 0xf718e5cf, 0x03d447f6, 0xf72eec32)
  {
    hide Rounds; hide WordIs;
    Rounds32();
    Words32();
    NextRound(33, Regs(0x3b845d33, 0x1267b407, 0x717eebd7, 0xa0dc2d4b, 0xd2aa1365), 0x8e9a9202);
    NextRound(34, Regs(0x046faa0a, 0x3b845d33, 0xc499ed01, 0x717eebd7, 0xa0dc2d4b), 0x00000600);
    NextRound(35, Regs(0x2c0ebc11, 0x046faa0a, 0xcee1174c, 0xc499ed01, 0x717eebd7), 0xb131c0f0);
    NextRound(36, Regs(0x21796ad4, 0x2c0ebc11, 0x811bea82, 0xcee1174c, 0xc499ed01), 0x16263bc6);
    NextRound(37, Regs(0xdcbbb0cb, 0x21796ad4, 0x4b03af04, 0x811bea82, 0xcee1174c), 0x4ebed41e);
    NextRound(38, Regs(0x0f511fd8, 0xdcbbb0cb, 0x085e5ab5, 0x4b03af04, 0x811bea82), 0x626380a1);
    NextRound(39, Regs(0xdc63973f, 0x0f511fd8, 0xf72eec32, 0x085e5ab5, 0x4b03af04), 0x16263806);
    NextRound(40, Regs(0x4c986405, 0xdc63973f, 0x03d447f6, 0xf72eec32, 0x085e5ab5), 0x000018c0);
  }

  lemma {:induction false} Rounds48()
    ensures Rounds(BLOCK, INITIAL, 48) == Regs(0xbead02ca, 0xa01b846c, 0x8714787c, 0x503ca382, 0xfb86c6ab)
  {
    hide Rounds; hide WordIs;
    Rounds40();
    Words40();
    NextRound(41, Regs(0x32de1cba, 0x4c986405, 0xf718e5cf, 0x03d447f6, 0xf72eec32), 0xd2e138c4);
    NextRound(42, Regs(0xfc87dedf, 0x32de1cba, 0x53261901, 0xf718e5cf, 0x03d447f6), 0x00000f00);
    NextRound(43, Regs(0x970a0d5c, 0xfc87dedf, 0x8cb7872e, 0x53261901, 0xf718e5cf), 0x3afb5079);
    NextRound(44, Regs(0x7f193dc5, 0x970a0d5c, 0xff21f7b7, 0x8cb7872e, 0x53261901), 0x898e04e5);
    NextRound(45, Regs(0xee1b1aaf, 0x7f193dc5, 0x25c28357, 0xff21f7b7, 0x8cb7872e), 0xe2ba3c2b);
    NextRound(46, Regs(0x40f28e09, 0xee1b1aaf, 0x5fc64f71, 0x25c28357, 0xff21f7b7), 0x000060c0);
    NextRound(47, Regs(0x1c51e1f2, 0x40f28e09, 0xfb86c6ab, 0x5fc64f71, 0x25c28357), 0x053a37cd);
    NextRound(48, Regs(0xa01b846c, 0x1c51e1f2, 0x503ca382, 0xfb86c6ab, 0x5fc64f71), 0x74458547);
  }

  lemma {:induction false} Rounds56()
    ensures Rounds(BLOCK, INITIAL, 56) == Regs(0x5e6456af, 0x7b71f76d, 0x09fa7c76, 0x792410db, 0x8e11eb59)
  {
    hide Rounds; hide WordIs;
    Rounds48();
    Words48();
    NextRound(49, Regs(0xbead02ca, 0xa01b846c, 0x8714787c, 0x503ca382, 0xfb86c6ab), 0xda9415ed);
    NextRound(50, Regs(0xbaf39337, 0xbead02ca, 0x2806e11b, 0x8714787c, 0x503ca382), 0x26380a16);
    NextRound(51, Regs(0x120731c5, 0xbaf39337, 0xafab40b2, 0x2806e11b, 0x8714787c), 0x626383a1);
    NextRound(52, Regs(0x641db2ce, 0x120731c5, 0xeebce4cd, 0xafab40b2, 0x2806e11b), 0x4ebf54de);
    NextRound(53, Regs(0x3847ad66, 0x641db2ce, 0x4481cc71, 0xeebce4cd, 0xafab40b2), 0x3835b44b);
    NextRound(54, Regs(0xe490436d, 0x3847ad66, 0x99076cb3, 0x4481cc71, 0xeebce4cd), 0x0000f600);
    NextRound(55, Regs(0x27e9f1d8, 0xe490436d, 0x8e11eb59, 0x99076cb3, 0x4481cc71), 0x1e84c7a3);
    NextRound(56, Regs(0x7b71f76d, 0x27e9f1d8, 0x792410db, 0x8e11eb59, 0x99076cb3), 0x98e04d98);
  }

  lemma {:induction false} Rounds64()
    ensures Rounds(BLOCK, INITIAL, 64) == Regs(0x6b61c9e1, 0xb66c020b, 0x9523272c, 0xf5d5b051, 0x8fd4b796)
  {
    hide Rounds; hide WordIs;
    Rounds56();
    Words56();
    NextRound(57, Regs(0x5e6456af, 0x7b71f76d, 0x09fa7c76, 0x792410db, 0x8e11eb59), 0x651d16a0);
    NextRound(58, Regs(0xc846093f, 0x5e6456af, 0x5edc7ddb, 0x09fa7c76, 0x792410db), 0x62658ca1);
    NextRound(59, Regs(0xd262ff50, 0xc846093f, 0xd79915ab, 0x5edc7ddb, 0x09fa7c76), 0x458544d6);
    NextRound(60, Regs(0x09d785fd, 0xd262ff50, 0xf211824f, 0xd79915ab, 0x5edc7ddb), 0x44584cb7);
    NextRound(61, Regs(0x3f52de5a, 0x09d785fd, 0x3498bfd4, 0xf211824f, 0xd79915ab), 0x7ba06619);
    NextRound(62, Regs(0xd756c147, 0x3f52de5a, 0x4275e17f, 0x3498bfd4, 0xf211824f), 0x6380aea2);
    NextRound(63, Regs(0x548c9cb2, 0xd756c147, 0x8fd4b796, 0x4275e17f, 0x3498bfd4), 0x0ae55269);
    NextRound(64, Regs(0xb66c020b, 0x548c9cb2, 0xf5d5b051, 0x8fd4b796, 0x4275e17f), 0x627b49a1);
  }

  lemma {:induction false} Rounds72()
    ensures Rounds(BLOCK, INITIAL, 72) == Regs(0x39859de7, 0xc199f8c7, 0x8fc96230, 0x125c24f0, 0xde37534a)
  {
    hide Rounds; hide WordIs;
    Rounds64();
    Words64();
    NextRound(65, Regs(0x6b61c9e1, 0xb66c020b, 0x9523272c, 0xf5d5b051, 0x8fd4b796), 0x7cd45c9d);
    NextRound(66, Regs(0x19dfa7ac, 0x6b61c9e1, 0xed9b0082, 0x9523272c, 0xf5d5b051), 0x000f0000);
    NextRound(67, Regs(0x101655f9, 0x19dfa7ac, 0x5ad87278, 0xed9b0082, 0x9523272c), 0xfb50753a);
    NextRound(68, Regs(0x0c3df2b4, 0x101655f9, 0x0677e9eb, 0x5ad87278, 0xed9b0082), 0xec6765e8);
    NextRound(69, Regs(0x78dd4d2b, 0x0c3df2b4, 0x4405957e, 0x0677e9eb, 0x5ad87278), 0xba3c2be2);
    NextRound(70, Regs(0x497093c0, 0x78dd4d2b, 0x030f7cad, 0x4405957e, 0x0677e9eb), 0x0060c000);
    NextRound(71, Regs(0x3f2588c2, 0x497093c0, 0xde37534a, 0x030f7cad, 0x4405957e), 0x3a37cd05);
    NextRound(72, Regs(0xc199f8c7, 0x3f2588c2, 0x125c24f0, 0xde37534a, 0x030f7cad), 0x458546f4);
  }

  lemma {:induction false} Rounds80()
    ensures Rounds(BLOCK, INITIAL, 80) == Regs(0x42541b35, 0x5738d5e1, 0x21834873, 0x681e6df6, 0xd8fdf6ad)
  {
    hide Rounds; hide WordIs;
    Rounds72();
    Words72();
    NextRound(73, Regs(0x39859de7, 0xc199f8c7, 0x8fc96230, 0x125c24f0, 0xde37534a), 0xb8599dd6);
    NextRound(74, Regs(0xedb42de4, 0x39859de7, 0xf0667e31, 0x8fc96230, 0x125c24f0), 0x380a1a26);
    NextRound(75, Regs(0x11793f6f, 0xedb42de4, 0xce616779, 0xf0667e31, 0x8fc96230), 0x01e02203);
    NextRound(76, Regs(0x5ee76897, 0x11793f6f, 0x3b6d0b79, 0xce616779, 0xf0667e31), 0xe7cc3456);
    NextRound(77, Regs(0x63f7dab7, 0x5ee76897, 0xc45e4fdb, 0x3b6d0b79, 0xce616779), 0xe6e60b69);
    NextRound(78, Regs(0xa079b7d9, 0x63f7dab7, 0xd7b9da25, 0xc45e4fdb, 0x3b6d0b79), 0x00f60a00);
    NextRound(79, Regs(0x860d21cc, 0xa079b7d9, 0xd8fdf6ad, 0xd7b9da25, 0xc45e4fdb), 0x5795ef4f);
    NextRound(80, Regs(0x5738d5e1, 0x860d21cc, 0x681e6df6, 0xd8fdf6ad, 0xd7b9da25), 0x822e0879);
  }

  lemma {:induction false} NoRounds()
    ensures Rounds(BLOCK, INITIAL, 0) == INITIAL
  {
  }

  lemma {:induction false} Compressed()
    ensures Compress(INITIAL, BLOCK) ==
            Regs(0xa9993e36, 0x4706816a, 0xba3e2571, 0x7850c26c, 0x9cd0d89d)
  {
    hide Rounds;
    Rounds80();
  }

  /** The digest of the example. */
  lemma {:induction false} Example()
    ensures Digest(ABC) == [0xa9, 0x99, 0x3e, 0x36, 0x47, 0x06, 0x81, 0x6a, 0xba, 0x3e,
                            0x25, 0x71, 0x78, 0x50, 0xc2, 0x6c, 0x9c, 0xd0, 0xd8, 0x9d]
  {
    hide Compress; hide BlockWords; hide Lane; hide Pad;
    Compressed();
    BlockIs();
    Lanes();
    var p := Pad(ABC, 24);
    assert 8 * |ABC| % COUNT_RANGE == 24 && |p| == 64 by {
      Padding();
    }
    assert p[..|p| - 64] == [] && p[|p| - 64..] == p;
    assert Blocks(p) == Compress(INITIAL, BLOCK);
  }

  lemma {:induction false} Lanes()
    ensures DigestOf(Regs(0xa9993e36, 0x4706816a, 0xba3e2571, 0x7850c26c, 0x9cd0d89d)) ==
            [0xa9, 0x99, 0x3e, 0x36, 0x47, 0x06, 0x81, 0x6a, 0xba, 0x3e,
             0x25, 0x71, 0x78, 0x50, 0xc2, 0x6c, 0x9c, 0xd0, 0xd8, 0x9d]
  {
  }
}
