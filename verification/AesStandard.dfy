/** The S-box of FIPS 197 and the cipher example of its appendix B. */
module AesStandard {
  import opened Words
  import opened AesSpec
  import opened Aes

  // ---------------------------------------------------------------- the S-box, figures 7 and 14

  /** The byte of a row at the low digit of `l`. */
  function Pick(row: bv128, l: Byte): Byte {
    ((row << ((l & 0x0F) << 3)) >> 120) as Byte
  }

  /** Figure 7: one row for each high digit, in it one byte for each low digit. */
  function Sub(b: Byte): Byte {
    Pick(
      if b & 0xF0 == 0x00 then 0x637c_777b_f26b_6fc5_3001_672b_fed7_ab76
      else if b & 0xF0 == 0x10 then 0xca82_c97d_fa59_47f0_add4_a2af_9ca4_72c0
      else if b & 0xF0 == 0x20 then 0xb7fd_9326_363f_f7cc_34a5_e5f1_71d8_3115
      else if b & 0xF0 == 0x30 then 0x04c7_23c3_1896_059a_0712_80e2_eb27_b275
      else if b & 0xF0 == 0x40 then 0x0983_2c1a_1b6e_5aa0_523b_d6b3_29e3_2f84
      else if b & 0xF0 == 0x50 then 0x53d1_00ed_20fc_b15b_6acb_be39_4a4c_58cf
      else if b & 0xF0 == 0x60 then 0xd0ef_aafb_434d_3385_45f9_027f_503c_9fa8
      else if b & 0xF0 == 0x70 then 0x51a3_408f_929d_38f5_bcb6_da21_10ff_f3d2
      else if b & 0xF0 == 0x80 then 0xcd0c_13ec_5f97_4417_c4a7_7e3d_645d_1973
      else if b & 0xF0 == 0x90 then 0x6081_4fdc_222a_9088_46ee_b814_de5e_0bdb
      else if b & 0xF0 == 0xa0 then 0xe032_3a0a_4906_245c_c2d3_ac62_9195_e479
      else if b & 0xF0 == 0xb0 then 0xe7c8_376d_8dd5_4ea9_6c56_f4ea_657a_ae08
      else if b & 0xF0 == 0xc0 then 0xba78_252e_1ca6_b4c6_e8dd_741f_4bbd_8b8a
      else if b & 0xF0 == 0xd0 then 0x703e_b566_4803_f60e_6135_57b9_86c1_1d9e
      else if b & 0xF0 == 0xe0 then 0xe1f8_9811_69d9_8e94_9b1e_87e9_ce55_28df
      else 0x8ca1_890d_bfe6_4268_4199_2d0f_b054_bb16,
      b)
  }

  /** Figure 14. */
  function InvSub(b: Byte): Byte {
    Pick(
      if b & 0xF0 == 0x00 then 0x5209_6ad5_3036_a538_bf40_a39e_81f3_d7fb
      else if b & 0xF0 == 0x10 then 0x7ce3_3982_9b2f_ff87_348e_4344_c4de_e9cb
      else if b & 0xF0 == 0x20 then 0x547b_9432_a6c2_233d_ee4c_950b_42fa_c34e
      else if b & 0xF0 == 0x30 then 0x082e_a166_28d9_24b2_765b_a249_6d8b_d125
      else if b & 0xF0 == 0x40 then 0x72f8_f664_8668_9816_d4a4_5ccc_5d65_b692
      else if b & 0xF0 == 0x50 then 0x6c70_4850_fded_b9da_5e15_4657_a78d_9d84
      else if b & 0xF0 == 0x60 then 0x90d8_ab00_8cbc_d30a_f7e4_5805_b8b3_4506
      else if b & 0xF0 == 0x70 then 0xd02c_1e8f_ca3f_0f02_c1af_bd03_0113_8a6b
      else if b & 0xF0 == 0x80 then 0x3a91_1141_4f67_dcea_97f2_cfce_f0b4_e673
      else if b & 0xF0 == 0x90 then 0x96ac_7422_e7ad_3585_e2f9_37e8_1c75_df6e
      else if b & 0xF0 == 0xa0 then 0x47f1_1a71_1d29_c589_6fb7_620e_aa18_be1b
      else if b & 0xF0 == 0xb0 then 0xfc56_3e4b_c6d2_7920_9adb_c0fe_78cd_5af4
      else if b & 0xF0 == 0xc0 then 0x1fdd_a833_8807_c731_b112_1059_2780_ec5f
      else if b & 0xF0 == 0xd0 then 0x6051_7fa9_19b5_4a0d_2de5_7a9f_93c9_9cef
      else if b & 0xF0 == 0xe0 then 0xa0e0_3b4d_ae2a_f5b0_c8eb_bb3c_8353_9961
      else 0x172b_047e_ba77_d626_e169_1463_5521_0c7d,
      b)
  }

  const STANDARD: Box := Box(b => Sub(b), b => InvSub(b))

  lemma {:induction false} SubInverts(b: Byte)
    ensures InvSub(Sub(b)) == b
  {
  }

  /** So decryption undoes encryption under it, with every key. */
  lemma {:induction false} StandardInverts()
    ensures Inverts(STANDARD)
  {
    hide Sub; hide InvSub;
    forall x: Byte
      ensures STANDARD.inv(STANDARD.fwd(x)) == x
    {
      SubInverts(x);
    }
  }

  // ---------------------------------------------------------------- the example of appendices A.1 and B

  const KEY: seq<Byte> :=
    [0x2b, 0x7e, 0x15, 0x16, 0x28, 0xae, 0xd2, 0xa6, 0xab, 0xf7, 0x15, 0x88, 0x09, 0xcf, 0x4f, 0x3c]

  const PLAIN: seq<Byte> :=
    [0x32, 0x43, 0xf6, 0xa8, 0x88, 0x5a, 0x30, 0x8d, 0x31, 0x31, 0x98, 0xa2, 0xe0, 0x37, 0x07, 0x34]

  const CIPHERTEXT: seq<Byte> :=
    [0x39, 0x25, 0x84, 0x1d, 0x02, 0xdc, 0x09, 0xfb, 0xdc, 0x11, 0x85, 0x97, 0x19, 0x6a, 0x0b, 0x32]

  /** Four columns as words, the top row most significant. */
  datatype Four = Four(c0: Word, c1: Word, c2: Word, c3: Word)

  function Column(w: Word): Col {
    Col((w >> 24) as Byte, ((w >> 16) & 0xFF) as Byte, ((w >> 8) & 0xFF) as Byte, (w & 0xFF) as Byte)
  }

  function Bits(v: Four): Block {
    Block(Column(v.c0), Column(v.c1), Column(v.c2), Column(v.c3))
  }

  function Both(s: Four, k: Four): Four {
    Four(XorW(s.c0, k.c0), XorW(s.c1, k.c1), XorW(s.c2, k.c2), XorW(s.c3, k.c3))
  }

  lemma {:induction false} ColumnAdds(a: Word, b: Word)
    ensures XorCol(Column(a), Column(b)) == Column(XorW(a, b))
  {
  }

  /** The words of an expansion, one from those before it. */
  lemma {:induction false} ExpansionAt(box: Box, key: seq<Col>, n: nat, m: nat)
    requires key != [] && m < n
    ensures var w := Expansion(box, key, n);
            w[m] == if m < |key| then key[m]
                    else XorCol(w[m - |key|], Schedule(box, w[m - 1], m / |key|, m % |key|, |key|))
  {
    hide XorCol; hide Schedule;
    if n > |key| {
      var w := Expansion(box, key, n - 1);
      if m < n - 1 {
        ExpansionAt(box, key, n - 1, m);
      }
      assert forall i :: 0 <= i < n - 1 ==> Expansion(box, key, n)[i] == w[i];
    }
  }

  // ---------------------------------------------------------------- the key schedules of all three sizes, section 5.2

  /** Word `m` of a schedule. */
  function ScheduleWord(k: seq<Block>, m: nat): Col
    requires m < 4 * |k|
  {
    var b := k[m / 4];
    if m % 4 == 0 then b.c0 else if m % 4 == 1 then b.c1 else if m % 4 == 2 then b.c2 else b.c3
  }

  /** The schedule starts with the bytes of the key; each further word is that `nk` places back plus the word before it,
      which is substituted, and rotated and marked by a power of x, in the first word of every `nk`, and substituted in
      the fifth of every eight. */
  lemma {:induction false} ScheduleIs(box: Box, cipherKey: seq<Byte>, keyBits: int, m: nat)
    requires keyBits in {128, 192, 256} && |cipherKey| >= keyBits / 8 && m < 4 * (keyBits / 32 + 7)
    ensures |ExpandedKeys(box, cipherKey, keyBits)| == keyBits / 32 + 7
    ensures var k, nk := ExpandedKeys(box, cipherKey, keyBits), keyBits / 32;
            if m < nk then
              ScheduleWord(k, m) == Col(cipherKey[4 * m], cipherKey[4 * m + 1], cipherKey[4 * m + 2],
                                        cipherKey[4 * m + 3])
            else
              var p := ScheduleWord(k, m - 1);
              ScheduleWord(k, m) == XorCol(ScheduleWord(k, m - nk),
                if m % nk == 0 then Col(XorB(box.fwd(p.b1), Power(m / nk - 1)), box.fwd(p.b2), box.fwd(p.b3),
                                        box.fwd(p.b0))
                else if nk == 8 && m % 8 == 4 then Col(box.fwd(p.b0), box.fwd(p.b1), box.fwd(p.b2), box.fwd(p.b3))
                else p)
  {
    hide XorB; hide XorCol; hide Expansion; hide ColOf; hide GetWord; hide Power; hide Schedule;
    hide ExpandedKeys; hide ScheduleWord;
    var nk := KeyWords(keyBits);
    var key := KeyCols(cipherKey, nk);
    var n := 4 * (keyBits / 32 + 7);
    ExpansionAt(box, key, n, m);
    WordScheduled(box, cipherKey, keyBits, m);
    if m < nk {
      KeyColIs(cipherKey, m);
    } else {
      WordScheduled(box, cipherKey, keyBits, m - 1);
      WordScheduled(box, cipherKey, keyBits, m - nk);
      AddedIs(box, Expansion(box, key, n)[m - 1], m / nk, m % nk, nk);
    }
  }

  lemma {:induction false} AddedIs(box: Box, p: Col, q: nat, d: nat, nk: nat)
    requires q > 0
    ensures Schedule(box, p, q, d, nk) ==
              if d == 0 then Col(XorB(box.fwd(p.b1), Power(q - 1)), box.fwd(p.b2), box.fwd(p.b3), box.fwd(p.b0))
              else if nk > 6 && d == 4 then Col(box.fwd(p.b0), box.fwd(p.b1), box.fwd(p.b2), box.fwd(p.b3))
              else p
  {
    hide XorB; hide Power;
    ZeroAdds(box.fwd(p.b2));
    ZeroAdds(box.fwd(p.b3));
    ZeroAdds(box.fwd(p.b0));
  }

  lemma {:induction false} WordScheduled(box: Box, cipherKey: seq<Byte>, keyBits: int, m: nat)
    requires keyBits in {128, 192, 256} && |cipherKey| >= keyBits / 8 && m < 4 * (keyBits / 32 + 7)
    ensures KeyWords(keyBits) == keyBits / 32 && RoundsFor(keyBits) == keyBits / 32 + 6
    ensures ScheduleWord(ExpandedKeys(box, cipherKey, keyBits), m)
            == Expansion(box, KeyCols(cipherKey, keyBits / 32), 4 * (keyBits / 32 + 7))[m]
  {
    hide Expansion;
    assert m == 4 * (m / 4) + m % 4;
  }

  lemma {:induction false} KeyColIs(b: seq<Byte>, m: nat)
    requires 4 * m + 4 <= |b|
    ensures ColOf(GetWord(b, 4 * m)) == Col(b[4 * m], b[4 * m + 1], b[4 * m + 2], b[4 * m + 3])
  {
    LanesOfJoin(b[4 * m + 3], b[4 * m + 2], b[4 * m + 1], b[4 * m]);
  }

  // ---------------------------------------------------------------- the example, step by step

  function ExampleWords(): (w: seq<Col>)
    ensures |w| == 44
  {
    Expansion(STANDARD, KeyCols(KEY, 4), 44)
  }

  lemma {:induction false} ExampleWordIs(m: nat)
    requires 4 <= m < 44
    ensures var w := ExampleWords();
            w[m] == XorCol(w[m - 4], if m % 4 == 0 then XorCol(SubCol(STANDARD.fwd, RotCol(w[m - 1])), Rcon(m / 4))
                                     else w[m - 1])
  {
    hide XorCol; hide SubCol; hide RotCol; hide Rcon; hide Expansion;
    ExpansionAt(STANDARD, KeyCols(KEY, 4), 44, m);
  }

  ghost predicate RoundKeyIs(q: nat, k: Four)
    requires q <= 10
  {
    KeysOf(ExampleWords(), 11)[q] == Bits(k)
  }

  /** What is added to the first word of a round key to make the next one. */
  predicate Rotated(last: Word, rcon: Byte, c: Word) {
    var l := Column(last);
    Col(Sub(l.b1) ^ rcon, Sub(l.b2), Sub(l.b3), Sub(l.b0)) == Column(c)
  }

  lemma {:induction false} RotateColumn(last: Word, rcon: Byte, c: Word, a0: Byte, a1: Byte, a2: Byte, a3: Byte)
    requires Column(last) == Col(a0, a1, a2, a3) && Column(c) == Col(Sub(a1) ^ rcon, Sub(a2), Sub(a3), Sub(a0))
    ensures Rotated(last, rcon, c)
  {
    hide Sub; hide Column;
  }

  lemma {:induction false} RotatedIs(last: Word, rcon: Byte, c: Word, q: nat)
    requires q > 0 && Rotated(last, rcon, c) && Rcon(q) == Col(rcon, 0, 0, 0)
    ensures XorCol(SubCol(STANDARD.fwd, RotCol(Column(last))), Rcon(q)) == Column(c)
  {
    hide Sub; hide Rcon;
    var l := Column(last);
    hide Column;
    ZeroAdds(Sub(l.b2));
    ZeroAdds(Sub(l.b3));
    ZeroAdds(Sub(l.b0));
  }

  lemma {:induction false} ZeroAdds(b: Byte)
    ensures XorB(b, 0) == b
  {
  }

  /** The next round key from the last one. */
  lemma {:induction false} NextRoundKey(q: nat, last: Four, rcon: Byte, c: Word, next: Four)
    requires 0 < q <= 10 && RoundKeyIs(q - 1, last) && Rotated(last.c3, rcon, c) && Rcon(q) == Col(rcon, 0, 0, 0)
    requires next.c0 == XorW(last.c0, c) && next.c1 == XorW(last.c1, next.c0)
    requires next.c2 == XorW(last.c2, next.c1) && next.c3 == XorW(last.c3, next.c2)
    ensures RoundKeyIs(q, next)
  {
    hide XorCol; hide SubCol; hide RotCol; hide Rcon; hide ExampleWords; hide Column; hide Rotated; hide XorW;
    RotatedIs(last.c3, rcon, c, q);
    ColumnAdds(last.c0, c);
    ColumnAdds(last.c1, next.c0);
    ColumnAdds(last.c2, next.c1);
    ColumnAdds(last.c3, next.c2);
    ExampleWordIs(4 * q);
    ExampleWordIs(4 * q + 1);
    ExampleWordIs(4 * q + 2);
    ExampleWordIs(4 * q + 3);
  }

  lemma {:induction false} Key0()
    ensures RoundKeyIs(0, Four(0x2b7e1516, 0x28aed2a6, 0xabf71588, 0x09cf4f3c))
  {
    hide Expansion; hide Sub;
    var k := KeyCols(KEY, 4);
    ExpansionAt(STANDARD, k, 44, 0);
    ExpansionAt(STANDARD, k, 44, 1);
    ExpansionAt(STANDARD, k, 44, 2);
    ExpansionAt(STANDARD, k, 44, 3);
  }

  ghost predicate StateIs(keys: seq<Block>, i: nat, s: Four)
    requires i < 11 == |keys|
  {
    Rounds(STANDARD, keys, BlockIn(PLAIN), i) == Bits(s)
  }

  predicate SubstitutesCol(a: Word, b: Word) {
    var c := Column(a);
    Col(Sub(c.b0), Sub(c.b1), Sub(c.b2), Sub(c.b3)) == Column(b)
  }

  /** A column, byte by byte. */
  lemma {:induction false} SubColumn(a: Word, b: Word, a0: Byte, a1: Byte, a2: Byte, a3: Byte)
    requires Column(a) == Col(a0, a1, a2, a3) && Column(b) == Col(Sub(a0), Sub(a1), Sub(a2), Sub(a3))
    ensures SubstitutesCol(a, b)
  {
    hide Sub; hide Column;
  }

  predicate Substitutes(s: Four, t: Four) {
    && SubstitutesCol(s.c0, t.c0) && SubstitutesCol(s.c1, t.c1)
    && SubstitutesCol(s.c2, t.c2) && SubstitutesCol(s.c3, t.c3)
  }

  predicate Mixes(s: Four, t: Four) {
    MixColumns(ShiftRows(Bits(s))) == Bits(t)
  }

  lemma {:induction false} SubstitutesIs(s: Four, t: Four)
    requires Substitutes(s, t)
    ensures SubBytes(STANDARD.fwd, Bits(s)) == Bits(t)
  {
    hide Sub; hide Column;
  }

  lemma {:induction false} KeyAdds(s: Four, k: Four)
    ensures AddRoundKey(Bits(s), Bits(k)) == Bits(Both(s, k))
  {
    hide Column; hide XorCol; hide XorW;
    ColumnAdds(s.c0, k.c0);
    ColumnAdds(s.c1, k.c1);
    ColumnAdds(s.c2, k.c2);
    ColumnAdds(s.c3, k.c3);
  }

  /** One round of the example. */
  lemma {:induction false} NextState(keys: seq<Block>, i: nat, before: Four, substituted: Four, mixed: Four, key: Four)
    requires keys == KeysOf(ExampleWords(), 11)
    requires 0 < i < 10 && StateIs(keys, i - 1, before) && RoundKeyIs(i, key)
    requires Substitutes(before, substituted) && Mixes(substituted, mixed)
    ensures StateIs(keys, i, Both(mixed, key))
  {
    hide ExampleWords; hide KeysOf; hide SubBytes; hide MixColumns; hide ShiftRows; hide AddRoundKey; hide Bits;
    hide BlockIn; hide Substitutes;
    SubstitutesIs(before, substituted);
    KeyAdds(mixed, key);
  }

  ghost predicate CipherIs(v: Four) {
    Cipher(STANDARD, KeysOf(ExampleWords(), 11), BlockIn(PLAIN)) == Bits(v)
  }

  lemma {:induction false} LastState(keys: seq<Block>, before: Four, substituted: Four, key: Four, last: Four)
    requires keys == KeysOf(ExampleWords(), 11)
    requires StateIs(keys, 9, before) && RoundKeyIs(10, key) && Substitutes(before, substituted)
    requires AddRoundKey(ShiftRows(Bits(substituted)), Bits(key)) == Bits(last)
    ensures CipherIs(last)
  {
    hide ExampleWords; hide KeysOf; hide SubBytes; hide ShiftRows; hide AddRoundKey; hide Bits;
    hide BlockIn; hide Substitutes; hide Rounds;
    SubstitutesIs(before, substituted);
  }

  lemma {:induction false} State0(keys: seq<Block>)
    requires keys == KeysOf(ExampleWords(), 11)
    ensures StateIs(keys, 0, Four(0x193de3be, 0xa0f4e22b, 0x9ac68d2a, 0xe9f84808))
  {
    hide ExampleWords; hide KeysOf; hide AddRoundKey; hide RoundKeyIs;
    Key0();
    PlainIs();
    FirstState(keys, Four(0x2b7e1516, 0x28aed2a6, 0xabf71588, 0x09cf4f3c),
      Four(0x3243f6a8, 0x885a308d, 0x313198a2, 0xe0370734));
  }

  lemma {:induction false} FirstState(keys: seq<Block>, key: Four, text: Four)
    requires keys == KeysOf(ExampleWords(), 11)
    requires RoundKeyIs(0, key) && BlockIn(PLAIN) == Bits(text)
    ensures StateIs(keys, 0, Both(text, key))
  {
    hide ExampleWords; hide KeysOf; hide AddRoundKey; hide Bits; hide BlockIn;
    KeyAdds(text, key);
  }

  lemma {:induction false} PlainIs()
    ensures BlockIn(PLAIN) == Bits(Four(0x3243f6a8, 0x885a308d, 0x313198a2, 0xe0370734))
    ensures BlockIn(CIPHERTEXT) == Bits(Four(0x3925841d, 0x02dc09fb, 0xdc118597, 0x196a0b32))
  {
  }

  lemma {:induction false} ExampleSchedule()
    ensures ExpandedKeys(STANDARD, KEY, 128) == KeysOf(ExampleWords(), 11)
  {
    hide Expansion; hide KeysOf;
  }

  lemma {:induction false} Key1()
    ensures RoundKeyIs(1, Four(0xa0fafe17, 0x88542cb1, 0x23a33939, 0x2a6c7605))
  {
    hide RoundKeyIs;
    Key0();
    RotateColumn(0x09cf4f3c, 0x01, 0x8b84eb01, 0x09, 0xcf, 0x4f, 0x3c);
    hide Sub; hide Column;
    assert Rcon(1) == Col(0x01, 0, 0, 0);
    NextRoundKey(1, Four(0x2b7e1516, 0x28aed2a6, 0xabf71588, 0x09cf4f3c), 0x01, 0x8b84eb01,
      Four(0xa0fafe17, 0x88542cb1, 0x23a33939, 0x2a6c7605));
  }

  lemma {:induction false} Key2()
    ensures RoundKeyIs(2, Four(0xf2c295f2, 0x7a96b943, 0x5935807a, 0x7359f67f))
  {
    hide RoundKeyIs;
    Key1();
    RotateColumn(0x2a6c7605, 0x02, 0x52386be5, 0x2a, 0x6c, 0x76, 0x05);
    hide Sub; hide Column;
    assert Rcon(2) == Col(0x02, 0, 0, 0);
    NextRoundKey(2, Four(0xa0fafe17, 0x88542cb1, 0x23a33939, 0x2a6c7605), 0x02, 0x52386be5,
      Four(0xf2c295f2, 0x7a96b943, 0x5935807a, 0x7359f67f));
  }

  lemma {:induction false} Key3()
    ensures RoundKeyIs(3, Four(0x3d80477d, 0x4716fe3e, 0x1e237e44, 0x6d7a883b))
  {
    hide RoundKeyIs;
    Key2();
    RotateColumn(0x7359f67f, 0x04, 0xcf42d28f, 0x73, 0x59, 0xf6, 0x7f);
    hide Sub; hide Column;
    assert Rcon(3) == Col(0x04, 0, 0, 0);
    NextRoundKey(3, Four(0xf2c295f2, 0x7a96b943, 0x5935807a, 0x7359f67f), 0x04, 0xcf42d28f,
      Four(0x3d80477d, 0x4716fe3e, 0x1e237e44, 0x6d7a883b));
  }

  lemma {:induction false} Key4()
    ensures RoundKeyIs(4, Four(0xef44a541, 0xa8525b7f, 0xb671253b, 0xdb0bad00))
  {
    hide RoundKeyIs;
    Key3();
    RotateColumn(0x6d7a883b, 0x08, 0xd2c4e23c, 0x6d, 0x7a, 0x88, 0x3b);
    hide Sub; hide Column;
    assert Rcon(4) == Col(0x08, 0, 0, 0);
    NextRoundKey(4, Four(0x3d80477d, 0x4716fe3e, 0x1e237e44, 0x6d7a883b), 0x08, 0xd2c4e23c,
      Four(0xef44a541, 0xa8525b7f, 0xb671253b, 0xdb0bad00));
  }

  lemma {:induction false} Key5()
    ensures RoundKeyIs(5, Four(0xd4d1c6f8, 0x7c839d87, 0xcaf2b8bc, 0x11f915bc))
  {
    hide RoundKeyIs;
    Key4();
    RotateColumn(0xdb0bad00, 0x10, 0x3b9563b9, 0xdb, 0x0b, 0xad, 0x00);
    hide Sub; hide Column;
    assert Rcon(5) == Col(0x10, 0, 0, 0);
    NextRoundKey(5, Four(0xef44a541, 0xa8525b7f, 0xb671253b, 0xdb0bad00), 0x10, 0x3b9563b9,
      Four(0xd4d1c6f8, 0x7c839d87, 0xcaf2b8bc, 0x11f915bc));
  }

  lemma {:induction false} Key6()
    ensures RoundKeyIs(6, Four(0x6d88a37a, 0x110b3efd, 0xdbf98641, 0xca0093fd))
  {
    hide RoundKeyIs;
    Key5();
    RotateColumn(0x11f915bc, 0x20, 0xb9596582, 0x11, 0xf9, 0x15, 0xbc);
    hide Sub; hide Column;
    assert Rcon(6) == Col(0x20, 0, 0, 0);
    NextRoundKey(6, Four(0xd4d1c6f8, 0x7c839d87, 0xcaf2b8bc, 0x11f915bc), 0x20, 0xb9596582,
      Four(0x6d88a37a, 0x110b3efd, 0xdbf98641, 0xca0093fd));
  }

  lemma {:induction false} Key7()
    ensures RoundKeyIs(7, Four(0x4e54f70e, 0x5f5fc9f3, 0x84a64fb2, 0x4ea6dc4f))
  {
    hide RoundKeyIs;
    Key6();
    RotateColumn(0xca0093fd, 0x40, 0x23dc5474, 0xca, 0x00, 0x93, 0xfd);
    hide Sub; hide Column;
    assert Rcon(7) == Col(0x40, 0, 0, 0);
    NextRoundKey(7, Four(0x6d88a37a, 0x110b3efd, 0xdbf98641, 0xca0093fd), 0x40, 0x23dc5474,
      Four(0x4e54f70e, 0x5f5fc9f3, 0x84a64fb2, 0x4ea6dc4f));
  }

  lemma {:induction false} Key8()
    ensures RoundKeyIs(8, Four(0xead27321, 0xb58dbad2, 0x312bf560, 0x7f8d292f))
  {
    hide RoundKeyIs;
    Key7();
    RotateColumn(0x4ea6dc4f, 0x80, 0xa486842f, 0x4e, 0xa6, 0xdc, 0x4f);
    hide Sub; hide Column;
    assert Rcon(8) == Col(0x80, 0, 0, 0);
    NextRoundKey(8, Four(0x4e54f70e, 0x5f5fc9f3, 0x84a64fb2, 0x4ea6dc4f), 0x80, 0xa486842f,
      Four(0xead27321, 0xb58dbad2, 0x312bf560, 0x7f8d292f));
  }

  lemma {:induction false} Key9()
    ensures RoundKeyIs(9, Four(0xac7766f3, 0x19fadc21, 0x28d12941, 0x575c006e))
  {
    hide RoundKeyIs;
    Key8();
    RotateColumn(0x7f8d292f, 0x1b, 0x46a515d2, 0x7f, 0x8d, 0x29, 0x2f);
    hide Sub; hide Column;
    assert Rcon(9) == Col(0x1b, 0, 0, 0);
    NextRoundKey(9, Four(0xead27321, 0xb58dbad2, 0x312bf560, 0x7f8d292f), 0x1b, 0x46a515d2,
      Four(0xac7766f3, 0x19fadc21, 0x28d12941, 0x575c006e));
  }

  lemma {:induction false} Key10()
    ensures RoundKeyIs(10, Four(0xd014f9a8, 0xc9ee2589, 0xe13f0cc8, 0xb6630ca6))
  {
    hide RoundKeyIs;
    Key9();
    RotateColumn(0x575c006e, 0x36, 0x7c639f5b, 0x57, 0x5c, 0x00, 0x6e);
    hide Sub; hide Column;
    assert Rcon(10) == Col(0x36, 0, 0, 0);
    NextRoundKey(10, Four(0xac7766f3, 0x19fadc21, 0x28d12941, 0x575c006e), 0x36, 0x7c639f5b,
      Four(0xd014f9a8, 0xc9ee2589, 0xe13f0cc8, 0xb6630ca6));
  }

  lemma {:induction false} State1(keys: seq<Block>)
    requires keys == KeysOf(ExampleWords(), 11)
    ensures StateIs(keys, 1, Four(0xa49c7ff2, 0x689f352b, 0x6b5bea43, 0x026a5049))
  {
    hide StateIs; hide RoundKeyIs;
    State0(keys);
    Key1();
    Sub1();
    assert Mixes(Four(0xd42711ae, 0xe0bf98f1, 0xb8b45de5, 0x1e415230),
                 Four(0x046681e5, 0xe0cb199a, 0x48f8d37a, 0x2806264c));
    hide Substitutes; hide Mixes; hide SubstitutesCol;
    NextState(keys, 1, Four(0x193de3be, 0xa0f4e22b, 0x9ac68d2a, 0xe9f84808),
      Four(0xd42711ae, 0xe0bf98f1, 0xb8b45de5, 0x1e415230),
      Four(0x046681e5, 0xe0cb199a, 0x48f8d37a, 0x2806264c),
      Four(0xa0fafe17, 0x88542cb1, 0x23a33939, 0x2a6c7605));
  }

  lemma {:induction false} Sub1()
    ensures Substitutes(Four(0x193de3be, 0xa0f4e22b, 0x9ac68d2a, 0xe9f84808),
              Four(0xd42711ae, 0xe0bf98f1, 0xb8b45de5, 0x1e415230))
  {
    hide SubstitutesCol;
    SubLow1();
    SubColumn(0x193de3be, 0xd42711ae, 0x19, 0x3d, 0xe3, 0xbe);
    SubColumn(0xa0f4e22b, 0xe0bf98f1, 0xa0, 0xf4, 0xe2, 0x2b);
  }

  lemma {:induction false} SubLow1()
    ensures SubstitutesCol(0x9ac68d2a, 0xb8b45de5) && SubstitutesCol(0xe9f84808, 0x1e415230)
  {
    hide SubstitutesCol;
    SubColumn(0x9ac68d2a, 0xb8b45de5, 0x9a, 0xc6, 0x8d, 0x2a);
    SubColumn(0xe9f84808, 0x1e415230, 0xe9, 0xf8, 0x48, 0x08);
  }

  lemma {:induction false} State2(keys: seq<Block>)
    requires keys == KeysOf(ExampleWords(), 11)
    ensures StateIs(keys, 2, Four(0xaa8f5f03, 0x61dde3ef, 0x82d24ad2, 0x6832469a))
  {
    hide StateIs; hide RoundKeyIs;
    State1(keys);
    Key2();
    Sub2();
    assert Mixes(Four(0x49ded289, 0x45db96f1, 0x7f39871a, 0x7702533b),
                 Four(0x584dcaf1, 0x1b4b5aac, 0xdbe7caa8, 0x1b6bb0e5));
    hide Substitutes; hide Mixes; hide SubstitutesCol;
    NextState(keys, 2, Four(0xa49c7ff2, 0x689f352b, 0x6b5bea43, 0x026a5049),
      Four(0x49ded289, 0x45db96f1, 0x7f39871a, 0x7702533b),
      Four(0x584dcaf1, 0x1b4b5aac, 0xdbe7caa8, 0x1b6bb0e5),
      Four(0xf2c295f2, 0x7a96b943, 0x5935807a, 0x7359f67f));
  }

  lemma {:induction false} Sub2()
    ensures Substitutes(Four(0xa49c7ff2, 0x689f352b, 0x6b5bea43, 0x026a5049),
              Four(0x49ded289, 0x45db96f1, 0x7f39871a, 0x7702533b))
  {
    hide SubstitutesCol;
    SubLow2();
    SubColumn(0xa49c7ff2, 0x49ded289, 0xa4, 0x9c, 0x7f, 0xf2);
    SubColumn(0x689f352b, 0x45db96f1, 0x68, 0x9f, 0x35, 0x2b);
  }

  lemma {:induction false} SubLow2()
    ensures SubstitutesCol(0x6b5bea43, 0x7f39871a) && SubstitutesCol(0x026a5049, 0x7702533b)
  {
    hide SubstitutesCol;
    SubColumn(0x6b5bea43, 0x7f39871a, 0x6b, 0x5b, 0xea, 0x43);
    SubColumn(0x026a5049, 0x7702533b, 0x02, 0x6a, 0x50, 0x49);
  }

  lemma {:induction false} State3(keys: seq<Block>)
    requires keys == KeysOf(ExampleWords(), 11)
    ensures StateIs(keys, 3, Four(0x486c4eee, 0x671d9d0d, 0x4de3b138, 0xd65f58e7))
  {
    hide StateIs; hide RoundKeyIs;
    State2(keys);
    Key3();
    Sub3();
    assert Mixes(Four(0xac73cf7b, 0xefc111df, 0x13b5d6b5, 0x45235ab8),
                 Four(0x75ec0993, 0x200b6333, 0x53c0cf7c, 0xbb25d0dc));
    hide Substitutes; hide Mixes; hide SubstitutesCol;
    NextState(keys, 3, Four(0xaa8f5f03, 0x61dde3ef, 0x82d24ad2, 0x6832469a),
      Four(0xac73cf7b, 0xefc111df, 0x13b5d6b5, 0x45235ab8),
      Four(0x75ec0993, 0x200b6333, 0x53c0cf7c, 0xbb25d0dc),
      Four(0x3d80477d, 0x4716fe3e, 0x1e237e44, 0x6d7a883b));
  }

  lemma {:induction false} Sub3()
    ensures Substitutes(Four(0xaa8f5f03, 0x61dde3ef, 0x82d24ad2, 0x6832469a),
              Four(0xac73cf7b, 0xefc111df, 0x13b5d6b5, 0x45235ab8))
  {
    hide SubstitutesCol;
    SubLow3();
    SubColumn(0xaa8f5f03, 0xac73cf7b, 0xaa, 0x8f, 0x5f, 0x03);
    SubColumn(0x61dde3ef, 0xefc111df, 0x61, 0xdd, 0xe3, 0xef);
  }

  lemma {:induction false} SubLow3()
    ensures SubstitutesCol(0x82d24ad2, 0x13b5d6b5) && SubstitutesCol(0x6832469a, 0x45235ab8)
  {
    hide SubstitutesCol;
    SubColumn(0x82d24ad2, 0x13b5d6b5, 0x82, 0xd2, 0x4a, 0xd2);
    SubColumn(0x6832469a, 0x45235ab8, 0x68, 0x32, 0x46, 0x9a);
  }

  lemma {:induction false} State4(keys: seq<Block>)
    requires keys == KeysOf(ExampleWords(), 11)
    ensures StateIs(keys, 4, Four(0xe0927fe8, 0xc86363c0, 0xd9b13550, 0x85b8be01))
  {
    hide StateIs; hide RoundKeyIs;
    State3(keys);
    Key4();
    Sub4();
    assert Mixes(Four(0x52502f28, 0x85a45ed7, 0xe311c807, 0xf6cf6a94),
                 Four(0x0fd6daa9, 0x603138bf, 0x6fc0106b, 0x5eb31301));
    hide Substitutes; hide Mixes; hide SubstitutesCol;
    NextState(keys, 4, Four(0x486c4eee, 0x671d9d0d, 0x4de3b138, 0xd65f58e7),
      Four(0x52502f28, 0x85a45ed7, 0xe311c807, 0xf6cf6a94),
      Four(0x0fd6daa9, 0x603138bf, 0x6fc0106b, 0x5eb31301),
      Four(0xef44a541, 0xa8525b7f, 0xb671253b, 0xdb0bad00));
  }

  lemma {:induction false} Sub4()
    ensures Substitutes(Four(0x486c4eee, 0x671d9d0d, 0x4de3b138, 0xd65f58e7),
              Four(0x52502f28, 0x85a45ed7, 0xe311c807, 0xf6cf6a94))
  {
    hide SubstitutesCol;
    SubLow4();
    SubColumn(0x486c4eee, 0x52502f28, 0x48, 0x6c, 0x4e, 0xee);
    SubColumn(0x671d9d0d, 0x85a45ed7, 0x67, 0x1d, 0x9d, 0x0d);
  }

  lemma {:induction false} SubLow4()
    ensures SubstitutesCol(0x4de3b138, 0xe311c807) && SubstitutesCol(0xd65f58e7, 0xf6cf6a94)
  {
    hide SubstitutesCol;
    SubColumn(0x4de3b138, 0xe311c807, 0x4d, 0xe3, 0xb1, 0x38);
    SubColumn(0xd65f58e7, 0xf6cf6a94, 0xd6, 0x5f, 0x58, 0xe7);
  }

  lemma {:induction false} State5(keys: seq<Block>)
    requires keys == KeysOf(ExampleWords(), 11)
    ensures StateIs(keys, 5, Four(0xf1006f55, 0xc1924cef, 0x7cc88b32, 0x5db5d50c))
  {
    hide StateIs; hide RoundKeyIs;
    State4(keys);
    Key5();
    Sub5();
    assert Mixes(Four(0xe14fd29b, 0xe8fbfbba, 0x35c89653, 0x976cae7c),
                 Four(0x25d1a9ad, 0xbd11d168, 0xb63a338e, 0x4c4cc0b0));
    hide Substitutes; hide Mixes; hide SubstitutesCol;
    NextState(keys, 5, Four(0xe0927fe8, 0xc86363c0, 0xd9b13550, 0x85b8be01),
      Four(0xe14fd29b, 0xe8fbfbba, 0x35c89653, 0x976cae7c),
      Four(0x25d1a9ad, 0xbd11d168, 0xb63a338e, 0x4c4cc0b0),
      Four(0xd4d1c6f8, 0x7c839d87, 0xcaf2b8bc, 0x11f915bc));
  }

  lemma {:induction false} Sub5()
    ensures Substitutes(Four(0xe0927fe8, 0xc86363c0, 0xd9b13550, 0x85b8be01),
              Four(0xe14fd29b, 0xe8fbfbba, 0x35c89653, 0x976cae7c))
  {
    hide SubstitutesCol;
    SubLow5();
    SubColumn(0xe0927fe8, 0xe14fd29b, 0xe0, 0x92, 0x7f, 0xe8);
    SubColumn(0xc86363c0, 0xe8fbfbba, 0xc8, 0x63, 0x63, 0xc0);
  }

  lemma {:induction false} SubLow5()
    ensures SubstitutesCol(0xd9b13550, 0x35c89653) && SubstitutesCol(0x85b8be01, 0x976cae7c)
  {
    hide SubstitutesCol;
    SubColumn(0xd9b13550, 0x35c89653, 0xd9, 0xb1, 0x35, 0x50);
    SubColumn(0x85b8be01, 0x976cae7c, 0x85, 0xb8, 0xbe, 0x01);
  }

  lemma {:induction false} State6(keys: seq<Block>)
    requires keys == KeysOf(ExampleWords(), 11)
    ensures StateIs(keys, 6, Four(0x260e2e17, 0x3d41b77d, 0xe86472a9, 0xfdd28b25))
  {
    hide StateIs; hide RoundKeyIs;
    State5(keys);
    Key6();
    Sub6();
    assert Mixes(Four(0xa163a8fc, 0x784f29df, 0x10e83d23, 0x4cd503fe),
                 Four(0x4b868d6d, 0x2c4a8980, 0x339df4e8, 0x37d218d8));
    hide Substitutes; hide Mixes; hide SubstitutesCol;
    NextState(keys, 6, Four(0xf1006f55, 0xc1924cef, 0x7cc88b32, 0x5db5d50c),
      Four(0xa163a8fc, 0x784f29df, 0x10e83d23, 0x4cd503fe),
      Four(0x4b868d6d, 0x2c4a8980, 0x339df4e8, 0x37d218d8),
      Four(0x6d88a37a, 0x110b3efd, 0xdbf98641, 0xca0093fd));
  }

  lemma {:induction false} Sub6()
    ensures Substitutes(Four(0xf1006f55, 0xc1924cef, 0x7cc88b32, 0x5db5d50c),
              Four(0xa163a8fc, 0x784f29df, 0x10e83d23, 0x4cd503fe))
  {
    hide SubstitutesCol;
    SubLow6();
    SubColumn(0xf1006f55, 0xa163a8fc, 0xf1, 0x00, 0x6f, 0x55);
    SubColumn(0xc1924cef, 0x784f29df, 0xc1, 0x92, 0x4c, 0xef);
  }

  lemma {:induction false} SubLow6()
    ensures SubstitutesCol(0x7cc88b32, 0x10e83d23) && SubstitutesCol(0x5db5d50c, 0x4cd503fe)
  {
    hide SubstitutesCol;
    SubColumn(0x7cc88b32, 0x10e83d23, 0x7c, 0xc8, 0x8b, 0x32);
    SubColumn(0x5db5d50c, 0x4cd503fe, 0x5d, 0xb5, 0xd5, 0x0c);
  }

  lemma {:induction false} State7(keys: seq<Block>)
    requires keys == KeysOf(ExampleWords(), 11)
    ensures StateIs(keys, 7, Four(0x5a4142b1, 0x1949dc1f, 0xa3e01965, 0x7a8c040c))
  {
    hide StateIs; hide RoundKeyIs;
    State6(keys);
    Key7();
    Sub7();
    assert Mixes(Four(0xf7ab31f0, 0x2783a9ff, 0x9b4340d3, 0x54b53d3f),
                 Four(0x1415b5bf, 0x461615ec, 0x274656d7, 0x342ad843));
    hide Substitutes; hide Mixes; hide SubstitutesCol;
    NextState(keys, 7, Four(0x260e2e17, 0x3d41b77d, 0xe86472a9, 0xfdd28b25),
      Four(0xf7ab31f0, 0x2783a9ff, 0x9b4340d3, 0x54b53d3f),
      Four(0x1415b5bf, 0x461615ec, 0x274656d7, 0x342ad843),
      Four(0x4e54f70e, 0x5f5fc9f3, 0x84a64fb2, 0x4ea6dc4f));
  }

  lemma {:induction false} Sub7()
    ensures Substitutes(Four(0x260e2e17, 0x3d41b77d, 0xe86472a9, 0xfdd28b25),
              Four(0xf7ab31f0, 0x2783a9ff, 0x9b4340d3, 0x54b53d3f))
  {
    hide SubstitutesCol;
    SubLow7();
    SubColumn(0x260e2e17, 0xf7ab31f0, 0x26, 0x0e, 0x2e, 0x17);
    SubColumn(0x3d41b77d, 0x2783a9ff, 0x3d, 0x41, 0xb7, 0x7d);
  }

  lemma {:induction false} SubLow7()
    ensures SubstitutesCol(0xe86472a9, 0x9b4340d3) && SubstitutesCol(0xfdd28b25, 0x54b53d3f)
  {
    hide SubstitutesCol;
    SubColumn(0xe86472a9, 0x9b4340d3, 0xe8, 0x64, 0x72, 0xa9);
    SubColumn(0xfdd28b25, 0x54b53d3f, 0xfd, 0xd2, 0x8b, 0x25);
  }

  lemma {:induction false} State8(keys: seq<Block>)
    requires keys == KeysOf(ExampleWords(), 11)
    ensures StateIs(keys, 8, Four(0xea835cf0, 0x0445332d, 0x655d98ad, 0x8596b0c5))
  {
    hide StateIs; hide RoundKeyIs;
    State7(keys);
    Key8();
    Sub8();
    assert Mixes(Four(0xbe832cc8, 0xd43b86c0, 0x0ae1d44d, 0xda64f2fe),
                 Four(0x00512fd1, 0xb1c889ff, 0x54766dcd, 0xfa1b99ea));
    hide Substitutes; hide Mixes; hide SubstitutesCol;
    NextState(keys, 8, Four(0x5a4142b1, 0x1949dc1f, 0xa3e01965, 0x7a8c040c),
      Four(0xbe832cc8, 0xd43b86c0, 0x0ae1d44d, 0xda64f2fe),
      Four(0x00512fd1, 0xb1c889ff, 0x54766dcd, 0xfa1b99ea),
      Four(0xead27321, 0xb58dbad2, 0x312bf560, 0x7f8d292f));
  }

  lemma {:induction false} Sub8()
    ensures Substitutes(Four(0x5a4142b1, 0x1949dc1f, 0xa3e01965, 0x7a8c040c),
              Four(0xbe832cc8, 0xd43b86c0, 0x0ae1d44d, 0xda64f2fe))
  {
    hide SubstitutesCol;
    SubLow8();
    SubColumn(0x5a4142b1, 0xbe832cc8, 0x5a, 0x41, 0x42, 0xb1);
    SubColumn(0x1949dc1f, 0xd43b86c0, 0x19, 0x49, 0xdc, 0x1f);
  }

  lemma {:induction false} SubLow8()
    ensures SubstitutesCol(0xa3e01965, 0x0ae1d44d) && SubstitutesCol(0x7a8c040c, 0xda64f2fe)
  {
    hide SubstitutesCol;
    SubColumn(0xa3e01965, 0x0ae1d44d, 0xa3, 0xe0, 0x19, 0x65);
    SubColumn(0x7a8c040c, 0xda64f2fe, 0x7a, 0x8c, 0x04, 0x0c);
  }

  lemma {:induction false} State9(keys: seq<Block>)
    requires keys == KeysOf(ExampleWords(), 11)
    ensures StateIs(keys, 9, Four(0xeb40f21e, 0x592e3884, 0x8ba113e7, 0x1bc342d2))
  {
    hide StateIs; hide RoundKeyIs;
    State8(keys);
    Key9();
    Sub9();
    assert Mixes(Four(0x87ec4a8c, 0xf26ec3d8, 0x4d4c4695, 0x9790e7a6),
                 Four(0x473794ed, 0x40d4e4a5, 0xa3703aa6, 0x4c9f42bc));
    hide Substitutes; hide Mixes; hide SubstitutesCol;
    NextState(keys, 9, Four(0xea835cf0, 0x0445332d, 0x655d98ad, 0x8596b0c5),
      Four(0x87ec4a8c, 0xf26ec3d8, 0x4d4c4695, 0x9790e7a6),
      Four(0x473794ed, 0x40d4e4a5, 0xa3703aa6, 0x4c9f42bc),
      Four(0xac7766f3, 0x19fadc21, 0x28d12941, 0x575c006e));
  }

  lemma {:induction false} Sub9()
    ensures Substitutes(Four(0xea835cf0, 0x0445332d, 0x655d98ad, 0x8596b0c5),
              Four(0x87ec4a8c, 0xf26ec3d8, 0x4d4c4695, 0x9790e7a6))
  {
    hide SubstitutesCol;
    SubLow9();
    SubColumn(0xea835cf0, 0x87ec4a8c, 0xea, 0x83, 0x5c, 0xf0);
    SubColumn(0x0445332d, 0xf26ec3d8, 0x04, 0x45, 0x33, 0x2d);
  }

  lemma {:induction false} SubLow9()
    ensures SubstitutesCol(0x655d98ad, 0x4d4c4695) && SubstitutesCol(0x8596b0c5, 0x9790e7a6)
  {
    hide SubstitutesCol;
    SubColumn(0x655d98ad, 0x4d4c4695, 0x65, 0x5d, 0x98, 0xad);
    SubColumn(0x8596b0c5, 0x9790e7a6, 0x85, 0x96, 0xb0, 0xc5);
  }

  lemma {:induction false} Sub10()
    ensures Substitutes(Four(0xeb40f21e, 0x592e3884, 0x8ba113e7, 0x1bc342d2),
              Four(0xe9098972, 0xcb31075f, 0x3d327d94, 0xaf2e2cb5))
  {
    hide SubstitutesCol;
    SubLow10();
    SubColumn(0xeb40f21e, 0xe9098972, 0xeb, 0x40, 0xf2, 0x1e);
    SubColumn(0x592e3884, 0xcb31075f, 0x59, 0x2e, 0x38, 0x84);
  }

  lemma {:induction false} SubLow10()
    ensures SubstitutesCol(0x8ba113e7, 0x3d327d94) && SubstitutesCol(0x1bc342d2, 0xaf2e2cb5)
  {
    hide SubstitutesCol;
    SubColumn(0x8ba113e7, 0x3d327d94, 0x8b, 0xa1, 0x13, 0xe7);
    SubColumn(0x1bc342d2, 0xaf2e2cb5, 0x1b, 0xc3, 0x42, 0xd2);
  }

  /** Appendix B: the key, expanded, encrypts the input of the example to its output. */
  lemma {:induction false} Example()
    ensures Cipher(STANDARD, ExpandedKeys(STANDARD, KEY, 128), BlockIn(PLAIN)) == BlockIn(CIPHERTEXT)
  {
    hide StateIs; hide RoundKeyIs;
    var keys := KeysOf(ExampleWords(), 11);
    State9(keys);
    Key10();
    Sub10();
    hide Substitutes;
    LastState(keys, Four(0xeb40f21e, 0x592e3884, 0x8ba113e7, 0x1bc342d2),
      Four(0xe9098972, 0xcb31075f, 0x3d327d94, 0xaf2e2cb5),
      Four(0xd014f9a8, 0xc9ee2589, 0xe13f0cc8, 0xb6630ca6),
      Four(0x3925841d, 0x02dc09fb, 0xdc118597, 0x196a0b32));
    PlainIs();
    ExampleSchedule();
  }
}
