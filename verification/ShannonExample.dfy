/** A worked example of shn.c: a key of five bytes, five bytes of text and their MAC. */
module ShannonExample {
  import opened Words
  import opened Shannon

  const KEY: seq<Byte> := [1, 2, 3, 4, 5]

  /** "Hello". */
  const TEXT: seq<Byte> := [0x48, 0x65, 0x6c, 0x6c, 0x6f]

  const CIPHERTEXT: seq<Byte> := [0x39, 0x9d, 0x74, 0x48, 0x63]

  const MAC: seq<Byte> := [0xe9, 0xc0, 0x46, 0xbc]

  const KONST: Word := 0x4b772d39

  // ---------------------------------------------------------------- the register, step by step

  /** After each word of the key and its length. */
  const K0: seq<Word> :=
    [0x00000001, 0x00000001, 0x00000002, 0x00000003, 0x00000005, 0x00000008, 0x0000000d, 0x00000015,
     0x00000022, 0x00000037, 0x00000059, 0x00000090, 0x000000e9, 0x00000179, 0x00000262, 0x000003db]

  const K1: seq<Word> :=
    [0xd2c6f1b2, 0x00000002, 0x00000003, 0x00000005, 0x00000008, 0x0000000d, 0x00000015, 0x00000022,
     0x00000037, 0x00000059, 0x00000090, 0x000000e9, 0x04030378, 0x00000262, 0x000003db, 0x48cbe8a2]

  const K2: seq<Word> :=
    [0xf14bb207, 0x00000003, 0x00000005, 0x00000008, 0x0000000d, 0x00000015, 0x00000022, 0x00000037,
     0x00000059, 0x00000090, 0x000000e9, 0x04030378, 0x00000267, 0x000003db, 0x48cbe8a2, 0x84174a01]

  const K3: seq<Word> :=
    [0x37e4da01, 0x00000005, 0x00000008, 0x0000000d, 0x00000015, 0x00000022, 0x00000037, 0x00000059,
     0x00000090, 0x000000e9, 0x04030378, 0x00000267, 0x000003de, 0x48cbe8a2, 0x84174a01, 0x8f0fea14]

  /** Diffused. */
  const D1: seq<Word> :=
    [0xa90c00b7, 0x00000008, 0x0000000d, 0x00000015, 0x00000022, 0x00000037, 0x00000059, 0x00000090,
     0x000000e9, 0x04030378, 0x00000267, 0x000003de, 0x48cbe8a2, 0x84174a01, 0x8f0fea14, 0x8d948e67]

  const D2: seq<Word> :=
    [0xb1ca58e9, 0x0000000d, 0x00000015, 0x00000022, 0x00000037, 0x00000059, 0x00000090, 0x000000e9,
     0x04030378, 0x00000267, 0x000003de, 0x48cbe8a2, 0x84174a01, 0x8f0fea14, 0x8d948e67, 0x81d7d4ee]

  const D3: seq<Word> :=
    [0x6e792e10, 0x00000015, 0x00000022, 0x00000037, 0x00000059, 0x00000090, 0x000000e9, 0x04030378,
     0x00000267, 0x000003de, 0x48cbe8a2, 0x84174a01, 0x8f0fea14, 0x8d948e67, 0x81d7d4ee, 0xe0799cb7]

  const D4: seq<Word> :=
    [0x464c5fdc, 0x00000022, 0x00000037, 0x00000059, 0x00000090, 0x000000e9, 0x04030378, 0x00000267,
     0x000003de, 0x48cbe8a2, 0x84174a01, 0x8f0fea14, 0x8d948e67, 0x81d7d4ee, 0xe0799cb7, 0x2fac2f1f]

  const D5: seq<Word> :=
    [0x82fce463, 0x00000037, 0x00000059, 0x00000090, 0x000000e9, 0x04030378, 0x00000267, 0x000003de,
     0x48cbe8a2, 0x84174a01, 0x8f0fea14, 0x8d948e67, 0x81d7d4ee, 0xe0799cb7, 0x2fac2f1f, 0x00dd242e]

  const D6: seq<Word> :=
    [0x9375233f, 0x00000059, 0x00000090, 0x000000e9, 0x04030378, 0x00000267, 0x000003de, 0x48cbe8a2,
     0x84174a01, 0x8f0fea14, 0x8d948e67, 0x81d7d4ee, 0xe0799cb7, 0x2fac2f1f, 0x00dd242e, 0xb72303bc]

  const D7: seq<Word> :=
    [0x567bb4dd, 0x00000090, 0x000000e9, 0x04030378, 0x00000267, 0x000003de, 0x48cbe8a2, 0x84174a01,
     0x8f0fea14, 0x8d948e67, 0x81d7d4ee, 0xe0799cb7, 0x2fac2f1f, 0x00dd242e, 0xb72303bc, 0x162d1455]

  const D8: seq<Word> :=
    [0xe8c7a46d, 0x000000e9, 0x04030378, 0x00000267, 0x000003de, 0x48cbe8a2, 0x84174a01, 0x8f0fea14,
     0x8d948e67, 0x81d7d4ee, 0xe0799cb7, 0x2fac2f1f, 0x00dd242e, 0xb72303bc, 0x162d1455, 0xeac0ac98]

  const D9: seq<Word> :=
    [0x62bf9436, 0x04030378, 0x00000267, 0x000003de, 0x48cbe8a2, 0x84174a01, 0x8f0fea14, 0x8d948e67,
     0x81d7d4ee, 0xe0799cb7, 0x2fac2f1f, 0x00dd242e, 0xb72303bc, 0x162d1455, 0xeac0ac98, 0x0d6322e1]

  const D10: seq<Word> :=
    [0x56637a78, 0x00000267, 0x000003de, 0x48cbe8a2, 0x84174a01, 0x8f0fea14, 0x8d948e67, 0x81d7d4ee,
     0xe0799cb7, 0x2fac2f1f, 0x00dd242e, 0xb72303bc, 0x162d1455, 0xeac0ac98, 0x0d6322e1, 0x19697ebd]

  const D11: seq<Word> :=
    [0x54aa4c1e, 0x000003de, 0x48cbe8a2, 0x84174a01, 0x8f0fea14, 0x8d948e67, 0x81d7d4ee, 0xe0799cb7,
     0x2fac2f1f, 0x00dd242e, 0xb72303bc, 0x162d1455, 0xeac0ac98, 0x0d6322e1, 0x19697ebd, 0x152983d9]

  const D12: seq<Word> :=
    [0x85491070, 0x48cbe8a2, 0x84174a01, 0x8f0fea14, 0x8d948e67, 0x81d7d4ee, 0xe0799cb7, 0x2fac2f1f,
     0x00dd242e, 0xb72303bc, 0x162d1455, 0xeac0ac98, 0x0d6322e1, 0x19697ebd, 0x152983d9, 0x447a9c65]

  const D13: seq<Word> :=
    [0xcf72a7a1, 0x84174a01, 0x8f0fea14, 0x8d948e67, 0x81d7d4ee, 0xe0799cb7, 0x2fac2f1f, 0x00dd242e,
     0xb72303bc, 0x162d1455, 0xeac0ac98, 0x0d6322e1, 0x19697ebd, 0x152983d9, 0x447a9c65, 0x3e3d94a1]

  const D14: seq<Word> :=
    [0x323c673a, 0x8f0fea14, 0x8d948e67, 0x81d7d4ee, 0xe0799cb7, 0x2fac2f1f, 0x00dd242e, 0xb72303bc,
     0x162d1455, 0xeac0ac98, 0x0d6322e1, 0x19697ebd, 0x152983d9, 0x447a9c65, 0x3e3d94a1, 0xfdcbaaae]

  const D15: seq<Word> :=
    [0x27c44014, 0x8d948e67, 0x81d7d4ee, 0xe0799cb7, 0x2fac2f1f, 0x00dd242e, 0xb72303bc, 0x162d1455,
     0xeac0ac98, 0x0d6322e1, 0x19697ebd, 0x152983d9, 0x447a9c65, 0x3e3d94a1, 0xfdcbaaae, 0x7898d8db]

  const D16: seq<Word> :=
    [0x7c93f738, 0x81d7d4ee, 0xe0799cb7, 0x2fac2f1f, 0x00dd242e, 0xb72303bc, 0x162d1455, 0xeac0ac98,
     0x0d6322e1, 0x19697ebd, 0x152983d9, 0x447a9c65, 0x3e3d94a1, 0xfdcbaaae, 0x7898d8db, 0x3b59f9e0]

  /** Keyed, at the first and the second key-stream word, and at the end of the input. */
  const S0: seq<Word> :=
    [0x4b772d39, 0x81d7d4eb, 0xe0799cbf, 0x2fac2f12, 0x00dd243b, 0xb723039e, 0x162d1462, 0xeac0acc1,
     0x0d632271, 0x19697e54, 0x112a80a1, 0x447a9e02, 0x3e3d977f, 0xb500420c, 0xfc8f92da, 0xb45613f4]

  const S1: seq<Word> :=
    [0x09a610c2, 0xe0799cbf, 0x2fac2f12, 0x00dd243b, 0xb723039e, 0x162d1462, 0xeac0acc1, 0x0d632271,
     0x19697e54, 0x112a80a1, 0x447a9e02, 0x3e3d977f, 0xb500420c, 0xfc8f92da, 0xb45613f4, 0x9664e2bf]

  const S2: seq<Word> :=
    [0xd9c61580, 0x2fac2f12, 0x00dd243b, 0xb723039e, 0x162d1462, 0xeac0acc1, 0x0d632271, 0x19697e54,
     0x112a80a1, 0x447a9e02, 0x3e3d977f, 0xb500420c, 0x90e3f792, 0xb45613f4, 0x9664e2bf, 0x59ea5c23]

  const S3: seq<Word> :=
    [0x4744427f, 0x00dd243b, 0xb723039e, 0x162d1462, 0xeac0acc1, 0x0d632271, 0x19697e54, 0x112a80a1,
     0x447a9e02, 0x3e3d977f, 0xb500420c, 0x90e3f792, 0xb456139b, 0x9664e2bf, 0x59ea5c23, 0xdecee3f1]

  /** The checksum register after one and two words. */
  const C1: seq<Word> :=
    [0x00000005, 0x00000008, 0x0000000d, 0x00000015, 0x00000022, 0x00000037, 0x00000059, 0x00000090,
     0x000000e9, 0x04030378, 0x00000267, 0x000003de, 0x48cbe8a2, 0x84174a01, 0x8f0fea14, 0xd4875555]

  const C2: seq<Word> :=
    [0x00000008, 0x0000000d, 0x00000015, 0x00000022, 0x00000037, 0x00000059, 0x00000090, 0x000000e9,
     0x04030378, 0x00000267, 0x000003de, 0x48cbe8a2, 0x84174a01, 0x8f0fea14, 0xd4875555, 0xd4875532]

  /** With the checksum, diffused, and at the MAC word. */
  const M0: seq<Word> :=
    [0x47444277, 0x00dd2436, 0xb723038b, 0x162d1440, 0xeac0acf6, 0x0d632228, 0x19697ec4, 0x112a8048,
     0x40799d7a, 0x3e3d9518, 0xb50041d2, 0xd8281f30, 0x3041599a, 0x70fdcd51, 0x8d6d0976, 0x0a49b6c3]

  const M1: seq<Word> :=
    [0x97f97e9a, 0xb723038b, 0x162d1440, 0xeac0acf6, 0x0d632228, 0x19697ec4, 0x112a8048, 0x40799d7a,
     0x3e3d9518, 0xb50041d2, 0xd8281f30, 0x3041599a, 0x70fdcd51, 0x8d6d0976, 0x0a49b6c3, 0xc5437fea]

  const M2: seq<Word> :=
    [0x1bc91f28, 0x162d1440, 0xeac0acf6, 0x0d632228, 0x19697ec4, 0x112a8048, 0x40799d7a, 0x3e3d9518,
     0xb50041d2, 0xd8281f30, 0x3041599a, 0x70fdcd51, 0x8d6d0976, 0x0a49b6c3, 0xc5437fea, 0xd0b2f527]

  const M3: seq<Word> :=
    [0x1c8b705a, 0xeac0acf6, 0x0d632228, 0x19697ec4, 0x112a8048, 0x40799d7a, 0x3e3d9518, 0xb50041d2,
     0xd8281f30, 0x3041599a, 0x70fdcd51, 0x8d6d0976, 0x0a49b6c3, 0xc5437fea, 0xd0b2f527, 0x2fe10454]

  const M4: seq<Word> :=
    [0x6ba34b03, 0x0d632228, 0x19697ec4, 0x112a8048, 0x40799d7a, 0x3e3d9518, 0xb50041d2, 0xd8281f30,
     0x3041599a, 0x70fdcd51, 0x8d6d0976, 0x0a49b6c3, 0xc5437fea, 0xd0b2f527, 0x2fe10454, 0xf00a722d]

  const M5: seq<Word> :=
    [0x8ca757d3, 0x19697ec4, 0x112a8048, 0x40799d7a, 0x3e3d9518, 0xb50041d2, 0xd8281f30, 0x3041599a,
     0x70fdcd51, 0x8d6d0976, 0x0a49b6c3, 0xc5437fea, 0xd0b2f527, 0x2fe10454, 0xf00a722d, 0x84e8b183]

  const M6: seq<Word> :=
    [0xbf9cdd56, 0x112a8048, 0x40799d7a, 0x3e3d9518, 0xb50041d2, 0xd8281f30, 0x3041599a, 0x70fdcd51,
     0x8d6d0976, 0x0a49b6c3, 0xc5437fea, 0xd0b2f527, 0x2fe10454, 0xf00a722d, 0x84e8b183, 0xf63c686c]

  const M7: seq<Word> :=
    [0x78256ff7, 0x40799d7a, 0x3e3d9518, 0xb50041d2, 0xd8281f30, 0x3041599a, 0x70fdcd51, 0x8d6d0976,
     0x0a49b6c3, 0xc5437fea, 0xd0b2f527, 0x2fe10454, 0xf00a722d, 0x84e8b183, 0xf63c686c, 0xead8d44a]

  const M8: seq<Word> :=
    [0xaf7637d4, 0x3e3d9518, 0xb50041d2, 0xd8281f30, 0x3041599a, 0x70fdcd51, 0x8d6d0976, 0x0a49b6c3,
     0xc5437fea, 0xd0b2f527, 0x2fe10454, 0xf00a722d, 0x84e8b183, 0xf63c686c, 0xead8d44a, 0xce57915b]

  const M9: seq<Word> :=
    [0x1c795cc0, 0xb50041d2, 0xd8281f30, 0x3041599a, 0x70fdcd51, 0x8d6d0976, 0x0a49b6c3, 0xc5437fea,
     0xd0b2f527, 0x2fe10454, 0xf00a722d, 0x84e8b183, 0xf63c686c, 0xead8d44a, 0xce57915b, 0x68ce174b]

  const M10: seq<Word> :=
    [0xe2cc3401, 0xd8281f30, 0x3041599a, 0x70fdcd51, 0x8d6d0976, 0x0a49b6c3, 0xc5437fea, 0xd0b2f527,
     0x2fe10454, 0xf00a722d, 0x84e8b183, 0xf63c686c, 0xead8d44a, 0xce57915b, 0x68ce174b, 0x6b34fc3b]

  const M11: seq<Word> :=
    [0x21bcd08a, 0x3041599a, 0x70fdcd51, 0x8d6d0976, 0x0a49b6c3, 0xc5437fea, 0xd0b2f527, 0x2fe10454,
     0xf00a722d, 0x84e8b183, 0xf63c686c, 0xead8d44a, 0xce57915b, 0x68ce174b, 0x6b34fc3b, 0xb8a1a26b]

  const M12: seq<Word> :=
    [0x39933090, 0x70fdcd51, 0x8d6d0976, 0x0a49b6c3, 0xc5437fea, 0xd0b2f527, 0x2fe10454, 0xf00a722d,
     0x84e8b183, 0xf63c686c, 0xead8d44a, 0xce57915b, 0x68ce174b, 0x6b34fc3b, 0xb8a1a26b, 0xa6f6601d]

  const M13: seq<Word> :=
    [0xf55fafef, 0x8d6d0976, 0x0a49b6c3, 0xc5437fea, 0xd0b2f527, 0x2fe10454, 0xf00a722d, 0x84e8b183,
     0xf63c686c, 0xead8d44a, 0xce57915b, 0x68ce174b, 0x6b34fc3b, 0xb8a1a26b, 0xa6f6601d, 0x9377b57f]

  const M14: seq<Word> :=
    [0xfa62e07c, 0x0a49b6c3, 0xc5437fea, 0xd0b2f527, 0x2fe10454, 0xf00a722d, 0x84e8b183, 0xf63c686c,
     0xead8d44a, 0xce57915b, 0x68ce174b, 0x6b34fc3b, 0xb8a1a26b, 0xa6f6601d, 0x9377b57f, 0xfa9dbea6]

  const M15: seq<Word> :=
    [0xb60e7657, 0xc5437fea, 0xd0b2f527, 0x2fe10454, 0xf00a722d, 0x84e8b183, 0xf63c686c, 0xead8d44a,
     0xce57915b, 0x68ce174b, 0x6b34fc3b, 0xb8a1a26b, 0xa6f6601d, 0x9377b57f, 0xfa9dbea6, 0x38e59fa4]

  const M16: seq<Word> :=
    [0xef52412b, 0xd0b2f527, 0x2fe10454, 0xf00a722d, 0x84e8b183, 0xf63c686c, 0xead8d44a, 0xce57915b,
     0x68ce174b, 0x6b34fc3b, 0xb8a1a26b, 0xa6f6601d, 0x9377b57f, 0xfa9dbea6, 0x38e59fa4, 0x10317174]

  const M17: seq<Word> :=
    [0xfd5d7753, 0x2fe10454, 0xf00a722d, 0x84e8b183, 0xf63c686c, 0xead8d44a, 0xce57915b, 0x68ce174b,
     0x6b34fc3b, 0xb8a1a26b, 0xa6f6601d, 0x9377b57f, 0xfa9dbea6, 0x38e59fa4, 0x10317174, 0x5c71b354]

  lemma {:induction false} Start()
    ensures FIBONACCI == K0
  {
    assert Fib(2) == 2 && Fib(3) == 3 && Fib(4) == 5 && Fib(5) == 8;
    assert Fib(6) == 13 && Fib(7) == 21 && Fib(8) == 34 && Fib(9) == 55;
    assert Fib(10) == 89 && Fib(11) == 144 && Fib(12) == 233 && Fib(13) == 377;
    assert Fib(14) == 610 && Fib(15) == 987;
  }

  lemma {:induction false} DiffusedNext(R: Reg, konst: Word, n: nat, A: Reg, B: Reg)
    requires Diffused(R, konst, n) == A && Cycled(A, konst) == B
    ensures Diffused(R, konst, n + 1) == B
  {
    hide Cycled;
  }

  lemma {:induction false} Diffused1()
    ensures Diffused(K3, INITKONST, 1) == D1
  {
    assert Cycled(K3, INITKONST) == D1;
    hide Cycled; hide Diffused;
    DiffusedOnce(K3, INITKONST, D1);
  }

  lemma {:induction false} Diffused2()
    ensures Diffused(K3, INITKONST, 2) == D2
  {
    assert Cycled(D1, INITKONST) == D2;
    hide Cycled; hide Diffused;
    Diffused1();
    DiffusedNext(K3, INITKONST, 1, D1, D2);
  }

  lemma {:induction false} Diffused3()
    ensures Diffused(K3, INITKONST, 3) == D3
  {
    assert Cycled(D2, INITKONST) == D3;
    hide Cycled; hide Diffused;
    Diffused2();
    DiffusedNext(K3, INITKONST, 2, D2, D3);
  }

  lemma {:induction false} Diffused4()
    ensures Diffused(K3, INITKONST, 4) == D4
  {
    assert Cycled(D3, INITKONST) == D4;
    hide Cycled; hide Diffused;
    Diffused3();
    DiffusedNext(K3, INITKONST, 3, D3, D4);
  }

  lemma {:induction false} Diffused5()
    ensures Diffused(K3, INITKONST, 5) == D5
  {
    assert Cycled(D4, INITKONST) == D5;
    hide Cycled; hide Diffused;
    Diffused4();
    DiffusedNext(K3, INITKONST, 4, D4, D5);
  }

  lemma {:induction false} Diffused6()
    ensures Diffused(K3, INITKONST, 6) == D6
  {
    assert Cycled(D5, INITKONST) == D6;
    hide Cycled; hide Diffused;
    Diffused5();
    DiffusedNext(K3, INITKONST, 5, D5, D6);
  }

  lemma {:induction false} Diffused7()
    ensures Diffused(K3, INITKONST, 7) == D7
  {
    assert Cycled(D6, INITKONST) == D7;
    hide Cycled; hide Diffused;
    Diffused6();
    DiffusedNext(K3, INITKONST, 6, D6, D7);
  }

  lemma {:induction false} Diffused8()
    ensures Diffused(K3, INITKONST, 8) == D8
  {
    assert Cycled(D7, INITKONST) == D8;
    hide Cycled; hide Diffused;
    Diffused7();
    DiffusedNext(K3, INITKONST, 7, D7, D8);
  }

  lemma {:induction false} Diffused9()
    ensures Diffused(K3, INITKONST, 9) == D9
  {
    assert Cycled(D8, INITKONST) == D9;
    hide Cycled; hide Diffused;
    Diffused8();
    DiffusedNext(K3, INITKONST, 8, D8, D9);
  }

  lemma {:induction false} Diffused10()
    ensures Diffused(K3, INITKONST, 10) == D10
  {
    assert Cycled(D9, INITKONST) == D10;
    hide Cycled; hide Diffused;
    Diffused9();
    DiffusedNext(K3, INITKONST, 9, D9, D10);
  }

  lemma {:induction false} Diffused11()
    ensures Diffused(K3, INITKONST, 11) == D11
  {
    assert Cycled(D10, INITKONST) == D11;
    hide Cycled; hide Diffused;
    Diffused10();
    DiffusedNext(K3, INITKONST, 10, D10, D11);
  }

  lemma {:induction false} Diffused12()
    ensures Diffused(K3, INITKONST, 12) == D12
  {
    assert Cycled(D11, INITKONST) == D12;
    hide Cycled; hide Diffused;
    Diffused11();
    DiffusedNext(K3, INITKONST, 11, D11, D12);
  }

  lemma {:induction false} Diffused13()
    ensures Diffused(K3, INITKONST, 13) == D13
  {
    assert Cycled(D12, INITKONST) == D13;
    hide Cycled; hide Diffused;
    Diffused12();
    DiffusedNext(K3, INITKONST, 12, D12, D13);
  }

  lemma {:induction false} Diffused14()
    ensures Diffused(K3, INITKONST, 14) == D14
  {
    assert Cycled(D13, INITKONST) == D14;
    hide Cycled; hide Diffused;
    Diffused13();
    DiffusedNext(K3, INITKONST, 13, D13, D14);
  }

  lemma {:induction false} Diffused15()
    ensures Diffused(K3, INITKONST, 15) == D15
  {
    assert Cycled(D14, INITKONST) == D15;
    hide Cycled; hide Diffused;
    Diffused14();
    DiffusedNext(K3, INITKONST, 14, D14, D15);
  }

  lemma {:induction false} Diffused16()
    ensures Diffused(K3, INITKONST, 16) == D16
  {
    assert Cycled(D15, INITKONST) == D16;
    hide Cycled; hide Diffused;
    Diffused15();
    DiffusedNext(K3, INITKONST, 15, D15, D16);
  }

  lemma {:induction false} Mixed1()
    ensures Diffused(M0, KONST, 1) == M1
  {
    assert Cycled(M0, KONST) == M1;
    hide Cycled; hide Diffused;
    DiffusedOnce(M0, KONST, M1);
  }

  lemma {:induction false} Mixed2()
    ensures Diffused(M0, KONST, 2) == M2
  {
    assert Cycled(M1, KONST) == M2;
    hide Cycled; hide Diffused;
    Mixed1();
    DiffusedNext(M0, KONST, 1, M1, M2);
  }

  lemma {:induction false} Mixed3()
    ensures Diffused(M0, KONST, 3) == M3
  {
    assert Cycled(M2, KONST) == M3;
    hide Cycled; hide Diffused;
    Mixed2();
    DiffusedNext(M0, KONST, 2, M2, M3);
  }

  lemma {:induction false} Mixed4()
    ensures Diffused(M0, KONST, 4) == M4
  {
    assert Cycled(M3, KONST) == M4;
    hide Cycled; hide Diffused;
    Mixed3();
    DiffusedNext(M0, KONST, 3, M3, M4);
  }

  lemma {:induction false} Mixed5()
    ensures Diffused(M0, KONST, 5) == M5
  {
    assert Cycled(M4, KONST) == M5;
    hide Cycled; hide Diffused;
    Mixed4();
    DiffusedNext(M0, KONST, 4, M4, M5);
  }

  lemma {:induction false} Mixed6()
    ensures Diffused(M0, KONST, 6) == M6
  {
    assert Cycled(M5, KONST) == M6;
    hide Cycled; hide Diffused;
    Mixed5();
    DiffusedNext(M0, KONST, 5, M5, M6);
  }

  lemma {:induction false} Mixed7()
    ensures Diffused(M0, KONST, 7) == M7
  {
    assert Cycled(M6, KONST) == M7;
    hide Cycled; hide Diffused;
    Mixed6();
    DiffusedNext(M0, KONST, 6, M6, M7);
  }

  lemma {:induction false} Mixed8()
    ensures Diffused(M0, KONST, 8) == M8
  {
    assert Cycled(M7, KONST) == M8;
    hide Cycled; hide Diffused;
    Mixed7();
    DiffusedNext(M0, KONST, 7, M7, M8);
  }

  lemma {:induction false} Mixed9()
    ensures Diffused(M0, KONST, 9) == M9
  {
    assert Cycled(M8, KONST) == M9;
    hide Cycled; hide Diffused;
    Mixed8();
    DiffusedNext(M0, KONST, 8, M8, M9);
  }

  lemma {:induction false} Mixed10()
    ensures Diffused(M0, KONST, 10) == M10
  {
    assert Cycled(M9, KONST) == M10;
    hide Cycled; hide Diffused;
    Mixed9();
    DiffusedNext(M0, KONST, 9, M9, M10);
  }

  lemma {:induction false} Mixed11()
    ensures Diffused(M0, KONST, 11) == M11
  {
    assert Cycled(M10, KONST) == M11;
    hide Cycled; hide Diffused;
    Mixed10();
    DiffusedNext(M0, KONST, 10, M10, M11);
  }

  lemma {:induction false} Mixed12()
    ensures Diffused(M0, KONST, 12) == M12
  {
    assert Cycled(M11, KONST) == M12;
    hide Cycled; hide Diffused;
    Mixed11();
    DiffusedNext(M0, KONST, 11, M11, M12);
  }

  lemma {:induction false} Mixed13()
    ensures Diffused(M0, KONST, 13) == M13
  {
    assert Cycled(M12, KONST) == M13;
    hide Cycled; hide Diffused;
    Mixed12();
    DiffusedNext(M0, KONST, 12, M12, M13);
  }

  lemma {:induction false} Mixed14()
    ensures Diffused(M0, KONST, 14) == M14
  {
    assert Cycled(M13, KONST) == M14;
    hide Cycled; hide Diffused;
    Mixed13();
    DiffusedNext(M0, KONST, 13, M13, M14);
  }

  lemma {:induction false} Mixed15()
    ensures Diffused(M0, KONST, 15) == M15
  {
    assert Cycled(M14, KONST) == M15;
    hide Cycled; hide Diffused;
    Mixed14();
    DiffusedNext(M0, KONST, 14, M14, M15);
  }

  lemma {:induction false} Mixed16()
    ensures Diffused(M0, KONST, 16) == M16
  {
    assert Cycled(M15, KONST) == M16;
    hide Cycled; hide Diffused;
    Mixed15();
    DiffusedNext(M0, KONST, 15, M15, M16);
  }

  lemma {:induction false} DiffusedOnce(R: Reg, konst: Word, A: Reg)
    requires Cycled(R, konst) == A
    ensures Diffused(R, konst, 1) == A
  {
    hide Cycled;
  }

  // ---------------------------------------------------------------- keying

  lemma {:induction false} FirstStep()
    ensures Cycled(AddKey(K0, 0x04030201), INITKONST) == K1
  {
  }

  lemma {:induction false} SecondStep()
    ensures Cycled(AddKey(K1, 0x00000005), INITKONST) == K2
  {
  }

  lemma {:induction false} LengthStep()
    ensures Cycled(AddKey(K2, 0x00000005), INITKONST) == K3
  {
  }

  lemma {:induction false} WordsOfKey()
    ensures KeyWords(KEY, 2) == [0x04030201, 0x00000005] && Length(KEY) == 5
  {
  }

  lemma {:induction false} KeyLoaded()
    ensures Loaded(K0, INITKONST, KEY) == K3
  {
    hide Cycled; hide AddKey; hide KeyWords; hide Length;
    WordsOfKey();
    FirstStep();
    SecondStep();
    LengthStep();
    AbsorbedNothing(K0, INITKONST);
    AbsorbedLast(K0, INITKONST, [], 0x04030201);
    AbsorbedLast(K0, INITKONST, [0x04030201], 0x00000005);
    AbsorbedLast(K0, INITKONST, [0x04030201, 0x00000005], 0x00000005);
    assert [] + [0x04030201] == [0x04030201] && [0x04030201] + [0x00000005] == [0x04030201, 0x00000005];
  }

  lemma {:induction false} AbsorbedNothing(R: Reg, konst: Word)
    ensures Absorbed(R, konst, []) == R
  {
  }

  lemma {:induction false} KeyedIs(initR: Reg)
    ensures Keyed(FIBONACCI, initR, KEY) == RawState(S0, K3, initR, KONST, 0xc259cf1f, 0, 0)
  {
    hide Cycled; hide Diffused; hide Loaded; hide XorReg; hide KeyStream;
    Start();
    KeyLoaded();
    Diffused16();
    KeyedRegister();
  }

  lemma {:induction false} KeyedRegister()
    ensures XorReg(D16, K3) == S0 && S0[0] == KONST && KeyStream(D16) == 0xc259cf1f
  {
    KeyedWord();
    RegisterSum();
    hide KeyStream; hide XorReg;
  }

  lemma {:induction false} RegisterSum()
    ensures XorReg(D16, K3) == S0
  {
    Sums(D16, K3, S0);
  }

  /** Sixteen sums, one by one. */
  lemma {:induction false} Sums(a: Reg, b: Reg, c: Reg)
    requires XorW(a[0], b[0]) == c[0] && XorW(a[1], b[1]) == c[1] && XorW(a[2], b[2]) == c[2]
    requires XorW(a[3], b[3]) == c[3] && XorW(a[4], b[4]) == c[4] && XorW(a[5], b[5]) == c[5]
    requires XorW(a[6], b[6]) == c[6] && XorW(a[7], b[7]) == c[7] && XorW(a[8], b[8]) == c[8]
    requires XorW(a[9], b[9]) == c[9] && XorW(a[10], b[10]) == c[10] && XorW(a[11], b[11]) == c[11]
    requires XorW(a[12], b[12]) == c[12] && XorW(a[13], b[13]) == c[13] && XorW(a[14], b[14]) == c[14]
    requires XorW(a[15], b[15]) == c[15]
    ensures XorReg(a, b) == c
  {
    hide XorW;
  }

  lemma {:induction false} KeyedWord()
    ensures KeyStream(D16) == 0xc259cf1f
  {
  }

  // ---------------------------------------------------------------- five bytes

  lemma {:induction false} WordParts()
    ensures Cycled(S0, KONST) == S1 && KeyStream(S1) == 0x2418f871
    ensures Join(0x48, 0x65, 0x6c, 0x6c) == 0x6c6c6548
    ensures WordBytes(XorW(0x6c6c6548, 0x2418f871)) == [0x39, 0x9d, 0x74, 0x48]
    ensures Crc(K3, 0x6c6c6548) == C1
  {
  }

  function AfterWord(initR: Reg): (s: State)
    ensures s.nbuf == 0
  {
    RawState(AddKey(S1, 0x6c6c6548), C1, initR, KONST, 0x2418f871, 0, 0)
  }

  lemma {:induction false} FirstWord(initR: Reg)
    ensures Run(Keyed(FIBONACCI, initR, KEY), TEXT[..4], Encrypting) == Result(AfterWord(initR), CIPHERTEXT[..4])
  {
    hide Run; hide Cycled; hide KeyStream; hide AddKey; hide Crc; hide Join; hide WordBytes; hide XorW; hide Keyed;
    KeyedIs(initR);
    WordParts();
    WordStep(Keyed(FIBONACCI, initR, KEY), TEXT[..4], Encrypting);
    assert CIPHERTEXT[..4] == [0x39, 0x9d, 0x74, 0x48];
  }

  lemma {:induction false} ByteParts()
    ensures Cycled(AddKey(S1, 0x6c6c6548), KONST) == S2 && KeyStream(S2) == 0xb876fe0c
    ensures XorLane(0x6f, 0xb876fe0c, 0) == 0x63 && XorIntoLane(0, 0x6f, 0) == 0x6f
  {
  }

  function AfterText(initR: Reg): (s: State)
    ensures s.nbuf == 24
  {
    RawState(S2, C1, initR, KONST, 0xb876fe0c, 0x6f, 24)
  }

  lemma {:induction false} LastByte(initR: Reg)
    ensures Run(AfterWord(initR), [0x6f], Encrypting) == Result(AfterText(initR), [0x63])
  {
    hide Cycled; hide KeyStream; hide AddKey; hide Crc; hide XorLane; hide XorIntoLane;
    ByteParts();
    var s := AfterWord(initR);
    assert Refilled(s) == RawState(S2, C1, initR, KONST, 0xb876fe0c, 0, 32);
    assert Step(s, 0x6f, Encrypting) == (AfterText(initR), 0x63);
    hide Step;
    RunNone(s, Encrypting);
    RunLast(s, [], 0x6f, Encrypting);
    assert [] + [0x6f as Byte] == [0x6f];
  }

  // ---------------------------------------------------------------- the MAC

  lemma {:induction false} MacParts()
    ensures Cycled(AddKey(S2, 0x6f), KONST) == S3 && Crc(C1, 0x6f) == C2
    ensures XorReg(AddKey(S3, XorW(INITKONST, 192)), C2) == M0
  {
    MacSum();
    hide XorReg;
  }

  lemma {:induction false} MacSum()
    ensures XorReg(AddKey(S3, XorW(INITKONST, 192)), C2) == M0
  {
  }

  lemma {:induction false} MacWords()
    ensures Cycled(M16, KONST) == M17 && WordBytes(KeyStream(M17)) == MAC
  {
  }

  lemma {:induction false} SealedIs(initR: Reg)
    ensures Sealed(AfterText(initR)) == M16
  {
    hide Cycled; hide Diffused; hide AddKey; hide Crc; hide XorReg; hide XorW;
    MacParts();
    Mixed16();
  }

  lemma {:induction false} MacIs(initR: Reg)
    ensures Shannon.Mac(AfterText(initR), 4) == MAC
  {
    hide Cycled; hide Sealed; hide KeyStream; hide Lane;
    MacWords();
    SealedIs(initR);
    DiffusedOnce(M16, KONST, M17);
    hide Diffused;
    assert forall i :: 0 <= i < 4 ==> Shannon.Mac(AfterText(initR), 4)[i] == WordBytes(KeyStream(M17))[i];
  }

  /** The example: what a context keyed with KEY makes of TEXT, and the MAC it then gives. */
  lemma {:induction false} Example(initR: Reg)
    ensures var r := Run(Keyed(FIBONACCI, initR, KEY), TEXT, Encrypting);
            r.text == CIPHERTEXT && Shannon.Mac(r.ctx, 4) == MAC
  {
    hide Run; hide Keyed; hide Mac; hide AfterWord; hide AfterText;
    FirstWord(initR);
    LastByte(initR);
    MacIs(initR);
    RunInPieces(Keyed(FIBONACCI, initR, KEY), TEXT[..4], TEXT[4..], Encrypting);
    assert TEXT[..4] + TEXT[4..] == TEXT && TEXT[4..] == [0x6f];
    assert CIPHERTEXT[..4] + [0x63] == CIPHERTEXT;
  }
}
