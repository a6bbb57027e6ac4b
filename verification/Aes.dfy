/** The table-driven AES of libopenspotify/aes.c (the looped form). */
module Aes {
  import opened Words
  import opened AesSpec

  // ---------------------------------------------------------------- words as columns

  function ColOf(w: Word): Col {
    Col(Lane(w, 24), Lane(w, 16), Lane(w, 8), Lane(w, 0))
  }

  function WordOf(c: Col): Word {
    Join(c.b3, c.b2, c.b1, c.b0)
  }

  lemma {:induction false} ColOfWord(c: Col)
    ensures ColOf(WordOf(c)) == c
  {
    hide Lane; hide Join;
    LanesOfJoin(c.b3, c.b2, c.b1, c.b0);
  }

  lemma {:induction false} LaneXor(a: Word, b: Word, bits: int)
    requires IsByteShift(bits)
    ensures Lane(XorW(a, b), bits) == XorB(Lane(a, bits), Lane(b, bits))
  {
    if bits == 0 {
    } else if bits == 8 {
    } else if bits == 16 {
    } else {
    }
  }

  lemma {:induction false} ColXor(a: Word, b: Word)
    ensures ColOf(XorW(a, b)) == XorCol(ColOf(a), ColOf(b))
  {
    hide Lane; hide XorB; hide XorW;
    LaneXor(a, b, 24);
    LaneXor(a, b, 16);
    LaneXor(a, b, 8);
    LaneXor(a, b, 0);
  }

  function BlockOf(w0: Word, w1: Word, w2: Word, w3: Word): Block {
    Block(ColOf(w0), ColOf(w1), ColOf(w2), ColOf(w3))
  }

  // ---------------------------------------------------------------- the tables, by their defining formulas

  function Te0(box: Box, x: Byte): Word { var s := box.fwd(x); WordOf(Col(Mul2(s), s, s, Mul3(s))) }

  function Te1(box: Box, x: Byte): Word { var s := box.fwd(x); WordOf(Col(Mul3(s), Mul2(s), s, s)) }

  function Te2(box: Box, x: Byte): Word { var s := box.fwd(x); WordOf(Col(s, Mul3(s), Mul2(s), s)) }

  function Te3(box: Box, x: Byte): Word { var s := box.fwd(x); WordOf(Col(s, s, Mul3(s), Mul2(s))) }

  function Te4(box: Box, x: Byte): Word { var s := box.fwd(x); WordOf(Col(s, s, s, s)) }

  function Td0(box: Box, x: Byte): Word { var s := box.inv(x); WordOf(Col(MulE(s), Mul9(s), MulD(s), MulB(s))) }

  function Td1(box: Box, x: Byte): Word { var s := box.inv(x); WordOf(Col(MulB(s), MulE(s), Mul9(s), MulD(s))) }

  function Td2(box: Box, x: Byte): Word { var s := box.inv(x); WordOf(Col(MulD(s), MulB(s), MulE(s), Mul9(s))) }

  function Td3(box: Box, x: Byte): Word { var s := box.inv(x); WordOf(Col(Mul9(s), MulD(s), MulB(s), MulE(s))) }

  function Td4(box: Box, x: Byte): Word { var s := box.inv(x); WordOf(Col(s, s, s, s)) }

  /** `w & (0xff << bits)`. */
  function Mask(w: Word, bits: int): Word
    requires IsByteShift(bits)
  {
    if bits == 0 then w & 0xFF else if bits == 8 then w & 0xFF00 else if bits == 16 then w & 0xFF_0000
      else w & 0xFF00_0000
  }

  lemma {:induction false} LaneMask(w: Word, bits: int, lane: int)
    requires IsByteShift(bits) && IsByteShift(lane)
    ensures Lane(Mask(w, bits), lane) == if lane == bits then Lane(w, lane) else 0
  {
    if lane == 0 {
    } else if lane == 8 {
    } else if lane == 16 {
    } else {
    }
  }

  /** The combination of four words that every step ends with. */
  function Sum5(a: Word, b: Word, c: Word, d: Word, k: Word): Word {
    XorW(XorW(XorW(XorW(a, b), c), d), k)
  }

  lemma {:induction false} ColSum5(a: Word, b: Word, c: Word, d: Word, k: Word)
    ensures ColOf(Sum5(a, b, c, d, k)) == XorCol(XorCol(XorCol(XorCol(ColOf(a), ColOf(b)), ColOf(c)), ColOf(d)),
            ColOf(k))
  {
    hide ColOf; hide XorW; hide XorCol;
    ColXor(a, b);
    ColXor(XorW(a, b), c);
    ColXor(XorW(XorW(a, b), c), d);
    ColXor(XorW(XorW(XorW(a, b), c), d), k);
  }

  /** One word of a full encryption round. */
  function EncWord(box: Box, a: Word, b: Word, c: Word, d: Word, k: Word): Word {
    Sum5(Te0(box, Lane(a, 24)), Te1(box, Lane(b, 16)), Te2(box, Lane(c, 8)), Te3(box, Lane(d, 0)), k)
  }

  /** One word of the last encryption round. */
  function EncLast(box: Box, a: Word, b: Word, c: Word, d: Word, k: Word): Word {
    Sum5(Mask(Te4(box, Lane(a, 24)), 24), Mask(Te4(box, Lane(b, 16)), 16), Mask(Te4(box, Lane(c, 8)), 8),
      Mask(Te4(box, Lane(d, 0)), 0), k)
  }

  function DecWord(box: Box, a: Word, b: Word, c: Word, d: Word, k: Word): Word {
    Sum5(Td0(box, Lane(a, 24)), Td1(box, Lane(b, 16)), Td2(box, Lane(c, 8)), Td3(box, Lane(d, 0)), k)
  }

  function DecLast(box: Box, a: Word, b: Word, c: Word, d: Word, k: Word): Word {
    Sum5(Mask(Td4(box, Lane(a, 24)), 24), Mask(Td4(box, Lane(b, 16)), 16), Mask(Td4(box, Lane(c, 8)), 8),
      Mask(Td4(box, Lane(d, 0)), 0), k)
  }

  /** The table lookups of a round add up to MixColumns of the substituted column. */
  lemma {:induction false} EncWordIs(box: Box, a: Word, b: Word, c: Word, d: Word, k: Word)
    ensures ColOf(EncWord(box, a, b, c, d, k))
            == XorCol(MixCol(SubCol(box.fwd, Col(ColOf(a).b0, ColOf(b).b1, ColOf(c).b2, ColOf(d).b3))), ColOf(k))
  {
    hide WordOf; hide XorB; hide XorW; hide Lane; hide Mul2; hide Mul3; hide Sum5;
    var s0, s1, s2, s3 := box.fwd(Lane(a, 24)), box.fwd(Lane(b, 16)), box.fwd(Lane(c, 8)), box.fwd(Lane(d, 0));
    ColSum5(Te0(box, Lane(a, 24)), Te1(box, Lane(b, 16)), Te2(box, Lane(c, 8)), Te3(box, Lane(d, 0)), k);
    ColOfWord(Col(Mul2(s0), s0, s0, Mul3(s0)));
    ColOfWord(Col(Mul3(s1), Mul2(s1), s1, s1));
    ColOfWord(Col(s2, Mul3(s2), Mul2(s2), s2));
    ColOfWord(Col(s3, s3, Mul3(s3), Mul2(s3)));
  }

  lemma {:induction false} DecWordIs(box: Box, a: Word, b: Word, c: Word, d: Word, k: Word)
    ensures ColOf(DecWord(box, a, b, c, d, k))
            == XorCol(InvMixCol(SubCol(box.inv, Col(ColOf(a).b0, ColOf(b).b1, ColOf(c).b2, ColOf(d).b3))), ColOf(k))
  {
    hide WordOf; hide XorB; hide XorW; hide Lane; hide Mul9; hide MulB; hide MulD; hide MulE; hide Sum5;
    var s0, s1, s2, s3 := box.inv(Lane(a, 24)), box.inv(Lane(b, 16)), box.inv(Lane(c, 8)), box.inv(Lane(d, 0));
    ColSum5(Td0(box, Lane(a, 24)), Td1(box, Lane(b, 16)), Td2(box, Lane(c, 8)), Td3(box, Lane(d, 0)), k);
    ColOfWord(Col(MulE(s0), Mul9(s0), MulD(s0), MulB(s0)));
    ColOfWord(Col(MulB(s1), MulE(s1), Mul9(s1), MulD(s1)));
    ColOfWord(Col(MulD(s2), MulB(s2), MulE(s2), Mul9(s2)));
    ColOfWord(Col(Mul9(s3), MulD(s3), MulB(s3), MulE(s3)));
  }

  /** Four masked lookups put one byte in each row. */
  lemma {:induction false} MaskedIs(a: Word, b: Word, c: Word, d: Word, k: Word)
    ensures ColOf(Sum5(Mask(a, 24), Mask(b, 16), Mask(c, 8), Mask(d, 0), k))
            == XorCol(Col(Lane(a, 24), Lane(b, 16), Lane(c, 8), Lane(d, 0)), ColOf(k))
  {
    hide XorB; hide XorW; hide Lane; hide Mask; hide Sum5;
    ColSum5(Mask(a, 24), Mask(b, 16), Mask(c, 8), Mask(d, 0), k);
    MaskCol(a, 24);
    MaskCol(b, 16);
    MaskCol(c, 8);
    MaskCol(d, 0);
    XorBZero(Lane(a, 24));
    XorBZero(Lane(b, 16));
    XorBZero(Lane(c, 8));
    XorBZero(Lane(d, 0));
    XorBZero(0);
  }

  lemma {:induction false} MaskCol(w: Word, bits: int)
    requires IsByteShift(bits)
    ensures var c := ColOf(w);
            ColOf(Mask(w, bits)) == Col(if bits == 24 then c.b0 else 0, if bits == 16 then c.b1 else 0, if bits == 8
              then c.b2 else 0, if bits == 0 then c.b3 else 0)
  {
    hide Lane; hide Mask;
    LaneMask(w, bits, 24);
    LaneMask(w, bits, 16);
    LaneMask(w, bits, 8);
    LaneMask(w, bits, 0);
  }

  lemma {:induction false} EncLastIs(box: Box, a: Word, b: Word, c: Word, d: Word, k: Word)
    ensures ColOf(EncLast(box, a, b, c, d, k))
            == XorCol(SubCol(box.fwd, Col(ColOf(a).b0, ColOf(b).b1, ColOf(c).b2, ColOf(d).b3)), ColOf(k))
  {
    hide WordOf; hide XorCol; hide Lane; hide Sum5; hide Mask;
    var s0, s1, s2, s3 := box.fwd(Lane(a, 24)), box.fwd(Lane(b, 16)), box.fwd(Lane(c, 8)), box.fwd(Lane(d, 0));
    MaskedIs(Te4(box, Lane(a, 24)), Te4(box, Lane(b, 16)), Te4(box, Lane(c, 8)), Te4(box, Lane(d, 0)), k);
    ColOfWord(Col(s0, s0, s0, s0));
    ColOfWord(Col(s1, s1, s1, s1));
    ColOfWord(Col(s2, s2, s2, s2));
    ColOfWord(Col(s3, s3, s3, s3));
  }

  lemma {:induction false} DecLastIs(box: Box, a: Word, b: Word, c: Word, d: Word, k: Word)
    ensures ColOf(DecLast(box, a, b, c, d, k))
            == XorCol(SubCol(box.inv, Col(ColOf(a).b0, ColOf(b).b1, ColOf(c).b2, ColOf(d).b3)), ColOf(k))
  {
    hide WordOf; hide XorCol; hide Lane; hide Sum5; hide Mask;
    var s0, s1, s2, s3 := box.inv(Lane(a, 24)), box.inv(Lane(b, 16)), box.inv(Lane(c, 8)), box.inv(Lane(d, 0));
    MaskedIs(Td4(box, Lane(a, 24)), Td4(box, Lane(b, 16)), Td4(box, Lane(c, 8)), Td4(box, Lane(d, 0)), k);
    ColOfWord(Col(s0, s0, s0, s0));
    ColOfWord(Col(s1, s1, s1, s1));
    ColOfWord(Col(s2, s2, s2, s2));
    ColOfWord(Col(s3, s3, s3, s3));
  }

  // ---------------------------------------------------------------- rounds on four words

  lemma {:induction false} EncRoundIs(box: Box, s0: Word, s1: Word, s2: Word, s3: Word, k0: Word, k1: Word, k2: Word,
                                      k3: Word)
    ensures BlockOf(EncWord(box, s0, s1, s2, s3, k0), EncWord(box, s1, s2, s3, s0, k1),
                    EncWord(box, s2, s3, s0, s1, k2), EncWord(box, s3, s0, s1, s2, k3))
            == AddRoundKey(MixColumns(ShiftRows(SubBytes(box.fwd, BlockOf(s0, s1, s2, s3)))), BlockOf(k0, k1, k2, k3))
  {
    hide EncWord; hide ColOf; hide XorCol; hide MixCol;
    EncWordIs(box, s0, s1, s2, s3, k0);
    EncWordIs(box, s1, s2, s3, s0, k1);
    EncWordIs(box, s2, s3, s0, s1, k2);
    EncWordIs(box, s3, s0, s1, s2, k3);
  }

  lemma {:induction false} EncLastRoundIs(box: Box, s0: Word, s1: Word, s2: Word, s3: Word, k0: Word, k1: Word,
                                          k2: Word, k3: Word)
    ensures BlockOf(EncLast(box, s0, s1, s2, s3, k0), EncLast(box, s1, s2, s3, s0, k1),
                    EncLast(box, s2, s3, s0, s1, k2), EncLast(box, s3, s0, s1, s2, k3))
            == AddRoundKey(ShiftRows(SubBytes(box.fwd, BlockOf(s0, s1, s2, s3))), BlockOf(k0, k1, k2, k3))
  {
    hide EncLast; hide ColOf; hide XorCol;
    EncLastIs(box, s0, s1, s2, s3, k0);
    EncLastIs(box, s1, s2, s3, s0, k1);
    EncLastIs(box, s2, s3, s0, s1, k2);
    EncLastIs(box, s3, s0, s1, s2, k3);
  }

  lemma {:induction false} DecRoundIs(box: Box, s0: Word, s1: Word, s2: Word, s3: Word, k0: Word, k1: Word, k2: Word,
                                      k3: Word)
    ensures BlockOf(DecWord(box, s0, s3, s2, s1, k0), DecWord(box, s1, s0, s3, s2, k1),
                    DecWord(box, s2, s1, s0, s3, k2), DecWord(box, s3, s2, s1, s0, k3))
            == AddRoundKey(InvMixColumns(InvShiftRows(SubBytes(box.inv, BlockOf(s0, s1, s2, s3)))),
              BlockOf(k0, k1, k2, k3))
  {
    hide DecWord; hide ColOf; hide XorCol; hide InvMixCol;
    DecWordIs(box, s0, s3, s2, s1, k0);
    DecWordIs(box, s1, s0, s3, s2, k1);
    DecWordIs(box, s2, s1, s0, s3, k2);
    DecWordIs(box, s3, s2, s1, s0, k3);
  }

  lemma {:induction false} DecLastRoundIs(box: Box, s0: Word, s1: Word, s2: Word, s3: Word, k0: Word, k1: Word,
                                          k2: Word, k3: Word)
    ensures BlockOf(DecLast(box, s0, s3, s2, s1, k0), DecLast(box, s1, s0, s3, s2, k1),
                    DecLast(box, s2, s1, s0, s3, k2), DecLast(box, s3, s2, s1, s0, k3))
            == AddRoundKey(InvShiftRows(SubBytes(box.inv, BlockOf(s0, s1, s2, s3))), BlockOf(k0, k1, k2, k3))
  {
    hide DecLast; hide ColOf; hide XorCol;
    DecLastIs(box, s0, s3, s2, s1, k0);
    DecLastIs(box, s1, s0, s3, s2, k1);
    DecLastIs(box, s2, s1, s0, s3, k2);
    DecLastIs(box, s3, s2, s1, s0, k3);
  }

  lemma {:induction false} AddKeyIs(s0: Word, s1: Word, s2: Word, s3: Word, k0: Word, k1: Word, k2: Word, k3: Word)
    ensures BlockOf(XorW(s0, k0), XorW(s1, k1), XorW(s2, k2), XorW(s3, k3)) ==
              AddRoundKey(BlockOf(s0, s1, s2, s3), BlockOf(k0, k1, k2, k3))
  {
    hide XorW; hide ColOf; hide XorCol;
    ColXor(s0, k0);
    ColXor(s1, k1);
    ColXor(s2, k2);
    ColXor(s3, k3);
  }

  // ---------------------------------------------------------------- blocks and schedules in memory

  /** GETU32. */
  function GetWord(b: seq<Byte>, at: nat): Word
    requires at + 4 <= |b|
  {
    Join(b[at + 3], b[at + 2], b[at + 1], b[at])
  }

  function BlockIn(b: seq<Byte>): Block
    requires |b| >= 16
  {
    BlockOf(GetWord(b, 0), GetWord(b, 4), GetWord(b, 8), GetWord(b, 12))
  }

  function RoundKey(w: seq<Word>, i: nat): Block
    requires 4 * i + 4 <= |w|
  {
    BlockOf(w[4 * i], w[4 * i + 1], w[4 * i + 2], w[4 * i + 3])
  }

  /** The round keys of a schedule for `n` rounds. */
  function RoundKeys(w: seq<Word>, n: nat): (k: seq<Block>)
    requires 4 * (n + 1) <= |w|
    ensures |k| == n + 1
  {
    seq(n + 1, i requires 0 <= i < n + 1 => RoundKey(w, i))
  }

  /** PUTU32. */
  method PutWord(b: array<Byte>, at: nat, w: Word)
    requires at + 4 <= b.Length
    modifies b
    ensures forall i :: 0 <= i < b.Length && !(at <= i < at + 4) ==> b[i] == old(b[i])
    ensures GetWord(b[..], at) == w
  {
    hide Lane; hide Join;
    JoinOfLanes(w);
    b[at], b[at + 1], b[at + 2], b[at + 3] := Lane(w, 24), Lane(w, 16), Lane(w, 8), Lane(w, 0);
  }

  method PutBlock(b: array<Byte>, s0: Word, s1: Word, s2: Word, s3: Word)
    requires b.Length >= 16
    modifies b
    ensures BlockIn(b[..]) == BlockOf(s0, s1, s2, s3)
    ensures forall i :: 16 <= i < b.Length ==> b[i] == old(b[i])
  {
    hide Join; hide BlockOf;
    PutWord(b, 0, s0);
    PutWord(b, 4, s1);
    PutWord(b, 8, s2);
    PutWord(b, 12, s3);
  }

  /** rijndaelEncrypt computes the cipher of FIPS 197, for every even number of rounds. */
  method Encrypt(box: Box, rk: array<Word>, nr: nat, pt: array<Byte>, ct: array<Byte>)
    requires nr >= 2 && nr % 2 == 0 && rk.Length >= 4 * (nr + 1) && pt.Length >= 16 && ct.Length >= 16
    modifies ct
    ensures BlockIn(ct[..]) == Cipher(box, RoundKeys(rk[..], nr), old(BlockIn(pt[..])))
    ensures forall i :: 16 <= i < ct.Length ==> ct[i] == old(ct[i])
  {
    hide EncWord; hide EncLast; hide BlockOf; hide GetWord; hide XorW; hide Rounds; hide AddRoundKey; hide SubBytes;
    hide MixColumns; hide ShiftRows;
    ghost var keys, plain := RoundKeys(rk[..], nr), BlockIn(pt[..]);
    var s0 := XorW(GetWord(pt[..], 0), rk[0]);
    var s1 := XorW(GetWord(pt[..], 4), rk[1]);
    var s2 := XorW(GetWord(pt[..], 8), rk[2]);
    var s3 := XorW(GetWord(pt[..], 12), rk[3]);
    AddKeyIs(GetWord(pt[..], 0), GetWord(pt[..], 4), GetWord(pt[..], 8), GetWord(pt[..], 12), rk[0], rk[1], rk[2],
      rk[3]);
    RoundsStart(box, keys, plain);
    var t0, t1, t2, t3;
    var r, at := nr / 2, 0;
    ghost var i := 0;
    while true
      invariant 0 < r && i + 2 * r == nr && at == 4 * i
      invariant BlockOf(s0, s1, s2, s3) == Rounds(box, keys, plain, i) && ct[..] == old(ct[..])
      decreases r
    {
      EncRoundIs(box, s0, s1, s2, s3, rk[at + 4], rk[at + 5], rk[at + 6], rk[at + 7]);
      RoundsStep(box, keys, plain, i);
      t0 := EncWord(box, s0, s1, s2, s3, rk[at + 4]);
      t1 := EncWord(box, s1, s2, s3, s0, rk[at + 5]);
      t2 := EncWord(box, s2, s3, s0, s1, rk[at + 6]);
      t3 := EncWord(box, s3, s0, s1, s2, rk[at + 7]);
      at := at + 8;
      i := i + 2;
      r := r - 1;
      if r == 0 {
        break;
      }
      EncRoundIs(box, t0, t1, t2, t3, rk[at], rk[at + 1], rk[at + 2], rk[at + 3]);
      RoundsStep(box, keys, plain, i - 1);
      s0 := EncWord(box, t0, t1, t2, t3, rk[at]);
      s1 := EncWord(box, t1, t2, t3, t0, rk[at + 1]);
      s2 := EncWord(box, t2, t3, t0, t1, rk[at + 2]);
      s3 := EncWord(box, t3, t0, t1, t2, rk[at + 3]);
    }
    EncLastRoundIs(box, t0, t1, t2, t3, rk[at], rk[at + 1], rk[at + 2], rk[at + 3]);
    s0 := EncLast(box, t0, t1, t2, t3, rk[at]);
    s1 := EncLast(box, t1, t2, t3, t0, rk[at + 1]);
    s2 := EncLast(box, t2, t3, t0, t1, rk[at + 2]);
    s3 := EncLast(box, t3, t0, t1, t2, rk[at + 3]);
    PutBlock(ct, s0, s1, s2, s3);
  }

  /** rijndaelDecrypt computes the equivalent inverse cipher of FIPS 197, for every even number of rounds. */
  method Decrypt(box: Box, rk: array<Word>, nr: nat, ct: array<Byte>, pt: array<Byte>)
    requires nr >= 2 && nr % 2 == 0 && rk.Length >= 4 * (nr + 1) && ct.Length >= 16 && pt.Length >= 16
    modifies pt
    ensures BlockIn(pt[..]) == EqInvCipher(box, RoundKeys(rk[..], nr), old(BlockIn(ct[..])))
    ensures forall i :: 16 <= i < pt.Length ==> pt[i] == old(pt[i])
  {
    hide DecWord; hide DecLast; hide BlockOf; hide GetWord; hide XorW; hide InvRounds; hide AddRoundKey; hide SubBytes;
    hide InvMixColumns; hide InvShiftRows;
    ghost var keys, text := RoundKeys(rk[..], nr), BlockIn(ct[..]);
    var s0 := XorW(GetWord(ct[..], 0), rk[0]);
    var s1 := XorW(GetWord(ct[..], 4), rk[1]);
    var s2 := XorW(GetWord(ct[..], 8), rk[2]);
    var s3 := XorW(GetWord(ct[..], 12), rk[3]);
    AddKeyIs(GetWord(ct[..], 0), GetWord(ct[..], 4), GetWord(ct[..], 8), GetWord(ct[..], 12), rk[0], rk[1], rk[2],
      rk[3]);
    RoundsStart(box, keys, text);
    var t0, t1, t2, t3;
    var r, at := nr / 2, 0;
    ghost var i := 0;
    while true
      invariant 0 < r && i + 2 * r == nr && at == 4 * i
      invariant BlockOf(s0, s1, s2, s3) == InvRounds(box, keys, text, i) && pt[..] == old(pt[..])
      decreases r
    {
      DecRoundIs(box, s0, s1, s2, s3, rk[at + 4], rk[at + 5], rk[at + 6], rk[at + 7]);
      InvRoundsStep(box, keys, text, i);
      t0 := DecWord(box, s0, s3, s2, s1, rk[at + 4]);
      t1 := DecWord(box, s1, s0, s3, s2, rk[at + 5]);
      t2 := DecWord(box, s2, s1, s0, s3, rk[at + 6]);
      t3 := DecWord(box, s3, s2, s1, s0, rk[at + 7]);
      at := at + 8;
      i := i + 2;
      r := r - 1;
      if r == 0 {
        break;
      }
      DecRoundIs(box, t0, t1, t2, t3, rk[at], rk[at + 1], rk[at + 2], rk[at + 3]);
      InvRoundsStep(box, keys, text, i - 1);
      s0 := DecWord(box, t0, t3, t2, t1, rk[at]);
      s1 := DecWord(box, t1, t0, t3, t2, rk[at + 1]);
      s2 := DecWord(box, t2, t1, t0, t3, rk[at + 2]);
      s3 := DecWord(box, t3, t2, t1, t0, rk[at + 3]);
    }
    DecLastRoundIs(box, t0, t1, t2, t3, rk[at], rk[at + 1], rk[at + 2], rk[at + 3]);
    s0 := DecLast(box, t0, t3, t2, t1, rk[at]);
    s1 := DecLast(box, t1, t0, t3, t2, rk[at + 1]);
    s2 := DecLast(box, t2, t1, t0, t3, rk[at + 2]);
    s3 := DecLast(box, t3, t2, t1, t0, rk[at + 3]);
    PutBlock(pt, s0, s1, s2, s3);
  }

  lemma {:induction false} RoundsStart(box: Box, keys: seq<Block>, s: Block)
    requires keys != []
    ensures Rounds(box, keys, s, 0) == AddRoundKey(s, keys[0])
    ensures InvRounds(box, keys, s, 0) == AddRoundKey(s, keys[0])
  {
  }

  lemma {:induction false} RoundsStep(box: Box, keys: seq<Block>, s: Block, i: nat)
    requires i + 1 < |keys|
    ensures Rounds(box, keys, s, i + 1) == AddRoundKey(MixColumns(ShiftRows(SubBytes(box.fwd,
            Rounds(box, keys, s, i)))), keys[i + 1])
  {
    hide AddRoundKey; hide MixColumns; hide ShiftRows; hide SubBytes;
  }

  lemma {:induction false} InvRoundsStep(box: Box, keys: seq<Block>, s: Block, i: nat)
    requires i + 1 < |keys|
    ensures InvRounds(box, keys, s, i + 1)
            == AddRoundKey(InvMixColumns(InvShiftRows(SubBytes(box.inv, InvRounds(box, keys, s, i)))), keys[i + 1])
  {
    hide AddRoundKey; hide InvMixColumns; hide InvShiftRows; hide SubBytes;
  }

  // ---------------------------------------------------------------- the key schedule

  const RCON: seq<Word> := [
    0x0100_0000, 0x0200_0000, 0x0400_0000, 0x0800_0000, 0x1000_0000,
    0x2000_0000, 0x4000_0000, 0x8000_0000, 0x1B00_0000, 0x3600_0000
  ]

  lemma {:induction false} PowersOfX()
    ensures Power(0) == 1 && Power(1) == 2 && Power(2) == 4 && Power(3) == 8 && Power(4) == 0x10
    ensures Power(5) == 0x20 && Power(6) == 0x40 && Power(7) == 0x80 && Power(8) == 0x1B && Power(9) == 0x36
  {
    assert XTime(1) == 2 && XTime(2) == 4 && XTime(4) == 8 && XTime(8) == 0x10 && XTime(0x10) == 0x20;
    assert XTime(0x20) == 0x40 && XTime(0x40) == 0x80 && XTime(0x80) == 0x1B && XTime(0x1B) == 0x36;
    hide XTime;
    assert Power(1) == XTime(Power(0)) && Power(2) == XTime(Power(1)) && Power(3) == XTime(Power(2));
    assert Power(4) == XTime(Power(3)) && Power(5) == XTime(Power(4)) && Power(6) == XTime(Power(5));
    assert Power(7) == XTime(Power(6)) && Power(8) == XTime(Power(7)) && Power(9) == XTime(Power(8));
  }

  /** The literal table holds the round constants. */
  lemma {:induction false} RconIs(i: nat)
    requires i < 10
    ensures ColOf(RCON[i]) == Rcon(i + 1)
  {
    PowersOfX();
  }

  function Sum5Masked(base: Word, a: Word, b: Word, c: Word, d: Word): Word {
    Sum5(base, Mask(a, 24), Mask(b, 16), Mask(c, 8), Mask(d, 0))
  }

  lemma {:induction false} Sum5MaskedIs(base: Word, a: Word, b: Word, c: Word, d: Word)
    ensures ColOf(Sum5Masked(base, a, b, c, d))
            == XorCol(ColOf(base), Col(Lane(a, 24), Lane(b, 16), Lane(c, 8), Lane(d, 0)))
  {
    hide XorB; hide XorW; hide Lane; hide Mask; hide Sum5;
    ColSum5(base, Mask(a, 24), Mask(b, 16), Mask(c, 8), Mask(d, 0));
    MaskCol(a, 24);
    MaskCol(b, 16);
    MaskCol(c, 8);
    MaskCol(d, 0);
    var s := ColOf(base);
    XorBZero(s.b0);
    XorBZero(s.b1);
    XorBZero(s.b2);
    XorBZero(s.b3);
    XorBZero(XorB(s.b0, Lane(a, 24)));
    XorBZero(XorB(s.b1, Lane(b, 16)));
    XorBZero(XorB(s.b2, Lane(c, 8)));
  }

  /** `base` plus the substituted, rotated `temp`, plus a round constant. */
  function RotWord(box: Box, base: Word, temp: Word, rcon: Word): Word {
    XorW(Sum5Masked(base, Te4(box, Lane(temp, 16)), Te4(box, Lane(temp, 8)), Te4(box, Lane(temp, 0)),
      Te4(box, Lane(temp, 24))), rcon)
  }

  /** `base` plus the substituted `temp`. */
  function SubWord(box: Box, base: Word, temp: Word): Word {
    Sum5Masked(base, Te4(box, Lane(temp, 24)), Te4(box, Lane(temp, 16)), Te4(box, Lane(temp, 8)),
      Te4(box, Lane(temp, 0)))
  }

  lemma {:induction false} XorColAssociates(a: Col, b: Col, c: Col)
    ensures XorCol(XorCol(a, b), c) == XorCol(a, XorCol(b, c))
  {
    hide XorB;
    XorBAssociates(a.b0, b.b0, c.b0);
    XorBAssociates(a.b1, b.b1, c.b1);
    XorBAssociates(a.b2, b.b2, c.b2);
    XorBAssociates(a.b3, b.b3, c.b3);
  }

  lemma {:induction false} Te4Lanes(box: Box, x: Byte)
    ensures ColOf(Te4(box, x)) == Col(box.fwd(x), box.fwd(x), box.fwd(x), box.fwd(x))
  {
    hide Lane; hide Join;
    ColOfWord(Col(box.fwd(x), box.fwd(x), box.fwd(x), box.fwd(x)));
  }

  lemma {:induction false} RotWordIs(box: Box, base: Word, temp: Word, rcon: Word)
    ensures ColOf(RotWord(box, base, temp, rcon))
            == XorCol(ColOf(base), XorCol(SubCol(box.fwd, RotCol(ColOf(temp))), ColOf(rcon)))
  {
    hide XorB; hide XorW; hide Lane; hide Te4; hide Sum5Masked; hide XorCol;
    Te4Lanes(box, Lane(temp, 24));
    Te4Lanes(box, Lane(temp, 16));
    Te4Lanes(box, Lane(temp, 8));
    Te4Lanes(box, Lane(temp, 0));
    var a, b, c, d := Te4(box, Lane(temp, 16)), Te4(box, Lane(temp, 8)), Te4(box, Lane(temp, 0)),
      Te4(box, Lane(temp, 24));
    Sum5MaskedIs(base, a, b, c, d);
    ColXor(Sum5Masked(base, a, b, c, d), rcon);
    XorColAssociates(ColOf(base), SubCol(box.fwd, RotCol(ColOf(temp))), ColOf(rcon));
  }

  lemma {:induction false} SubWordIs(box: Box, base: Word, temp: Word)
    ensures ColOf(SubWord(box, base, temp)) == XorCol(ColOf(base), SubCol(box.fwd, ColOf(temp)))
  {
    hide XorB; hide XorW; hide Lane; hide Te4; hide Sum5Masked; hide XorCol;
    Te4Lanes(box, Lane(temp, 24));
    Te4Lanes(box, Lane(temp, 16));
    Te4Lanes(box, Lane(temp, 8));
    Te4Lanes(box, Lane(temp, 0));
    Sum5MaskedIs(base, Te4(box, Lane(temp, 24)), Te4(box, Lane(temp, 16)), Te4(box, Lane(temp, 8)),
      Te4(box, Lane(temp, 0)));
  }

  function Cols(w: seq<Word>): (c: seq<Col>)
    ensures |c| == |w|
  {
    seq(|w|, i requires 0 <= i < |w| => ColOf(w[i]))
  }

  /** The `nk` words of a cipher key. */
  function KeyCols(key: seq<Byte>, nk: nat): (c: seq<Col>)
    requires 4 * nk <= |key|
    ensures |c| == nk
  {
    seq(nk, i requires 0 <= i < nk => ColOf(GetWord(key, 4 * i)))
  }

  /** Word `m` of a schedule is word `d` of group `q`, for keys of `nk` words. */
  predicate IsPlace(nk: nat, q: nat, d: nat, m: nat) {
    d < nk && ((nk == 4 && m == 4 * q + d) || (nk == 6 && m == 6 * q + d) || (nk == 8 && m == 8 * q + d))
  }

  lemma {:induction false} PlaceDivMod(nk: nat, q: nat, d: nat, m: nat)
    requires IsPlace(nk, q, d, m)
    ensures m / nk == q && m % nk == d
  {
    if nk == 4 {
      assert m / 4 == q && m % 4 == d;
    } else if nk == 6 {
      assert m / 6 == q && m % 6 == d;
    } else {
      assert m / 8 == q && m % 8 == d;
    }
  }

  /** Assign the next word of the schedule. */
  method PutNext(box: Box, rk: array<Word>, m: nat, v: Word, ghost key: seq<Col>, ghost q: nat, ghost d: nat)
    requires 0 < |key| <= m < rk.Length && 0 < q && IsPlace(|key|, q, d, m) && Cols(rk[..m]) == Expansion(box, key, m)
    requires ColOf(v) == XorCol(ColOf(rk[m - |key|]), Schedule(box, ColOf(rk[m - 1]), q, d, |key|))
    modifies rk
    ensures Cols(rk[..m + 1]) == Expansion(box, key, m + 1) && rk[m] == v
    ensures forall i :: 0 <= i < rk.Length && i != m ==> rk[i] == old(rk[i])
  {
    hide ColOf; hide XorCol; hide Schedule; hide IsPlace;
    ghost var w := Cols(rk[..m]);
    PlaceDivMod(|key|, q, d, m);
    rk[m] := v;
    assert Cols(rk[..m + 1]) == w + [ColOf(v)];
  }

  /** A word that is the sum of its predecessor and the word one group back. */
  method PutSum(box: Box, rk: array<Word>, m: nat, nk: nat, ghost key: seq<Col>, ghost q: nat, ghost d: nat)
    requires 0 < |key| == nk <= m < rk.Length && 0 < q && IsPlace(nk, q, d, m)
             && Cols(rk[..m]) == Expansion(box, key, m)
    requires d != 0 && (nk > 6 ==> d != 4)
    modifies rk
    ensures Cols(rk[..m + 1]) == Expansion(box, key, m + 1)
    ensures forall i :: 0 <= i < rk.Length && i != m ==> rk[i] == old(rk[i])
  {
    hide ColOf; hide XorCol; hide IsPlace; hide Expansion; hide Cols; hide XorW;
    ColXor(rk[m - nk], rk[m - 1]);
    PutNext(box, rk, m, XorW(rk[m - nk], rk[m - 1]), key, q, d);
  }

  /** The first four words of a group: the loop body for 128-bit keys, and its part that all key lengths share. */
  method FourWords(box: Box, rk: array<Word>, at: nat, nk: nat, i: nat, ghost key: seq<Col>)
    requires |key| == nk && IsPlace(nk, i, 0, at) && i < 10 && at + nk + 4 <= rk.Length
    requires Cols(rk[..at + nk]) == Expansion(box, key, at + nk)
    modifies rk
    ensures Cols(rk[..at + nk + 4]) == Expansion(box, key, at + nk + 4)
    ensures forall j :: at + nk + 4 <= j < rk.Length ==> rk[j] == old(rk[j])
  {
    hide ColOf; hide XorCol; hide Expansion; hide Rcon; hide RotWord; hide RotCol; hide SubCol; hide Cols;
    var temp := rk[at + nk - 1];
    RconIs(i);
    RotWordIs(box, rk[at], temp, RCON[i]);
    PutNext(box, rk, at + nk, RotWord(box, rk[at], temp, RCON[i]), key, i + 1, 0);
    PutSum(box, rk, at + nk + 1, nk, key, i + 1, 1);
    PutSum(box, rk, at + nk + 2, nk, key, i + 1, 2);
    PutSum(box, rk, at + nk + 3, nk, key, i + 1, 3);
  }

  method Expand128(box: Box, rk: array<Word>, ghost key: seq<Col>)
    requires |key| == 4 && rk.Length >= 44 && Cols(rk[..4]) == Expansion(box, key, 4)
    modifies rk
    ensures Cols(rk[..44]) == Expansion(box, key, 44)
    ensures forall j :: 44 <= j < rk.Length ==> rk[j] == old(rk[j])
  {
    hide ColOf; hide Expansion; hide Cols;
    var i, at := 0, 0;
    while true
      invariant 0 <= i < 10 && at == 4 * i && Cols(rk[..at + 4]) == Expansion(box, key, at + 4)
      invariant forall j :: 44 <= j < rk.Length ==> rk[j] == old(rk[j])
      decreases 10 - i
    {
      FourWords(box, rk, at, 4, i, key);
      i := i + 1;
      if i == 10 {
        return;
      }
      at := at + 4;
    }
  }

  method Expand192(box: Box, rk: array<Word>, ghost key: seq<Col>)
    requires |key| == 6 && rk.Length >= 52 && Cols(rk[..6]) == Expansion(box, key, 6)
    modifies rk
    ensures Cols(rk[..52]) == Expansion(box, key, 52)
    ensures forall j :: 52 <= j < rk.Length ==> rk[j] == old(rk[j])
  {
    hide ColOf; hide Expansion; hide Cols;
    var i, at := 0, 0;
    while true
      invariant 0 <= i < 8 && at == 6 * i && Cols(rk[..at + 6]) == Expansion(box, key, at + 6)
      invariant forall j :: 52 <= j < rk.Length ==> rk[j] == old(rk[j])
      decreases 8 - i
    {
      FourWords(box, rk, at, 6, i, key);
      i := i + 1;
      if i == 8 {
        return;
      }
      PutSum(box, rk, at + 10, 6, key, i, 4);
      PutSum(box, rk, at + 11, 6, key, i, 5);
      at := at + 6;
    }
  }

  method Expand256(box: Box, rk: array<Word>, ghost key: seq<Col>)
    requires |key| == 8 && rk.Length >= 60 && Cols(rk[..8]) == Expansion(box, key, 8)
    modifies rk
    ensures Cols(rk[..60]) == Expansion(box, key, 60)
    ensures forall j :: 60 <= j < rk.Length ==> rk[j] == old(rk[j])
  {
    hide ColOf; hide Expansion; hide Cols; hide XorCol; hide SubWord; hide SubCol; hide RotCol; hide Rcon;
    var i, at := 0, 0;
    while true
      invariant 0 <= i < 7 && at == 8 * i && Cols(rk[..at + 8]) == Expansion(box, key, at + 8)
      invariant forall j :: 60 <= j < rk.Length ==> rk[j] == old(rk[j])
      decreases 7 - i
    {
      FourWords(box, rk, at, 8, i, key);
      i := i + 1;
      if i == 7 {
        return;
      }
      var temp := rk[at + 11];
      SubWordIs(box, rk[at + 4], temp);
      PutNext(box, rk, at + 12, SubWord(box, rk[at + 4], temp), key, i, 4);
      PutSum(box, rk, at + 13, 8, key, i, 5);
      PutSum(box, rk, at + 14, 8, key, i, 6);
      PutSum(box, rk, at + 15, 8, key, i, 7);
      at := at + 8;
    }
  }

  /** The number of words in a cipher key; any other key size is read as 256 bits and then refused. */
  function KeyWords(keyBits: int): nat {
    if keyBits == 128 then 4 else if keyBits == 192 then 6 else 8
  }

  function RoundsFor(keyBits: int): nat {
    if keyBits == 128 then 10 else if keyBits == 192 then 12 else if keyBits == 256 then 14 else 0
  }

  /** Copy words `from` to `to` of the cipher key to the front of the schedule. */
  method CopyKey(rk: array<Word>, cipherKey: seq<Byte>, from: nat, to: nat)
    requires from <= to <= rk.Length && 4 * to <= |cipherKey| && Cols(rk[..from]) == KeyCols(cipherKey, from)
    modifies rk
    ensures Cols(rk[..to]) == KeyCols(cipherKey, to)
    ensures forall j :: to <= j < rk.Length ==> rk[j] == old(rk[j])
  {
    hide ColOf; hide GetWord;
    for i := from to to
      invariant Cols(rk[..i]) == KeyCols(cipherKey, i)
      invariant forall j :: to <= j < rk.Length ==> rk[j] == old(rk[j])
    {
      rk[i] := GetWord(cipherKey, 4 * i);
      assert Cols(rk[..i + 1]) == Cols(rk[..i]) + [ColOf(rk[i])];
      assert KeyCols(cipherKey, i + 1) == KeyCols(cipherKey, i) + [ColOf(GetWord(cipherKey, 4 * i))];
    }
  }

  lemma {:induction false} ExpansionStart(box: Box, key: seq<Col>)
    requires key != []
    ensures Expansion(box, key, |key|) == key
  {
  }

  /** The round keys FIPS 197 derives from a cipher key. */
  ghost function ExpandedKeys(box: Box, cipherKey: seq<Byte>, keyBits: int): (k: seq<Block>)
    requires |cipherKey| >= 4 * KeyWords(keyBits)
    ensures |k| == RoundsFor(keyBits) + 1
  {
    KeysOf(Expansion(box, KeyCols(cipherKey, KeyWords(keyBits)), 4 * (RoundsFor(keyBits) + 1)), RoundsFor(keyBits) + 1)
  }

  lemma {:induction false} RoundKeysAre(w: seq<Word>, n: nat)
    requires 4 * (n + 1) <= |w|
    ensures RoundKeys(w, n) == KeysOf(Cols(w[..4 * (n + 1)]), n + 1)
  {
    hide ColOf;
  }

  /** rijndaelKeySetupEnc expands a key as FIPS 197 does. */
  method KeySetupEnc(box: Box, rk: array<Word>, cipherKey: seq<Byte>, keyBits: int) returns (nr: nat)
    requires |cipherKey| >= 4 * KeyWords(keyBits) && rk.Length >= 8 && rk.Length >= 4 * (RoundsFor(keyBits) + 1)
    modifies rk
    ensures nr == RoundsFor(keyBits)
    ensures nr != 0 ==> RoundKeys(rk[..], nr) == ExpandedKeys(box, cipherKey, keyBits)
  {
    hide ColOf; hide Expansion; hide Cols; hide GetWord; hide RoundKeys;
    assert Cols(rk[..0]) == KeyCols(cipherKey, 0);
    CopyKey(rk, cipherKey, 0, 4);
    if keyBits == 128 {
      ExpansionStart(box, KeyCols(cipherKey, 4));
      Expand128(box, rk, KeyCols(cipherKey, 4));
      RoundKeysAre(rk[..], 10);
      return 10;
    }
    CopyKey(rk, cipherKey, 4, 6);
    if keyBits == 192 {
      ExpansionStart(box, KeyCols(cipherKey, 6));
      Expand192(box, rk, KeyCols(cipherKey, 6));
      RoundKeysAre(rk[..], 12);
      return 12;
    }
    CopyKey(rk, cipherKey, 6, 8);
    if keyBits == 256 {
      ExpansionStart(box, KeyCols(cipherKey, 8));
      Expand256(box, rk, KeyCols(cipherKey, 8));
      RoundKeysAre(rk[..], 14);
      return 14;
    }
    return 0;
  }

  /** One word of the transformation of a round key: the lookup in Te4 cancels the inverse S-box inside Td. */
  function InvMixWord(box: Box, w: Word): Word {
    XorW(XorW(XorW(Td0(box, Lane(Te4(box, Lane(w, 24)), 0)), Td1(box, Lane(Te4(box, Lane(w, 16)), 0))),
              Td2(box, Lane(Te4(box, Lane(w, 8)), 0))), Td3(box, Lane(Te4(box, Lane(w, 0)), 0)))
  }

  lemma {:induction false} InvMixWordIs(box: Box, w: Word)
    requires Inverts(box)
    ensures ColOf(InvMixWord(box, w)) == InvMixCol(ColOf(w))
  {
    hide WordOf; hide XorB; hide XorW; hide Lane; hide Mul9; hide MulB; hide MulD; hide MulE; hide Te4;
    var s0, s1, s2, s3 := Lane(w, 24), Lane(w, 16), Lane(w, 8), Lane(w, 0);
    Te4Lanes(box, s0);
    Te4Lanes(box, s1);
    Te4Lanes(box, s2);
    Te4Lanes(box, s3);
    var a, b, c, d := Td0(box, box.fwd(s0)), Td1(box, box.fwd(s1)), Td2(box, box.fwd(s2)), Td3(box, box.fwd(s3));
    ColXor(a, b);
    ColXor(XorW(a, b), c);
    ColXor(XorW(XorW(a, b), c), d);
    ColOfWord(Col(MulE(s0), Mul9(s0), MulD(s0), MulB(s0)));
    ColOfWord(Col(MulB(s1), MulE(s1), Mul9(s1), MulD(s1)));
    ColOfWord(Col(MulD(s2), MulB(s2), MulE(s2), Mul9(s2)));
    ColOfWord(Col(Mul9(s3), MulD(s3), MulB(s3), MulE(s3)));
  }

  /** `w` is `v` with the four words at `i` and the four at `j` exchanged. */
  ghost predicate IsExchange(v: seq<Word>, w: seq<Word>, i: nat, j: nat)
    requires i + 4 <= j && j + 4 <= |v|
  {
    w == v[i := v[j]][i + 1 := v[j + 1]][i + 2 := v[j + 2]][i + 3 := v[j + 3]]
          [j := v[i]][j + 1 := v[i + 1]][j + 2 := v[i + 2]][j + 3 := v[i + 3]]
  }

  /** The first and the last `k` round keys of `was` are reversed, those between are not. */
  ghost predicate Reversing(was: seq<Word>, w: seq<Word>, nr: nat, k: nat)
    requires 4 * (nr + 1) <= |was| == |w|
  {
    && (forall x :: 0 <= x <= nr && (x < k || nr - x < k) ==> RoundKey(w, x) == RoundKey(was, nr - x))
    && (forall x :: k <= x <= nr - k ==> RoundKey(w, x) == RoundKey(was, x))
  }

  lemma {:induction false} ReverseOneMore(was: seq<Word>, v: seq<Word>, w: seq<Word>, nr: nat, k: nat)
    requires 4 * (nr + 1) <= |was| == |v| == |w| && 2 * k < nr
    requires Reversing(was, v, nr, k) && IsExchange(v, w, 4 * k, 4 * (nr - k))
    ensures Reversing(was, w, nr, k + 1)
  {
    hide IsExchange; hide RoundKey;
    Exchanged(v, w, k, nr - k);
  }

  method SwapWords(rk: array<Word>, i: nat, j: nat)
    requires i < j < rk.Length
    modifies rk
    ensures rk[..] == old(rk[..])[i := old(rk[j])][j := old(rk[i])]
  {
    var temp := rk[i];
    rk[i] := rk[j];
    rk[j] := temp;
  }

  /** Exchange the round keys at words `i` and `j`. */
  method SwapRoundKeys(rk: array<Word>, i: nat, j: nat)
    requires i + 4 <= j && j + 4 <= rk.Length
    modifies rk
    ensures IsExchange(old(rk[..]), rk[..], i, j)
  {
    SwapWords(rk, i, j);
    SwapWords(rk, i + 1, j + 1);
    SwapWords(rk, i + 2, j + 2);
    SwapWords(rk, i + 3, j + 3);
  }

  /** The order of the round keys is reversed in place. */
  method ReverseRoundKeys(rk: array<Word>, nr: nat)
    requires 4 * (nr + 1) <= rk.Length
    modifies rk
    ensures forall x :: 0 <= x <= nr ==> RoundKey(rk[..], x) == RoundKey(old(rk[..]), nr - x)
  {
    hide RoundKey; hide IsExchange; hide Reversing;
    ghost var was := rk[..];
    var i, j := 0, 4 * nr;
    NothingReversed(was, nr);
    ghost var k := 0;
    while i < j
      invariant i == 4 * k && i + j == 4 * nr && j >= i - 4
      invariant Reversing(was, rk[..], nr, k)
      decreases j - i
    {
      ghost var before := rk[..];
      SwapRoundKeys(rk, i, j);
      ReverseOneMore(was, before, rk[..], nr, k);
      i, j := i + 4, j - 4;
      k := k + 1;
    }
    AllReversed(was, rk[..], nr, k);
  }

  lemma {:induction false} NothingReversed(was: seq<Word>, nr: nat)
    requires 4 * (nr + 1) <= |was|
    ensures Reversing(was, was, nr, 0)
  {
    hide RoundKey;
  }

  lemma {:induction false} AllReversed(was: seq<Word>, w: seq<Word>, nr: nat, k: nat)
    requires 4 * (nr + 1) <= |was| == |w| && Reversing(was, w, nr, k) && 2 * k >= nr
    ensures forall x :: 0 <= x <= nr ==> RoundKey(w, x) == RoundKey(was, nr - x)
  {
    hide RoundKey;
  }

  lemma {:induction false} Exchanged(v: seq<Word>, w: seq<Word>, a: nat, b: nat)
    requires a < b && 4 * b + 4 <= |v| == |w|
    requires IsExchange(v, w, 4 * a, 4 * b)
    ensures RoundKey(w, a) == RoundKey(v, b) && RoundKey(w, b) == RoundKey(v, a)
    ensures forall x :: 0 <= x && 4 * x + 4 <= |v| && x != a && x != b ==> RoundKey(w, x) == RoundKey(v, x)
  {
    hide ColOf;
  }

  /** InvMixColumns is applied in place to every round key but the first and the last. */
  method TransformInnerKeys(box: Box, rk: array<Word>, nr: nat)
    requires Inverts(box) && 4 * (nr + 1) <= rk.Length
    modifies rk
    ensures forall x :: 0 <= x <= nr ==>
              RoundKey(rk[..], x) == if 0 < x < nr then InvMixColumns(RoundKey(old(rk[..]), x))
                else RoundKey(old(rk[..]), x)
  {
    hide ColOf; hide InvMixWord; hide InvMixCol; hide Inverts;
    ghost var was := rk[..];
    var at := 0;
    var i := 1;
    while i < nr
      invariant 1 <= i && (i <= nr || nr == 0) && at == 4 * (i - 1)
      invariant forall x :: 0 <= x <= nr ==>
                  RoundKey(rk[..], x) == if 0 < x < i then InvMixColumns(RoundKey(was, x)) else RoundKey(was, x)
    {
      at := at + 4;
      ghost var before := rk[..];
      rk[at] := InvMixWord(box, rk[at]);
      rk[at + 1] := InvMixWord(box, rk[at + 1]);
      rk[at + 2] := InvMixWord(box, rk[at + 2]);
      rk[at + 3] := InvMixWord(box, rk[at + 3]);
      KeyTransformed(box, before, rk[..], i);
      i := i + 1;
    }
  }

  lemma {:induction false} KeyTransformed(box: Box, v: seq<Word>, w: seq<Word>, i: nat)
    requires Inverts(box) && 4 * i + 4 <= |v|
    requires w == v[4 * i := InvMixWord(box, v[4 * i])][4 * i + 1 := InvMixWord(box, v[4 * i + 1])]
                   [4 * i + 2 := InvMixWord(box, v[4 * i + 2])][4 * i + 3 := InvMixWord(box, v[4 * i + 3])]
    ensures RoundKey(w, i) == InvMixColumns(RoundKey(v, i))
    ensures forall x :: 0 <= x && 4 * x + 4 <= |v| && x != i ==> RoundKey(w, x) == RoundKey(v, x)
  {
    hide ColOf; hide InvMixWord; hide InvMixCol; hide Inverts;
    InvMixWordIs(box, v[4 * i]);
    InvMixWordIs(box, v[4 * i + 1]);
    InvMixWordIs(box, v[4 * i + 2]);
    InvMixWordIs(box, v[4 * i + 3]);
  }

  /** rijndaelKeySetupDec leaves the schedule of the equivalent inverse cipher. */
  method KeySetupDec(box: Box, rk: array<Word>, cipherKey: seq<Byte>, keyBits: int) returns (nr: nat)
    requires Inverts(box)
    requires |cipherKey| >= 4 * KeyWords(keyBits) && rk.Length >= 8 && rk.Length >= 4 * (RoundsFor(keyBits) + 1)
    modifies rk
    ensures nr == RoundsFor(keyBits)
    ensures nr != 0 ==> RoundKeys(rk[..], nr) == DecryptionKeys(ExpandedKeys(box, cipherKey, keyBits))
  {
    hide RoundKey; hide InvMixColumns; hide ExpandedKeys; hide Inverts;
    nr := KeySetupEnc(box, rk, cipherKey, keyBits);
    ghost var keys := RoundKeys(rk[..], nr);
    ReverseRoundKeys(rk, nr);
    TransformInnerKeys(box, rk, nr);
    assert RoundKeys(rk[..], nr) == DecryptionKeys(keys);
  }

  /** Setting up both schedules from one key, decryption undoes encryption. */
  lemma {:induction false} DecryptWithKey(box: Box, cipherKey: seq<Byte>, keyBits: int, s: Block)
    requires Inverts(box) && keyBits in {128, 192, 256} && |cipherKey| >= 4 * KeyWords(keyBits)
    ensures var keys := ExpandedKeys(box, cipherKey, keyBits);
            EqInvCipher(box, DecryptionKeys(keys), Cipher(box, keys, s)) == s
  {
    hide EqInvCipher; hide Cipher; hide Inverts; hide DecryptionKeys; hide ExpandedKeys;
    DecryptUndoesEncrypt(box, ExpandedKeys(box, cipherKey, keyBits), s);
  }
}
