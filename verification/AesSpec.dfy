/** The AES cipher on columns of bytes, as FIPS 197 defines it, over an S-box that is left open. */
module AesSpec {
  import opened Words

  /** An S-box and the table used to invert it. */
  datatype Box = Box(fwd: Byte -> Byte, inv: Byte -> Byte)

  ghost predicate Inverts(box: Box) {
    forall x: Byte :: box.inv(box.fwd(x)) == x
  }

  /** One column of the state; `b0` is the top row. */
  datatype Col = Col(b0: Byte, b1: Byte, b2: Byte, b3: Byte)

  datatype Block = Block(c0: Col, c1: Col, c2: Col, c3: Col)

  // ---------------------------------------------------------------- multiplication by constants, section 4.2

  function XTime(b: Byte): Byte {
    (b << 1) ^ (if b & 0x80 != 0 then 0x1b else 0)
  }

  function Mul2(b: Byte): Byte { XTime(b) }

  function Mul3(b: Byte): Byte { XorB(XTime(b), b) }

  function Mul9(b: Byte): Byte { XorB(XTime(XTime(XTime(b))), b) }

  function MulB(b: Byte): Byte { XorB(XTime(XorB(XTime(XTime(b)), b)), b) }

  function MulD(b: Byte): Byte { XorB(XTime(XTime(XorB(XTime(b), b))), b) }

  function MulE(b: Byte): Byte { XTime(XorB(XTime(XorB(XTime(b), b)), b)) }

  function Sum(a: Byte, b: Byte, c: Byte, d: Byte): Byte {
    XorB(XorB(XorB(a, b), c), d)
  }

  // ---------------------------------------------------------------- the four transformations and their inverses,
  // sections 5.1 and 5.3

  function XorCol(a: Col, b: Col): Col {
    Col(XorB(a.b0, b.b0), XorB(a.b1, b.b1), XorB(a.b2, b.b2), XorB(a.b3, b.b3))
  }

  function AddRoundKey(s: Block, k: Block): Block {
    Block(XorCol(s.c0, k.c0), XorCol(s.c1, k.c1), XorCol(s.c2, k.c2), XorCol(s.c3, k.c3))
  }

  function SubCol(f: Byte -> Byte, c: Col): Col {
    Col(f(c.b0), f(c.b1), f(c.b2), f(c.b3))
  }

  function SubBytes(f: Byte -> Byte, s: Block): Block {
    Block(SubCol(f, s.c0), SubCol(f, s.c1), SubCol(f, s.c2), SubCol(f, s.c3))
  }

  /** Row `r` moves left by `r` columns. */
  function ShiftRows(s: Block): Block {
    Block(Col(s.c0.b0, s.c1.b1, s.c2.b2, s.c3.b3), Col(s.c1.b0, s.c2.b1, s.c3.b2, s.c0.b3),
          Col(s.c2.b0, s.c3.b1, s.c0.b2, s.c1.b3), Col(s.c3.b0, s.c0.b1, s.c1.b2, s.c2.b3))
  }

  function InvShiftRows(s: Block): Block {
    Block(Col(s.c0.b0, s.c3.b1, s.c2.b2, s.c1.b3), Col(s.c1.b0, s.c0.b1, s.c3.b2, s.c2.b3),
          Col(s.c2.b0, s.c1.b1, s.c0.b2, s.c3.b3), Col(s.c3.b0, s.c2.b1, s.c1.b2, s.c0.b3))
  }

  function MixCol(c: Col): Col {
    Col(Sum(Mul2(c.b0), Mul3(c.b1), c.b2, c.b3), Sum(c.b0, Mul2(c.b1), Mul3(c.b2), c.b3),
        Sum(c.b0, c.b1, Mul2(c.b2), Mul3(c.b3)), Sum(Mul3(c.b0), c.b1, c.b2, Mul2(c.b3)))
  }

  function InvMixCol(c: Col): Col {
    Col(Sum(MulE(c.b0), MulB(c.b1), MulD(c.b2), Mul9(c.b3)), Sum(Mul9(c.b0), MulE(c.b1), MulB(c.b2), MulD(c.b3)),
        Sum(MulD(c.b0), Mul9(c.b1), MulE(c.b2), MulB(c.b3)), Sum(MulB(c.b0), MulD(c.b1), Mul9(c.b2), MulE(c.b3)))
  }

  function MixColumns(s: Block): Block {
    Block(MixCol(s.c0), MixCol(s.c1), MixCol(s.c2), MixCol(s.c3))
  }

  function InvMixColumns(s: Block): Block {
    Block(InvMixCol(s.c0), InvMixCol(s.c1), InvMixCol(s.c2), InvMixCol(s.c3))
  }

  // ---------------------------------------------------------------- the cipher and the equivalent inverse cipher

  /** The state after the initial key addition and `i` full rounds. */
  function Rounds(box: Box, keys: seq<Block>, s: Block, i: nat): Block
    requires i < |keys|
  {
    if i == 0 then AddRoundKey(s, keys[0])
    else AddRoundKey(MixColumns(ShiftRows(SubBytes(box.fwd, Rounds(box, keys, s, i - 1)))), keys[i])
  }

  /** Section 5.1. */
  function Cipher(box: Box, keys: seq<Block>, s: Block): Block
    requires |keys| >= 2
  {
    var n := |keys| - 1;
    AddRoundKey(ShiftRows(SubBytes(box.fwd, Rounds(box, keys, s, n - 1))), keys[n])
  }

  function InvRounds(box: Box, keys: seq<Block>, s: Block, i: nat): Block
    requires i < |keys|
  {
    if i == 0 then AddRoundKey(s, keys[0])
    else AddRoundKey(InvMixColumns(InvShiftRows(SubBytes(box.inv, InvRounds(box, keys, s, i - 1)))), keys[i])
  }

  /** Section 5.3.5, with the round keys in the order in which it uses them. */
  function EqInvCipher(box: Box, keys: seq<Block>, s: Block): Block
    requires |keys| >= 2
  {
    var n := |keys| - 1;
    AddRoundKey(InvShiftRows(SubBytes(box.inv, InvRounds(box, keys, s, n - 1))), keys[n])
  }

  /** The decryption schedule: the encryption schedule reversed, its inner keys put through InvMixColumns. */
  function DecryptionKeys(keys: seq<Block>): (d: seq<Block>)
    ensures |d| == |keys|
  {
    seq(|keys|, i requires 0 <= i < |keys| =>
      var k := keys[|keys| - 1 - i];
      if i == 0 || i == |keys| - 1 then k else InvMixColumns(k))
  }

  // ---------------------------------------------------------------- key expansion, section 5.2

  function RotCol(c: Col): Col {
    Col(c.b1, c.b2, c.b3, c.b0)
  }

  /** Powers of x. */
  function Power(j: nat): Byte {
    if j == 0 then 1 else XTime(Power(j - 1))
  }

  function Rcon(j: nat): Col
    requires j > 0
  {
    Col(Power(j - 1), 0, 0, 0)
  }

  /** What is added to the word `nk` places back to make word `nk * q + d`; `last` is the word before it. */
  function Schedule(box: Box, last: Col, q: nat, d: nat, nk: nat): Col
    requires q > 0
  {
    if d == 0 then XorCol(SubCol(box.fwd, RotCol(last)), Rcon(q))
    else if nk > 6 && d == 4 then SubCol(box.fwd, last)
    else last
  }

  /** The first `n` words of the expansion of a key. */
  function Expansion(box: Box, key: seq<Col>, n: nat): (w: seq<Col>)
    requires key != []
    ensures |w| == n
  {
    if n <= |key| then key[..n]
    else
      var w := Expansion(box, key, n - 1);
      w + [XorCol(w[n - 1 - |key|], Schedule(box, w[n - 2], (n - 1) / |key|, (n - 1) % |key|, |key|))]
  }

  /** Four words make a round key. */
  function KeysOf(w: seq<Col>, n: nat): (k: seq<Block>)
    requires 4 * n <= |w|
    ensures |k| == n
  {
    seq(n, i requires 0 <= i < n => Block(w[4 * i], w[4 * i + 1], w[4 * i + 2], w[4 * i + 3]))
  }

  // ---------------------------------------------------------------- InvMixColumns is linear and inverts MixColumns

  lemma {:induction false} XTimeBits(b: Byte)
    ensures XTime(b) == (b << 1) ^ (b >> 7) ^ ((b >> 7) << 1) ^ ((b >> 7) << 3) ^ ((b >> 7) << 4)
  {
  }

  lemma {:induction false} XTimeLinear(a: Byte, b: Byte)
    ensures XTime(XorB(a, b)) == XorB(XTime(a), XTime(b))
  {
    hide XTime;
    XTimeBits(a);
    XTimeBits(b);
    XTimeBits(a ^ b);
  }

  lemma {:induction false} MulLinear(a: Byte, b: Byte)
    ensures Mul9(XorB(a, b)) == XorB(Mul9(a), Mul9(b)) && MulB(XorB(a, b)) == XorB(MulB(a), MulB(b))
    ensures MulD(XorB(a, b)) == XorB(MulD(a), MulD(b)) && MulE(XorB(a, b)) == XorB(MulE(a), MulE(b))
  {
    hide XTime; hide XorB;
    var a2, b2 := XTime(a), XTime(b);
    var a4, b4 := XTime(a2), XTime(b2);
    XTimeLinear(a, b);
    XTimeLinear(a2, b2);
    XTimeLinear(a4, b4);
    XorBSwap(XTime(a4), XTime(b4), a, b);
    XorBSwap(a4, b4, a, b);
    XTimeLinear(XorB(a4, a), XorB(b4, b));
    XorBSwap(XTime(XorB(a4, a)), XTime(XorB(b4, b)), a, b);
    XorBSwap(a2, b2, a, b);
    var a3, b3 := XorB(a2, a), XorB(b2, b);
    XTimeLinear(a3, b3);
    XTimeLinear(XTime(a3), XTime(b3));
    XorBSwap(XTime(XTime(a3)), XTime(XTime(b3)), a, b);
    XorBSwap(XTime(a3), XTime(b3), a, b);
    XTimeLinear(XorB(XTime(a3), a), XorB(XTime(b3), b));
  }

  lemma {:induction false} SumLinear(a0: Byte, a1: Byte, a2: Byte, a3: Byte, b0: Byte, b1: Byte, b2: Byte, b3: Byte)
    ensures Sum(XorB(a0, b0), XorB(a1, b1), XorB(a2, b2), XorB(a3, b3)) ==
              XorB(Sum(a0, a1, a2, a3), Sum(b0, b1, b2, b3))
  {
    hide XorB;
    XorBSwap(a0, b0, a1, b1);
    XorBSwap(XorB(a0, a1), XorB(b0, b1), a2, b2);
    XorBSwap(XorB(XorB(a0, a1), a2), XorB(XorB(b0, b1), b2), a3, b3);
  }

  /** InvMixColumns distributes over the addition of round keys. */
  lemma {:induction false} InvMixLinear(a: Col, b: Col)
    ensures InvMixCol(XorCol(a, b)) == XorCol(InvMixCol(a), InvMixCol(b))
  {
    hide XorB; hide Mul9; hide MulB; hide MulD; hide MulE; hide Sum;
    MulLinear(a.b0, b.b0);
    MulLinear(a.b1, b.b1);
    MulLinear(a.b2, b.b2);
    MulLinear(a.b3, b.b3);
    SumLinear(MulE(a.b0), MulB(a.b1), MulD(a.b2), Mul9(a.b3), MulE(b.b0), MulB(b.b1), MulD(b.b2), Mul9(b.b3));
    SumLinear(Mul9(a.b0), MulE(a.b1), MulB(a.b2), MulD(a.b3), Mul9(b.b0), MulE(b.b1), MulB(b.b2), MulD(b.b3));
    SumLinear(MulD(a.b0), Mul9(a.b1), MulE(a.b2), MulB(a.b3), MulD(b.b0), Mul9(b.b1), MulE(b.b2), MulB(b.b3));
    SumLinear(MulB(a.b0), MulD(a.b1), Mul9(a.b2), MulE(a.b3), MulB(b.b0), MulD(b.b1), Mul9(b.b2), MulE(b.b3));
  }

  /** The product of the two matrices is the identity, entry by entry. */
  lemma {:induction false} Coefficient0(x: Byte)
    ensures Sum(MulE(Mul2(x)), MulB(x), MulD(x), Mul9(Mul3(x))) == x
  {
  }

  lemma {:induction false} Coefficient1(x: Byte)
    ensures Sum(MulE(Mul3(x)), MulB(Mul2(x)), MulD(x), Mul9(x)) == 0
  {
  }

  lemma {:induction false} Coefficient2(x: Byte)
    ensures Sum(MulE(x), MulB(Mul3(x)), MulD(Mul2(x)), Mul9(x)) == 0
  {
  }

  lemma {:induction false} Coefficient3(x: Byte)
    ensures Sum(MulE(x), MulB(x), MulD(Mul3(x)), Mul9(Mul2(x))) == 0
  {
  }

  lemma {:induction false} SumRotates(a: Byte, b: Byte, c: Byte, d: Byte)
    ensures Sum(a, b, c, d) == Sum(b, c, d, a)
  {
    hide XorB;
    XorBAssociates(a, b, c);
    XorBAssociates(a, XorB(b, c), d);
    XorBCommutes(a, XorB(XorB(b, c), d));
  }

  lemma {:induction false} MulSum(a: Byte, b: Byte, c: Byte, d: Byte)
    ensures Mul9(Sum(a, b, c, d)) == Sum(Mul9(a), Mul9(b), Mul9(c), Mul9(d))
    ensures MulB(Sum(a, b, c, d)) == Sum(MulB(a), MulB(b), MulB(c), MulB(d))
    ensures MulD(Sum(a, b, c, d)) == Sum(MulD(a), MulD(b), MulD(c), MulD(d))
    ensures MulE(Sum(a, b, c, d)) == Sum(MulE(a), MulE(b), MulE(c), MulE(d))
  {
    hide XorB; hide Mul9; hide MulB; hide MulD; hide MulE;
    MulLinear(a, b);
    MulLinear(XorB(a, b), c);
    MulLinear(XorB(XorB(a, b), c), d);
  }

  /** Adding up a square by rows or by columns gives the same. */
  lemma {:induction false} SumTranspose(r0: Col, r1: Col, r2: Col, r3: Col)
    ensures Sum(Sum(r0.b0, r0.b1, r0.b2, r0.b3), Sum(r1.b0, r1.b1, r1.b2, r1.b3),
                Sum(r2.b0, r2.b1, r2.b2, r2.b3), Sum(r3.b0, r3.b1, r3.b2, r3.b3))
            == Sum(Sum(r0.b0, r1.b0, r2.b0, r3.b0), Sum(r0.b1, r1.b1, r2.b1, r3.b1),
                   Sum(r0.b2, r1.b2, r2.b2, r3.b2), Sum(r0.b3, r1.b3, r2.b3, r3.b3))
  {
    hide XorB;
    SumLinear(r0.b0, r0.b1, r0.b2, r0.b3, r1.b0, r1.b1, r1.b2, r1.b3);
    var s := XorCol(r0, r1);
    SumLinear(s.b0, s.b1, s.b2, s.b3, r2.b0, r2.b1, r2.b2, r2.b3);
    var t := XorCol(s, r2);
    SumLinear(t.b0, t.b1, t.b2, t.b3, r3.b0, r3.b1, r3.b2, r3.b3);
  }

  lemma {:induction false} RowInverse(a: Byte, b: Byte, c: Byte, d: Byte)
    ensures Sum(MulE(Sum(Mul2(a), Mul3(b), c, d)), MulB(Sum(a, Mul2(b), Mul3(c), d)),
                MulD(Sum(a, b, Mul2(c), Mul3(d))), Mul9(Sum(Mul3(a), b, c, Mul2(d)))) == a
  {
    hide XorB; hide Mul9; hide MulB; hide MulD; hide MulE; hide Mul2; hide Mul3;
    MulSum(Mul2(a), Mul3(b), c, d);
    MulSum(a, Mul2(b), Mul3(c), d);
    MulSum(a, b, Mul2(c), Mul3(d));
    MulSum(Mul3(a), b, c, Mul2(d));
    SumTranspose(Col(MulE(Mul2(a)), MulE(Mul3(b)), MulE(c), MulE(d)),
      Col(MulB(a), MulB(Mul2(b)), MulB(Mul3(c)), MulB(d)),
                 Col(MulD(a), MulD(b), MulD(Mul2(c)), MulD(Mul3(d))),
                   Col(Mul9(Mul3(a)), Mul9(b), Mul9(c), Mul9(Mul2(d))));
    Coefficient0(a);
    Coefficient1(b);
    Coefficient2(c);
    Coefficient3(d);
    assert Sum(a, 0, 0, 0) == a by { XorBZero(a); }
  }

  /** InvMixColumns undoes MixColumns. */
  lemma {:induction false} InvMixMix(c: Col)
    ensures InvMixCol(MixCol(c)) == c
  {
    hide XorB; hide Mul9; hide MulB; hide MulD; hide MulE; hide Mul2; hide Mul3; hide Sum;
    var m := MixCol(c);
    SumRotates(Mul2(c.b0), Mul3(c.b1), c.b2, c.b3);
    SumRotates(Mul3(c.b1), c.b2, c.b3, Mul2(c.b0));
    SumRotates(c.b2, c.b3, Mul2(c.b0), Mul3(c.b1));
    SumRotates(c.b0, Mul2(c.b1), Mul3(c.b2), c.b3);
    SumRotates(Mul2(c.b1), Mul3(c.b2), c.b3, c.b0);
    SumRotates(Mul3(c.b2), c.b3, c.b0, Mul2(c.b1));
    SumRotates(c.b0, c.b1, Mul2(c.b2), Mul3(c.b3));
    SumRotates(c.b1, Mul2(c.b2), Mul3(c.b3), c.b0);
    SumRotates(Mul2(c.b2), Mul3(c.b3), c.b0, c.b1);
    SumRotates(Mul3(c.b0), c.b1, c.b2, Mul2(c.b3));
    SumRotates(c.b1, c.b2, Mul2(c.b3), Mul3(c.b0));
    SumRotates(c.b2, Mul2(c.b3), Mul3(c.b0), c.b1);
    RowInverse(c.b0, c.b1, c.b2, c.b3);
    RowInverse(c.b1, c.b2, c.b3, c.b0);
    RowInverse(c.b2, c.b3, c.b0, c.b1);
    RowInverse(c.b3, c.b0, c.b1, c.b2);
    SumRotates(Mul9(m.b0), MulE(m.b1), MulB(m.b2), MulD(m.b3));
    SumRotates(MulD(m.b0), Mul9(m.b1), MulE(m.b2), MulB(m.b3));
    SumRotates(Mul9(m.b1), MulE(m.b2), MulB(m.b3), MulD(m.b0));
    SumRotates(MulB(m.b0), MulD(m.b1), Mul9(m.b2), MulE(m.b3));
    SumRotates(MulD(m.b1), Mul9(m.b2), MulE(m.b3), MulB(m.b0));
    SumRotates(Mul9(m.b2), MulE(m.b3), MulB(m.b0), MulD(m.b1));
  }

  // ---------------------------------------------------------------- the equivalent inverse cipher inverts the cipher

  lemma {:induction false} XorColTwice(a: Col, k: Col)
    ensures XorCol(XorCol(a, k), k) == a
  {
    hide XorB;
    XorBAssociates(a.b0, k.b0, k.b0);
    XorBAssociates(a.b1, k.b1, k.b1);
    XorBAssociates(a.b2, k.b2, k.b2);
    XorBAssociates(a.b3, k.b3, k.b3);
    XorBZero(k.b0);
    XorBZero(k.b1);
    XorBZero(k.b2);
    XorBZero(k.b3);
    XorBZero(a.b0);
    XorBZero(a.b1);
    XorBZero(a.b2);
    XorBZero(a.b3);
  }

  lemma {:induction false} AddTwice(s: Block, k: Block)
    ensures AddRoundKey(AddRoundKey(s, k), k) == s
  {
    hide XorCol;
    XorColTwice(s.c0, k.c0);
    XorColTwice(s.c1, k.c1);
    XorColTwice(s.c2, k.c2);
    XorColTwice(s.c3, k.c3);
  }

  lemma {:induction false} SubShiftInverse(box: Box, s: Block)
    requires Inverts(box)
    ensures InvShiftRows(SubBytes(box.inv, ShiftRows(SubBytes(box.fwd, s)))) == s
  {
  }

  /** InvMixColumns after a full round leaves the state before MixColumns, plus the transformed key. */
  lemma {:induction false} InvMixRound(s: Block, k: Block)
    ensures InvMixColumns(AddRoundKey(MixColumns(s), k)) == AddRoundKey(s, InvMixColumns(k))
  {
    hide MixCol; hide InvMixCol; hide XorCol;
    InvMixLinear(MixCol(s.c0), k.c0);
    InvMixLinear(MixCol(s.c1), k.c1);
    InvMixLinear(MixCol(s.c2), k.c2);
    InvMixLinear(MixCol(s.c3), k.c3);
    InvMixMix(s.c0);
    InvMixMix(s.c1);
    InvMixMix(s.c2);
    InvMixMix(s.c3);
  }

  /** After `j` full inverse rounds the state is that of the cipher `j` rounds earlier, before its MixColumns. */
  lemma {:induction false} InvRoundsUndo(box: Box, keys: seq<Block>, s: Block, j: nat)
    requires Inverts(box) && |keys| >= 2 && j < |keys| - 1
    ensures InvRounds(box, DecryptionKeys(keys), Cipher(box, keys, s), j)
            == ShiftRows(SubBytes(box.fwd, Rounds(box, keys, s, |keys| - 2 - j)))
  {
    hide SubBytes; hide ShiftRows; hide InvShiftRows; hide MixColumns; hide InvMixColumns; hide AddRoundKey;
    hide Inverts;
    var n := |keys| - 1;
    if j == 0 {
      AddTwice(ShiftRows(SubBytes(box.fwd, Rounds(box, keys, s, n - 1))), keys[n]);
    } else {
      InvRoundsUndo(box, keys, s, j - 1);
      var i := n - j;
      var before := ShiftRows(SubBytes(box.fwd, Rounds(box, keys, s, i - 1)));
      SubShiftInverse(box, Rounds(box, keys, s, i));
      InvMixRound(before, keys[i]);
      AddTwice(before, InvMixColumns(keys[i]));
    }
  }

  /** Decryption with the transformed schedule undoes encryption, for every number of rounds. */
  lemma {:induction false} DecryptUndoesEncrypt(box: Box, keys: seq<Block>, s: Block)
    requires Inverts(box) && |keys| >= 2
    ensures EqInvCipher(box, DecryptionKeys(keys), Cipher(box, keys, s)) == s
  {
    hide SubBytes; hide ShiftRows; hide InvShiftRows; hide MixColumns; hide InvMixColumns; hide AddRoundKey;
    hide Inverts;
    var n := |keys| - 1;
    InvRoundsUndo(box, keys, s, n - 1);
    SubShiftInverse(box, Rounds(box, keys, s, 0));
    AddTwice(s, keys[0]);
  }
}
