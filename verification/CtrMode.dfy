/** How a track's file is encrypted: AES in counter mode over four interleaved parts of each kilobyte. */
module CtrMode {
  import opened Words
  import opened AesSpec
  import opened Aes

  // ---------------------------------------------------------------- big-endian numbers

  /** The number whose base-256 digits are those of `v` followed by `s`. */
  function Append(v: nat, s: seq<Byte>): nat {
    if s == [] then v else Append(v, s[..|s| - 1]) * 0x100 + Value(s[|s| - 1])
  }

  function Number(s: seq<Byte>): nat {
    Append(0, s)
  }

  function Bytes(v: nat, n: nat): (s: seq<Byte>)
    ensures |s| == n
  {
    if n == 0 then [] else Bytes(v / 0x100, n - 1) + [ToByte(v % 0x100)]
  }

  function Power256(n: nat): nat {
    if n == 0 then 1 else 0x100 * Power256(n - 1)
  }

  const RANGE := 0x1_0000_0000_0000_0000_0000_0000_0000_0000

  lemma {:induction false} PowerIsRange()
    ensures Power256(16) == RANGE
  {
    assert Power256(4) == 0x1_0000_0000;
    assert Power256(8) == 0x1_0000_0000_0000_0000;
    assert Power256(12) == 0x1_0000_0000_0000_0000_0000_0000;
  }

  lemma {:induction false} AppendFirst(v: nat, x: Byte, s: seq<Byte>)
    ensures Append(v, [x] + s) == Append(v * 0x100 + Value(x), s)
  {
    hide Value;
    if s == [] {
      assert ([x] + s)[..|[x] + s| - 1] == [];
    } else {
      AppendFirst(v, x, s[..|s| - 1]);
      assert ([x] + s)[..|s|] == [x] + s[..|s| - 1];
    }
  }

  lemma {:induction false} AppendSplit(s: seq<Byte>, m: nat)
    requires m <= |s|
    ensures Append(Number(s[..m]), s[m..]) == Number(s)
    decreases |s| - m
  {
    hide Value;
    if m == |s| {
      assert s[..m] == s;
    } else {
      AppendSplit(s, m + 1);
      AppendFirst(Number(s[..m]), s[m], s[m + 1..]);
      assert s[m..] == [s[m]] + s[m + 1..];
      assert s[..m + 1][..m] == s[..m];
    }
  }

  lemma {:induction false} AppendBounds(v: nat, s: seq<Byte>)
    ensures v > 0 ==> Append(v, s) >= Power256(|s|)
    ensures v == 0 ==> Append(v, s) < Power256(|s|)
  {
    hide Value;
    if s != [] {
      AppendBounds(v, s[..|s| - 1]);
    }
  }

  lemma {:induction false} BytesOfNumber(s: seq<Byte>)
    ensures Bytes(Number(s), |s|) == s
  {
    hide Value; hide ToByte;
    if s != [] {
      BytesOfNumber(s[..|s| - 1]);
      ByteOfValue(s[|s| - 1]);
      assert Number(s) == Number(s[..|s| - 1]) * 0x100 + Value(s[|s| - 1]);
    }
  }

  // ---------------------------------------------------------------- blocks as bytes

  function BytesOf(b: Block): seq<Byte> {
    [b.c0.b0, b.c0.b1, b.c0.b2, b.c0.b3, b.c1.b0, b.c1.b1, b.c1.b2, b.c1.b3,
     b.c2.b0, b.c2.b1, b.c2.b2, b.c2.b3, b.c3.b0, b.c3.b1, b.c3.b2, b.c3.b3]
  }

  lemma {:induction false} BytesOfBlockIn(s: seq<Byte>)
    requires |s| == 16
    ensures BytesOf(BlockIn(s)) == s
  {
    hide Lane; hide Join;
    LanesOfJoin(s[3], s[2], s[1], s[0]);
    LanesOfJoin(s[7], s[6], s[5], s[4]);
    LanesOfJoin(s[11], s[10], s[9], s[8]);
    LanesOfJoin(s[15], s[14], s[13], s[12]);
  }

  // ---------------------------------------------------------------- counter mode, section 6.5 of NIST SP 800-38A

  function KeyStream(box: Box, keys: seq<Block>, c: nat): (s: seq<Byte>)
    requires |keys| >= 2
    ensures |s| == 16
  {
    BytesOf(Cipher(box, keys, BlockIn(Bytes(c, 16))))
  }

  function XorBytes(a: seq<Byte>, k: seq<Byte>): (s: seq<Byte>)
    requires |a| <= |k|
    ensures |s| == |a|
  {
    seq(|a|, i requires 0 <= i < |a| => XorB(a[i], k[i]))
  }

  function Later(c: nat, n: nat): nat {
    (c + n) % RANGE
  }

  function Ctr(box: Box, keys: seq<Block>, c: nat, text: seq<Byte>): (s: seq<Byte>)
    requires |keys| >= 2
    ensures |s| == |text|
    decreases |text|
  {
    if |text| <= 16 then XorBytes(text, KeyStream(box, keys, c))
    else XorBytes(text[..16], KeyStream(box, keys, c)) + Ctr(box, keys, Later(c, 1), text[16..])
  }

  lemma {:induction false} CtrFirst(box: Box, keys: seq<Block>, c: nat, x: seq<Byte>, y: seq<Byte>)
    requires |keys| >= 2 && |x| == 16
    ensures Ctr(box, keys, c, x + y) == Ctr(box, keys, c, x) + Ctr(box, keys, Later(c, 1), y)
  {
    hide KeyStream; hide XorBytes; hide Later;
    if y == [] {
      assert x + y == x;
    } else {
      assert (x + y)[..16] == x && (x + y)[16..] == y;
    }
  }

  lemma {:induction false} LaterTwice(c: nat, m: nat, n: nat)
    ensures Later(Later(c, m), n) == Later(c, m + n)
    ensures c < RANGE ==> Later(c, 0) == c
  {
    WholeTurns(Later(c, m) + n, (c + m) / RANGE);
  }

  lemma {:induction false} WholeTurns(x: nat, k: nat)
    ensures (x + RANGE * k) % RANGE == x % RANGE
  {
  }

  /** Counter mode on whole blocks can be cut between any two of them. */
  lemma {:induction false} CtrInPieces(box: Box, keys: seq<Block>, c: nat, x: seq<Byte>, y: seq<Byte>)
    requires |keys| >= 2 && c < RANGE && |x| % 16 == 0
    ensures Ctr(box, keys, c, x + y) == Ctr(box, keys, c, x) + Ctr(box, keys, Later(c, |x| / 16), y)
    decreases |x|
  {
    hide Later; hide KeyStream; hide XorBytes;
    if x == [] {
      assert x + y == y;
      LaterTwice(c, 0, 0);
    } else {
      var first, rest := x[..16], x[16..];
      CutFirst(box, keys, c, first, rest, y);
      assert x == first + rest;
    }
  }

  lemma {:induction false} CutFirst(box: Box, keys: seq<Block>, c: nat, first: seq<Byte>, rest: seq<Byte>, y: seq<Byte>)
    requires |keys| >= 2 && c < RANGE && |first| == 16 && |rest| % 16 == 0
    ensures Ctr(box, keys, c, first + rest + y) ==
              Ctr(box, keys, c, first + rest) + Ctr(box, keys, Later(c, |first + rest| / 16), y)
    decreases |rest| + 16, 0
  {
    hide Ctr;
    CtrFirst(box, keys, c, first, rest + y);
    CtrFirst(box, keys, c, first, rest);
    assert first + rest + y == first + (rest + y);
    CtrInPieces(box, keys, Later(c, 1), rest, y);
    LaterTwice(c, 1, |rest| / 16);
  }

  /** Decrypting is encrypting again. */
  lemma {:induction false} CtrTwice(box: Box, keys: seq<Block>, c: nat, x: seq<Byte>)
    requires |keys| >= 2
    ensures Ctr(box, keys, c, Ctr(box, keys, c, x)) == x
    decreases |x|
  {
    hide KeyStream; hide XorB;
    var k := KeyStream(box, keys, c);
    forall i: nat | i < 16
      ensures i < |x| ==> XorB(XorB(x[i], k[i]), k[i]) == x[i]
    {
      if i < |x| {
        XorBAssociates(x[i], k[i], k[i]);
        XorBZero(k[i]);
        XorBZero(x[i]);
      }
    }
    if |x| > 16 {
      CtrTwice(box, keys, Later(c, 1), x[16..]);
    }
  }

  /** Byte `i` is xored with byte `i % 16` of the encryption of the counter that is `i / 16` later. */
  lemma {:induction false} CtrAt(box: Box, keys: seq<Block>, c: nat, text: seq<Byte>, i: nat)
    requires |keys| >= 2 && c < RANGE && i < |text|
    ensures Ctr(box, keys, c, text)[i] ==
            XorB(text[i], BytesOf(Cipher(box, keys, BlockIn(Bytes((c + i / 16) % RANGE, 16))))[i % 16])
    decreases |text|
  {
    hide Cipher; hide BlockIn; hide BytesOf; hide Bytes; hide XorB;
    LaterTwice(c, 0, 0);
    if i >= 16 {
      CtrAt(box, keys, Later(c, 1), text[16..], i - 16);
      LaterTwice(c, 1, (i - 16) / 16);
      assert (i - 16) / 16 + 1 == i / 16 && (i - 16) % 16 == i % 16;
    }
  }

  /** The bytes of a counter stand for it. */
  lemma {:induction false} NumberOfBytes(c: nat, n: nat)
    requires c < Power256(n)
    ensures Number(Bytes(c, n)) == c
  {
    hide Value; hide ToByte;
    if n > 0 {
      NumberOfBytes(c / 0x100, n - 1);
      ValueOfByte(c % 0x100);
      assert Bytes(c, n)[..n - 1] == Bytes(c / 0x100, n - 1);
    }
  }

  // ---------------------------------------------------------------- interleaving

  function DeinterleaveBlock(b: seq<Byte>): (s: seq<Byte>)
    requires |b| == 1024
    ensures |s| == 1024
  {
    seq(1024, i requires 0 <= i < 1024 => b[i % 4 * 256 + i / 4])
  }

  /** Byte `k` of the `q`-th quarter goes to place `4 * k + q`. */
  lemma {:induction false} QuarterByte(b: seq<Byte>, q: nat, k: nat)
    requires |b| == 1024 && q < 4 && k < 256
    ensures DeinterleaveBlock(b)[4 * k + q] == b[256 * q + k]
  {
    assert (4 * k + q) % 4 == q && (4 * k + q) / 4 == k;
  }

  /** Kilobyte by kilobyte. */
  lemma {:induction false} DeinterleaveAt(text: seq<Byte>, n: nat, q: nat, k: nat)
    requires |text| % 1024 == 0 && 1024 * (n + 1) <= |text| && q < 4 && k < 256
    ensures Deinterleave(text)[1024 * n + 4 * k + q] == text[1024 * n + 256 * q + k]
    decreases n
  {
    hide DeinterleaveBlock;
    if n == 0 {
      QuarterByte(text[..1024], q, k);
    } else {
      DeinterleaveAt(text[1024..], n - 1, q, k);
    }
  }

  function Deinterleave(text: seq<Byte>): (s: seq<Byte>)
    requires |text| % 1024 == 0
    ensures |s| == |text|
  {
    if text == [] then [] else DeinterleaveBlock(text[..1024]) + Deinterleave(text[1024..])
  }

  lemma {:induction false} DeinterleaveInPieces(x: seq<Byte>, y: seq<Byte>)
    requires |x| % 1024 == 0 && |y| % 1024 == 0
    ensures Deinterleave(x + y) == Deinterleave(x) + Deinterleave(y)
  {
    hide DeinterleaveBlock;
    if x == [] {
      assert x + y == y;
    } else {
      DeinterleaveInPieces(x[1024..], y);
      assert (x + y)[..1024] == x[..1024] && (x + y)[1024..] == x[1024..] + y;
    }
  }

  // ---------------------------------------------------------------- one pass over the whole file

  const NONCE_BYTES: seq<Byte> := [0x72, 0xe0, 0x67, 0xfb, 0xdd, 0xcb, 0xcf, 0x77, 0xeb, 0xe8, 0xbc, 0x64, 0x3f, 0x63,
    0x0d, 0x93]

  function Nonce(): (n: nat) {
    Number(NONCE_BYTES)
  }

  /** Room for any file offset before the counter would wrap. */
  lemma {:induction false} NonceBound()
    ensures Nonce() + 0x1000_0000_0000_0000 < RANGE
  {
    hide Append;
    assert Value(0x72) == 0x72;
    AppendSplit(NONCE_BYTES, 1);
    AppendTop(NONCE_BYTES[0], NONCE_BYTES[1..]);
    AppendOne(NONCE_BYTES[0]);
    assert NONCE_BYTES[..1] == [NONCE_BYTES[0]];
  }

  lemma {:induction false} AppendOne(x: Byte)
    ensures Number([x]) == Value(x)
  {
    hide Value;
    assert [x][..0] == [] && Append(0, [x]) == Append(0, [x][..0]) * 0x100 + Value([x][0]);
  }

  /** A first digit well below the largest leaves room. */
  lemma {:induction false} AppendTop(x: Byte, s: seq<Byte>)
    requires |s| == 15 && Value(x) < 0xf0
    ensures Append(Value(x), s) < 0xf0 * 0x100_0000_0000_0000_0000_0000_0000_0000
  {
    hide Value;
    AppendBelow(Value(x), s);
    assert Power256(3) == 0x100_0000;
    assert Power256(7) == 0x100_0000_0000_0000;
    assert Power256(11) == 0x100_0000_0000_0000_0000_0000;
    assert Power256(15) == 0x100_0000_0000_0000_0000_0000_0000_0000;
  }

  lemma {:induction false} AppendBelow(v: nat, s: seq<Byte>)
    ensures Append(v, s) < (v + 1) * Power256(|s|)
  {
    hide Value;
    if s != [] {
      AppendBelow(v, s[..|s| - 1]);
      Scale(Append(v, s[..|s| - 1]), v + 1, Power256(|s| - 1));
    }
  }

  lemma {:induction false} Scale(a: nat, b: nat, p: nat)
    requires a < b * p
    ensures 0x100 * a + 0x100 <= b * (0x100 * p)
  {
    assert b * (0x100 * p) == 0x100 * (b * p);
  }

  /** The decryption of all whole kilobytes of a file, from its start, in one sequential pass. */
  function Plaintext(box: Box, keys: seq<Block>, file: seq<Byte>): (s: seq<Byte>)
    requires |keys| >= 2
    ensures |s| == |file| - |file| % 1024
  {
    Ctr(box, keys, Nonce(), Deinterleave(file[..|file| - |file| % 1024]))
  }

  /** Where each byte of a deinterleaved kilobyte came from. */
  function InterleaveBlock(s: seq<Byte>): (b: seq<Byte>)
    requires |s| == 1024
    ensures |b| == 1024
  {
    seq(1024, j requires 0 <= j < 1024 => s[j % 256 * 4 + j / 256])
  }

  lemma {:induction false} InterleaveUndone(s: seq<Byte>)
    requires |s| == 1024
    ensures DeinterleaveBlock(InterleaveBlock(s)) == s
  {
    forall i | 0 <= i < 1024
      ensures DeinterleaveBlock(InterleaveBlock(s))[i] == s[i]
    {
      var j := i % 4 * 256 + i / 4;
      assert j % 256 == i / 4 && j / 256 == i % 4;
    }
  }

  lemma {:induction false} Interleaved(s: seq<Byte>) returns (text: seq<Byte>)
    requires |s| % 1024 == 0
    ensures |text| == |s| && Deinterleave(text) == s
  {
    hide DeinterleaveBlock; hide InterleaveBlock;
    if s == [] {
      text := [];
    } else {
      var rest := Interleaved(s[1024..]);
      text := InterleaveBlock(s[..1024]) + rest;
      InterleaveUndone(s[..1024]);
      assert text[..1024] == InterleaveBlock(s[..1024]) && text[1024..] == rest;
    }
  }

  /** Whatever the key, all whole kilobytes are the decryption of some file. */
  lemma {:induction false} AnyPlaintext(box: Box, keys: seq<Block>, plain: seq<Byte>) returns (file: seq<Byte>)
    requires |keys| >= 2 && |plain| % 1024 == 0
    ensures |file| == |plain| && Plaintext(box, keys, file) == plain
  {
    hide Ctr; hide Deinterleave; hide Nonce;
    file := Interleaved(Ctr(box, keys, Nonce(), plain));
    assert file[..|file| - |file| % 1024] == file;
    CtrTwice(box, keys, Nonce(), plain);
  }

  lemma {:induction false} WholeKilobytes(end: nat, len: nat)
    requires end % 1024 == 0 && end <= len
    ensures end <= len - len % 1024
  {
  }

  lemma {:induction false} WholeBlocks(a: nat, b: nat)
    requires a % 1024 == 0 && b % 1024 == 0
    ensures a % 16 == 0 && (a + b) % 1024 == 0
  {
    assert a == 16 * (64 * (a / 1024));
    assert a + b == 1024 * (a / 1024 + b / 1024);
  }

  lemma {:induction false} CutMiddle(a: seq<Byte>, b: seq<Byte>, c: seq<Byte>)
    ensures (a + (b + c))[|a|..|a| + |b|] == b
  {
  }

  /** The middle of three pieces, decrypted on its own. */
  lemma {:induction false} MiddlePiece(box: Box, keys: seq<Block>, c: nat, x: seq<Byte>, y: seq<Byte>, z: seq<Byte>)
    requires |keys| >= 2 && c < RANGE && |x| % 1024 == 0 && |y| % 1024 == 0 && |z| % 1024 == 0
             && |x + (y + z)| % 1024 == 0
    ensures Ctr(box, keys, c, Deinterleave(x + (y + z)))[|x|..|x| + |y|] ==
              Ctr(box, keys, Later(c, |x| / 16), Deinterleave(y))
  {
    hide Ctr; hide Deinterleave; hide Later;
    WholeBlocks(|x|, |x|);
    WholeBlocks(|y|, |z|);
    var d := Later(c, |x| / 16);
    LaterBelow(c, |x| / 16);
    DeinterleaveInPieces(x, y + z);
    DeinterleaveInPieces(y, z);
    var dx, dy, dz := Deinterleave(x), Deinterleave(y), Deinterleave(z);
    CtrInPieces(box, keys, c, dx, dy + dz);
    CtrInPieces(box, keys, d, dy, dz);
    CutMiddle(Ctr(box, keys, c, dx), Ctr(box, keys, d, dy), Ctr(box, keys, Later(d, |y| / 16), dz));
  }

  lemma {:induction false} LaterBelow(c: nat, n: nat)
    ensures Later(c, n) < RANGE
  {
  }

  /** Starting at any kilobyte with the counter moved on accordingly gives that part of the one pass. */
  lemma {:induction false} RandomAccess(box: Box, keys: seq<Block>, file: seq<Byte>, a: nat, n: nat)
    requires |keys| >= 2 && a % 1024 == 0 && n % 1024 == 0 && a + n <= |Plaintext(box, keys, file)|
    ensures Plaintext(box, keys, file)[a..a + n] == Ctr(box, keys, Later(Nonce(), a / 16), Deinterleave(file[a..a + n]))
  {
    hide Ctr; hide Deinterleave; hide Nonce; hide Later;
    var whole := file[..|file| - |file| % 1024];
    var x, y, z := whole[..a], whole[a..a + n], whole[a + n..];
    assert whole == x + (y + z) && y == file[a..a + n];
    NonceBound();
    MiddlePiece(box, keys, Nonce(), x, y, z);
  }
}
