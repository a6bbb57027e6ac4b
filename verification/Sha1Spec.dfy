/** SHA-1 as FIPS 180-4 defines it. */
module Sha1Spec {
  import opened Words

  // ---------------------------------------------------------------- operations on words, sections 3.2 and 4.1.1

  function Add(a: Word, b: Word): Word { a + b }

  function Total(a: Word, b: Word, c: Word, d: Word, e: Word): Word { a + b + c + d + e }

  function Rotl1(x: Word): Word { (x << 1) | (x >> 31) }

  function Rotl5(x: Word): Word { (x << 5) | (x >> 27) }

  function Rotl30(x: Word): Word { (x << 30) | (x >> 2) }

  function Ch(x: Word, y: Word, z: Word): Word { (x & y) ^ (!x & z) }

  function Parity(x: Word, y: Word, z: Word): Word { x ^ y ^ z }

  function Maj(x: Word, y: Word, z: Word): Word { (x & y) ^ (x & z) ^ (y & z) }

  function F(t: nat, x: Word, y: Word, z: Word): Word {
    if t < 20 then Ch(x, y, z) else if t < 40 then Parity(x, y, z) else if t < 60 then Maj(x, y, z) else Parity(x, y, z)
  }

  function K(t: nat): Word {
    if t < 20 then 0x5A82_7999 else if t < 40 then 0x6ED9_EBA1 else if t < 60 then 0x8F1B_BCDC else 0xCA62_C1D6
  }

  // ---------------------------------------------------------------- one block, section 6.1.2

  datatype Regs = Regs(a: Word, b: Word, c: Word, d: Word, e: Word)

  /** Word `t` of the message schedule. */
  function W(m: seq<Word>, t: nat): Word
    requires |m| == 16
  {
    if t < 16 then m[t] else Rotl1(XorW(XorW(XorW(W(m, t - 3), W(m, t - 8)), W(m, t - 14)), W(m, t - 16)))
  }

  function Round(r: Regs, t: nat, w: Word): Regs {
    Regs(Total(Rotl5(r.a), F(t, r.b, r.c, r.d), r.e, K(t), w), r.a, Rotl30(r.b), r.c, r.d)
  }

  function Rounds(m: seq<Word>, h: Regs, t: nat): Regs
    requires |m| == 16
  {
    if t == 0 then h else Round(Rounds(m, h, t - 1), t - 1, W(m, t - 1))
  }

  function Compress(h: Regs, m: seq<Word>): Regs
    requires |m| == 16
  {
    var r := Rounds(m, h, 80);
    Regs(Add(h.a, r.a), Add(h.b, r.b), Add(h.c, r.c), Add(h.d, r.d), Add(h.e, r.e))
  }

  // ---------------------------------------------------------------- the whole message, sections 5.1.1, 5.2.1 and 5.3.1

  const INITIAL := Regs(0x6745_2301, 0xEFCD_AB89, 0x98BA_DCFE, 0x1032_5476, 0xC3D2_E1F0)

  function BlockWords(b: seq<Byte>): (m: seq<Word>)
    requires |b| == 64
    ensures |m| == 16
  {
    seq(16, i requires 0 <= i < 16 => Join(b[4 * i + 3], b[4 * i + 2], b[4 * i + 1], b[4 * i]))
  }

  function Blocks(msg: seq<Byte>): Regs
    requires |msg| % 64 == 0
  {
    if msg == [] then INITIAL
    else Compress(Blocks(msg[..|msg| - 64]), BlockWords(msg[|msg| - 64..]))
  }

  function Zeros(n: nat): (s: seq<Byte>)
    ensures |s| == n
  {
    seq(n, _ => 0)
  }

  const COUNT_RANGE := 0x1_0000_0000_0000_0000
  const WORD_RANGE := 0x1_0000_0000

  /** The eight bytes of a 64-bit number, most significant first. */
  function CountBytes(n: nat): (s: seq<Byte>)
    requires n < COUNT_RANGE
    ensures |s| == 8
  {
    WordBytes(n / WORD_RANGE) + WordBytes(n % WORD_RANGE)
  }

  function WordBytes(n: nat): (s: seq<Byte>)
    requires n < WORD_RANGE
    ensures |s| == 4
  {
    [ToByte(n / 0x100_0000), ToByte(n / 0x1_0000 % 0x100), ToByte(n / 0x100 % 0x100), ToByte(n % 0x100)]
  }

  lemma {:induction false} WordBytesAre(n: nat)
    requires n < WORD_RANGE
    ensures var b := WordBytes(n);
            n == 0x100_0000 * Value(b[0]) + 0x1_0000 * Value(b[1]) + 0x100 * Value(b[2]) + Value(b[3])
  {
    hide ToByte; hide Value;
    ValueOfByte(n / 0x100_0000);
    ValueOfByte(n / 0x1_0000 % 0x100);
    ValueOfByte(n / 0x100 % 0x100);
    ValueOfByte(n % 0x100);
    BytesAddUp(n);
  }

  /** The bytes are the 64-bit number, most significant byte first. */
  lemma {:induction false} CountBytesAre(n: nat)
    requires n < COUNT_RANGE
    ensures var b := CountBytes(n);
            n == 0x100_0000_0000_0000 * Value(b[0]) + 0x1_0000_0000_0000 * Value(b[1])
                 + 0x100_0000_0000 * Value(b[2]) + 0x1_0000_0000 * Value(b[3]) + 0x100_0000 * Value(b[4])
                 + 0x1_0000 * Value(b[5]) + 0x100 * Value(b[6]) + Value(b[7])
  {
    hide WordBytes; hide Value;
    WordBytesAre(n / WORD_RANGE);
    WordBytesAre(n % WORD_RANGE);
    assert n == WORD_RANGE * (n / WORD_RANGE) + n % WORD_RANGE;
  }

  /** How many zero bytes follow the single one bit and precede the length. */
  function PadZeros(len: nat): (k: nat)
    ensures (len + 1 + k) % 64 == 56 && k < 64
  {
    (55 - len) % 64
  }

  lemma {:induction false} FillsBlock(n: nat)
    ensures n % 64 == 56 ==> (n + 8) % 64 == 0
  {
  }

  function Pad(msg: seq<Byte>, bits: nat): (s: seq<Byte>)
    requires bits < COUNT_RANGE
    ensures |s| % 64 == 0
  {
    hide CountBytes; hide PadZeros; hide Zeros;
    FillsBlock(|msg| + 1 + PadZeros(|msg|));
    msg + [0x80] + Zeros(PadZeros(|msg|)) + CountBytes(bits)
  }

  function RegBytes(w: Word): (s: seq<Byte>)
    ensures |s| == 4
  {
    [Lane(w, 24), Lane(w, 16), Lane(w, 8), Lane(w, 0)]
  }

  function DigestOf(h: Regs): (s: seq<Byte>)
    ensures |s| == 20
  {
    RegBytes(h.a) + RegBytes(h.b) + RegBytes(h.c) + RegBytes(h.d) + RegBytes(h.e)
  }

  /** The message digest. */
  function Digest(msg: seq<Byte>): (s: seq<Byte>) {
    DigestOf(Blocks(Pad(msg, 8 * |msg| % COUNT_RANGE)))
  }

  lemma {:induction false} BlocksNext(msg: seq<Byte>, block: seq<Byte>)
    requires |msg| % 64 == 0 && |block| == 64
    ensures |msg + block| % 64 == 0 && Blocks(msg + block) == Compress(Blocks(msg), BlockWords(block))
  {
    hide Compress; hide BlockWords;
    assert (msg + block)[..|msg + block| - 64] == msg && (msg + block)[|msg + block| - 64..] == block;
  }
}
