/** Bytes and numbers, by way of their two hexadecimal digits. */
module Nibbles {
  type Nibble = bv4

  function HighNibble(b: bv8): Nibble {
    (b >> 4) as Nibble
  }

  function LowNibble(b: bv8): Nibble {
    (b & 0xF) as Nibble
  }

  function Pair(h: Nibble, l: Nibble): bv8 {
    (h as bv8 << 4) | l as bv8
  }

  /** The four binary digits of a number; conversions between numbers and bit-vectors are kept out of the proofs. */
  function ToNibble(n: int): Nibble
    requires 0 <= n < 0x10
  {
    (if n / 8 % 2 == 0 then 0 else 8) | (if n / 4 % 2 == 0 then 0 else 4)
    | (if n / 2 % 2 == 0 then 0 else 2) | (if n % 2 == 0 then 0 else 1)
  }

  function NibbleValue(d: Nibble): (n: int)
    ensures 0 <= n < 0x10
  {
    (if d & 8 == 0 then 0 else 8) + (if d & 4 == 0 then 0 else 4)
    + (if d & 2 == 0 then 0 else 2) + (if d & 1 == 0 then 0 else 1)
  }

  /** They are the conversions. */
  lemma {:induction false} Conversions(d: Nibble)
    ensures NibbleValue(d) == d as int
  {
  }

  lemma {:induction false} NumberRoundTrip(n: int)
    requires 0 <= n < 0x10
    ensures NibbleValue(ToNibble(n)) == n
  {
  }

  lemma {:induction false} DigitRoundTrip(d: Nibble)
    ensures ToNibble(NibbleValue(d)) == d
  {
  }

  lemma {:induction false} PairParts(h: Nibble, l: Nibble)
    ensures HighNibble(Pair(h, l)) == h && LowNibble(Pair(h, l)) == l
  {
  }

  lemma {:induction false} PartsPair(b: bv8)
    ensures Pair(HighNibble(b), LowNibble(b)) == b
  {
  }
}

/** Machine words, and bytes at the four byte positions of a 32-bit word. */
module Words {
  import opened Nibbles

  type Byte = bv8
  type Word = bv32

  function Concat(pieces: seq<seq<Byte>>): seq<Byte> {
    if pieces == [] then [] else Concat(pieces[..|pieces| - 1]) + pieces[|pieces| - 1]
  }

  function XorW(a: Word, b: Word): Word {
    a ^ b
  }

  function XorB(a: Byte, b: Byte): Byte {
    a ^ b
  }

  lemma {:induction false} XorBCommutes(a: Byte, b: Byte)
    ensures XorB(a, b) == XorB(b, a)
  {
  }

  lemma {:induction false} XorBAssociates(a: Byte, b: Byte, c: Byte)
    ensures XorB(XorB(a, b), c) == XorB(a, XorB(b, c))
  {
  }

  lemma {:induction false} XorBZero(a: Byte)
    ensures XorB(a, 0) == a && XorB(0, a) == a && XorB(a, a) == 0
  {
  }

  /** Adding up two rows of two and two columns of two gives the same. */
  lemma {:induction false} XorBSwap(a: Byte, b: Byte, c: Byte, d: Byte)
    ensures XorB(XorB(a, b), XorB(c, d)) == XorB(XorB(a, c), XorB(b, d))
  {
    hide XorB;
    XorBAssociates(a, b, XorB(c, d));
    XorBAssociates(b, c, d);
    XorBCommutes(b, c);
    XorBAssociates(c, b, d);
    XorBAssociates(a, c, XorB(b, d));
  }

  predicate IsByteShift(bits: int) {
    bits == 0 || bits == 8 || bits == 16 || bits == 24
  }

  /** `(w >> bits) & 0xFF`, for a shift by whole bytes. */
  function Lane(w: Word, bits: int): Byte
    requires IsByteShift(bits)
  {
    if bits == 0 then (w & 0xFF) as Byte
    else if bits == 8 then ((w >> 8) & 0xFF) as Byte
    else if bits == 16 then ((w >> 16) & 0xFF) as Byte
    else ((w >> 24) & 0xFF) as Byte
  }

  /** `w ^ (b << bits)`, for a shift by whole bytes. */
  function XorIntoLane(w: Word, b: Byte, bits: int): Word
    requires IsByteShift(bits)
  {
    if bits == 0 then w ^ b as Word
    else if bits == 8 then w ^ (b as Word << 8)
    else if bits == 16 then w ^ (b as Word << 16)
    else w ^ (b as Word << 24)
  }

  /** `b ^ (w >> bits)`, truncated to a byte. */
  function XorLane(b: Byte, w: Word, bits: int): Byte
    requires IsByteShift(bits)
  {
    b ^ Lane(w, bits)
  }

  /** The word whose bytes are `b0` (least significant) to `b3`. */
  function Join(b0: Byte, b1: Byte, b2: Byte, b3: Byte): Word {
    (b3 as Word << 24) | (b2 as Word << 16) | (b1 as Word << 8) | b0 as Word
  }

  lemma XorLaneTwice(b: Byte, w: Word, bits: int)
    requires IsByteShift(bits)
    ensures XorLane(XorLane(b, w, bits), w, bits) == b
  {
    hide Lane;
  }

  /** Xor-ing a joined word is xor-ing its bytes, lane by lane. */
  lemma LaneOfJoinXor(b0: Byte, b1: Byte, b2: Byte, b3: Byte, k: Word, bits: int)
    requires IsByteShift(bits)
    ensures Lane(Join(b0, b1, b2, b3) ^ k, bits)
            == XorLane(if bits == 0 then b0 else if bits == 8 then b1 else if bits == 16 then b2 else b3, k, bits)
  {
    if bits == 0 {
    } else if bits == 8 {
    } else if bits == 16 {
    } else {
    }
  }

  lemma JoinOfLanes(w: Word)
    ensures Join(Lane(w, 0), Lane(w, 8), Lane(w, 16), Lane(w, 24)) == w
  {
  }

  lemma LanesOfJoin(b0: Byte, b1: Byte, b2: Byte, b3: Byte)
    ensures var w := Join(b0, b1, b2, b3);
            Lane(w, 0) == b0 && Lane(w, 8) == b1 && Lane(w, 16) == b2 && Lane(w, 24) == b3
  {
  }

  /** Xor-ing four bytes into their lanes of zero joins them. */
  lemma JoinByXor(b0: Byte, b1: Byte, b2: Byte, b3: Byte)
    ensures XorIntoLane(XorIntoLane(XorIntoLane(XorIntoLane(0, b0, 0), b1, 8), b2, 16), b3, 24) == Join(b0, b1, b2, b3)
  {
  }

  // ---------------------------------------------------------------- bytes as numbers

  /** `(unsigned char) n`, for a number in range. */
  function ToByte(n: int): Byte
    requires 0 <= n < 0x100
  {
    Pair(ToNibble(n / 0x10), ToNibble(n % 0x10))
  }

  function Value(b: Byte): (n: int)
    ensures 0 <= n < 0x100
  {
    hide NibbleValue;
    0x10 * NibbleValue(HighNibble(b)) + NibbleValue(LowNibble(b))
  }

  lemma {:induction false} ValueOfByte(n: int)
    requires 0 <= n < 0x100
    ensures Value(ToByte(n)) == n
  {
    hide Pair; hide HighNibble; hide LowNibble; hide ToNibble; hide NibbleValue;
    PairParts(ToNibble(n / 0x10), ToNibble(n % 0x10));
    NumberRoundTrip(n / 0x10);
    NumberRoundTrip(n % 0x10);
  }

  lemma {:induction false} ByteOfValue(b: Byte)
    ensures ToByte(Value(b)) == b
  {
    hide Pair; hide HighNibble; hide LowNibble; hide ToNibble; hide NibbleValue;
    PartsPair(b);
    DigitRoundTrip(HighNibble(b));
    DigitRoundTrip(LowNibble(b));
  }

  /** They are the conversions. */
  lemma {:induction false} ValueIs(b: Byte)
    ensures Value(b) == b as int
  {
  }

  lemma {:induction false} ByteIs(b: Byte, n: int)
    requires n == b as int
    ensures ToByte(n) == b
  {
    hide ToByte; hide Value;
    ValueIs(b);
    ByteOfValue(b);
  }

  /** The four digits of a 32-bit number add up to it. */
  lemma {:induction false} BytesAddUp(n: int)
    requires 0 <= n < 0x1_0000_0000
    ensures 0 <= n / 0x100_0000 < 0x100
    ensures n == 0x100_0000 * (n / 0x100_0000) + 0x1_0000 * (n / 0x1_0000 % 0x100) + 0x100 * (n / 0x100 % 0x100)
                 + n % 0x100
  {
    var a, b := n / 0x100, n / 0x1_0000;
    assert n == 0x100 * a + n % 0x100;
    assert b == a / 0x100 && a == 0x100 * b + a % 0x100;
    assert n / 0x100_0000 == b / 0x100 && b == 0x100 * (b / 0x100) + b % 0x100;
  }

  // ---------------------------------------------------------------- shorts in network order

  /** ntohs. */
  function ShortOf(high: Byte, low: Byte): (n: int)
    ensures 0 <= n < 0x1_0000
  {
    hide Value;
    0x100 * Value(high) + Value(low)
  }

  /** htons, most significant byte first: ntohs reads the number back. */
  function ShortBytes(n: int): (b: seq<Byte>)
    requires 0 <= n < 0x1_0000
    ensures b == [ToByte(n / 0x100), ToByte(n % 0x100)] && ShortOf(b[0], b[1]) == n
  {
    hide Value; hide ToByte;
    ValueOfByte(n / 0x100);
    ValueOfByte(n % 0x100);
    [ToByte(n / 0x100), ToByte(n % 0x100)]
  }
}
