/** The conversion of UTF-16 documents to UTF-8: ezxml_str2utf8 of libopenspotify/ezxml.c. */
module EzxmlUtf {
  import opened Basics
  import opened Nibbles
  import opened Words

  // ---------------------------------------------------------------- UTF-8, section 3 of RFC 3629

  predicate IsScalar(c: int) {
    0 <= c < 0xD800 || 0xE000 <= c < 0x11_0000
  }

  function Utf8(c: nat): (s: seq<Byte>)
    requires c < 0x11_0000
  {
    if c < 0x80 then [ToByte(c)]
    else if c < 0x800 then [ToByte(0xC0 + c / 0x40), ToByte(0x80 + c % 0x40)]
    else if c < 0x1_0000 then [ToByte(0xE0 + c / 0x1000), ToByte(0x80 + c / 0x40 % 0x40), ToByte(0x80 + c % 0x40)]
    else [ToByte(0xF0 + c / 0x4_0000), ToByte(0x80 + c / 0x1000 % 0x40), ToByte(0x80 + c / 0x40 % 0x40),
      ToByte(0x80 + c % 0x40)]
  }

  /** The character at the front of a UTF-8 string. */
  function FirstOf(s: seq<Byte>): (c: int)
    requires s != []
  {
    var o := Value(s[0]);
    if o < 0x80 then o
    else if o < 0xE0 && |s| >= 2 then (o - 0xC0) * 0x40 + Value(s[1]) - 0x80
    else if o < 0xF0 && |s| >= 3 then (o - 0xE0) * 0x1000 + (Value(s[1]) - 0x80) * 0x40 + Value(s[2]) - 0x80
    else if |s| >= 4 then (o - 0xF0) * 0x4_0000 + (Value(s[1]) - 0x80) * 0x1000 + (Value(s[2]) - 0x80) * 0x40 +
      Value(s[3]) - 0x80
    else -1
  }

  lemma {:induction false} OneByte(c: nat, rest: seq<Byte>)
    requires c < 0x80
    ensures FirstOf([ToByte(c)] + rest) == c
  {
    hide ToByte; hide Value;
    ValueOfByte(c);
  }

  lemma {:induction false} TwoBytes(x: nat, y: nat, rest: seq<Byte>)
    requires 2 <= x < 0x20 && y < 0x40
    ensures FirstOf([ToByte(0xC0 + x), ToByte(0x80 + y)] + rest) == x * 0x40 + y
  {
    hide ToByte; hide Value;
    ValueOfByte(0xC0 + x);
    ValueOfByte(0x80 + y);
  }

  lemma {:induction false} ThreeBytes(x: nat, y: nat, z: nat, rest: seq<Byte>)
    requires x < 0x10 && y < 0x40 && z < 0x40
    ensures FirstOf([ToByte(0xE0 + x), ToByte(0x80 + y), ToByte(0x80 + z)] + rest) == x * 0x1000 + y * 0x40 + z
  {
    hide ToByte; hide Value;
    ValueOfByte(0xE0 + x);
    ValueOfByte(0x80 + y);
    ValueOfByte(0x80 + z);
  }

  lemma {:induction false} FourBytes(w: nat, x: nat, y: nat, z: nat, rest: seq<Byte>)
    requires w < 8 && x < 0x40 && y < 0x40 && z < 0x40
    ensures FirstOf([ToByte(0xF0 + w), ToByte(0x80 + x), ToByte(0x80 + y), ToByte(0x80 + z)] + rest) ==
              w * 0x4_0000 + x * 0x1000 + y * 0x40 + z
  {
    hide ToByte; hide Value;
    ValueOfByte(0xF0 + w);
    ValueOfByte(0x80 + x);
    ValueOfByte(0x80 + y);
    ValueOfByte(0x80 + z);
  }

  lemma {:induction false} Digits64(c: nat)
    ensures c == c / 0x40 * 0x40 + c % 0x40
    ensures c == c / 0x1000 * 0x1000 + c / 0x40 % 0x40 * 0x40 + c % 0x40
    ensures c == c / 0x4_0000 * 0x4_0000 + c / 0x1000 % 0x40 * 0x1000 + c / 0x40 % 0x40 * 0x40 + c % 0x40
  {
    var p := c / 0x40;
    var q := p / 0x40;
    DivTwice(c, 0x40);
    DivTwice(c, 0x1000);
    assert c == 0x40 * p + c % 0x40 && p == 0x40 * q + p % 0x40;
    assert q == 0x40 * (q / 0x40) + q % 0x40;
  }

  lemma {:induction false} DivTwice(c: nat, b: nat)
    requires b == 0x40 || b == 0x1000
    ensures c / b / 0x40 == c / (b * 0x40)
  {
    if b == 0x40 {
      assert c / 0x40 / 0x40 == c / 0x1000;
    } else {
      assert c / 0x1000 / 0x40 == c / 0x4_0000;
    }
  }

  /** What a character is encoded as gives the character back, whatever follows it. */
  lemma {:induction false} Utf8RoundTrip(c: nat, rest: seq<Byte>)
    requires c < 0x11_0000
    ensures Utf8(c) != [] && FirstOf(Utf8(c) + rest) == c
  {
    hide ToByte; hide FirstOf;
    Digits64(c);
    if c < 0x80 {
      OneByte(c, rest);
    } else if c < 0x800 {
      TwoBytes(c / 0x40, c % 0x40, rest);
    } else if c < 0x1_0000 {
      ThreeBytes(c / 0x1000, c / 0x40 % 0x40, c % 0x40, rest);
    } else {
      FourBytes(c / 0x4_0000, c / 0x1000 % 0x40, c / 0x40 % 0x40, c % 0x40, rest);
    }
  }

  // ---------------------------------------------------------------- the formulas of the code

  function Bits(d: nat): nat {
    if d == 0 then 0 else 1 + Bits(d / 2)
  }

  function Pow2(n: nat): (p: nat)
    ensures p >= 1
  {
    if n == 0 then 1 else 2 * Pow2(n - 1)
  }

  lemma {:induction false} BitsBound(d: nat, n: nat)
    ensures Bits(d) <= n <==> d < Pow2(n)
    decreases n
  {
    if n > 0 && d > 0 {
      BitsBound(d / 2, n - 1);
    }
  }

  /** The number of continuation bytes the bit count gives is the right one for every character. */
  lemma {:induction false} PayloadIs(c: nat)
    requires 0x80 <= c < 0x11_0000
    ensures (Bits(c) - 2) / 5 == |Utf8(c)| - 1
  {
    hide ToByte;
    assert Pow2(7) == 0x80 && Pow2(11) == 0x800 && Pow2(16) == 0x1_0000 && Pow2(21) == 0x20_0000;
    BitsBound(c, 7);
    BitsBound(c, 11);
    BitsBound(c, 16);
    BitsBound(c, 21);
  }

  /** `a | b` of two bytes. */
  function Or(a: Byte, b: Byte): Byte { a | b }

  lemma {:induction false} OrHigh(m: Nibble, h: Nibble, l: Nibble)
    ensures HighNibble(Or(Pair(m, 0), Pair(h, l))) == (m | h) && LowNibble(Or(Pair(m, 0), Pair(h, l))) == l
  {
  }

  /** The marks of the bytes do not overlap what is put into them. */
  lemma {:induction false} OrAdds(mark: nat, m: Nibble, n: nat)
    requires (mark == 0x80 && m == 8 && n < 0x40) || (mark == 0xC0 && m == 0xC && n < 0x20)
             || (mark == 0xE0 && m == 0xE && n < 0x10) || (mark == 0xF0 && m == 0xF && n < 8)
    ensures Or(Pair(m, 0), ToByte(n)) == ToByte(mark + n)
  {
    hide Pair; hide HighNibble; hide LowNibble; hide Or; hide ToNibble;
    var h, l := ToNibble(n / 0x10), ToNibble(n % 0x10);
    OrHigh(m, h, l);
    var x := Or(Pair(m, 0), Pair(h, l));
    PartsPair(x);
    OrNibbles(m, n / 0x10);
    assert (mark + n) / 0x10 == mark / 0x10 + n / 0x10 && (mark + n) % 0x10 == n % 0x10;
  }

  lemma {:induction false} OrNibbles(m: Nibble, n: nat)
    requires (m == 8 && n < 4) || (m == 0xC && n < 2) || (m == 0xE && n < 1) || (m == 0xF && n < 1)
    ensures m == 8 ==> (m | ToNibble(n)) == ToNibble(8 + n)
    ensures m == 0xC ==> (m | ToNibble(n)) == ToNibble(0xC + n)
    ensures m == 0xE ==> (m | ToNibble(n)) == ToNibble(0xE + n)
    ensures m == 0xF ==> (m | ToNibble(n)) == ToNibble(0xF + n)
  {
    if n == 0 {
    } else if n == 1 {
    } else if n == 2 {
    } else {
    }
  }

  /** `0xFF << (7 - b)`, truncated to a byte: the mark of the first of `b + 1` bytes. */
  function Mark(b: nat): Byte
    requires 1 <= b <= 3
  {
    if b == 1 then (((0xFF as bv16) << 6) & 0xFF) as Byte
    else if b == 2 then (((0xFF as bv16) << 5) & 0xFF) as Byte
    else (((0xFF as bv16) << 4) & 0xFF) as Byte
  }

  lemma {:induction false} MarkIs()
    ensures Mark(1) == Pair(0xC, 0) && Mark(2) == Pair(0xE, 0) && Mark(3) == Pair(0xF, 0) && 0x80 == Pair(8, 0)
  {
  }

  function Pow64(b: nat): (p: nat)
    requires b <= 3
    ensures p > 0
  {
    if b == 0 then 1 else if b == 1 then 0x40 else if b == 2 then 0x1000 else 0x4_0000
  }

  /** Head and continuation bytes, as the code puts them together. */
  lemma {:induction false} PartsAre(c: nat, b: nat)
    requires 0x80 <= c < 0x11_0000 && b == |Utf8(c)| - 1
    ensures 1 <= b <= 3 && Utf8(c)[0] == Or(Mark(b), ToByte(c / Pow64(b) % 0x100))
    ensures forall k: nat :: k < b ==> Utf8(c)[b - k] == Or(Pair(8, 0), ToByte(c / Pow64(k) % 0x40))
  {
    hide ToByte; hide Mark; hide Or; hide Pair;
    MarkIs();
    if b == 1 {
      OrAdds(0xC0, 0xC, c / 0x40);
    } else if b == 2 {
      OrAdds(0xE0, 0xE, c / 0x1000);
    } else {
      OrAdds(0xF0, 0xF, c / 0x4_0000);
    }
    forall k: nat | k < b
      ensures Utf8(c)[b - k] == Or(Pair(8, 0), ToByte(c / Pow64(k) % 0x40))
    {
      PartAt(c, b, k);
    }
  }

  lemma {:induction false} PartAt(c: nat, b: nat, k: nat)
    requires 0x80 <= c < 0x11_0000 && b == |Utf8(c)| - 1 && k < b <= 3
    ensures Utf8(c)[b - k] == Or(Pair(8, 0), ToByte(c / Pow64(k) % 0x40))
  {
    hide ToByte; hide Or; hide Pair;
    if k == 0 {
      OrAdds(0x80, 8, c % 0x40);
    } else if k == 1 {
      OrAdds(0x80, 8, c / 0x40 % 0x40);
    } else {
      OrAdds(0x80, 8, c / 0x1000 % 0x40);
    }
  }

  /** One character, with the length from its bit count. */
  method PutChar(c: nat) returns (out: seq<Byte>)
    requires c < 0x11_0000
    ensures out == Utf8(c)
  {
    hide ToByte; hide Mark; hide Or; hide Pair; hide Utf8; hide Pow64;
    if c < 0x80 {
      OneByteIs(c);
      return [ToByte(c)];
    }
    var b, d := 0, c;
    while d != 0
      invariant b + Bits(d) == Bits(c)
      decreases d
    {
      b := b + 1;
      d := d / 2;
    }
    PayloadIs(c);
    b := (b - 2) / 5;
    ghost var n: nat := b;
    PartsAre(c, n);
    MarkIs();
    out := [Or(Mark(b), ToByte(c / Pow64(b) % 0x100))];
    while b > 0
      invariant 0 <= b <= n && out == Utf8(c)[..n - b + 1]
    {
      b := b - 1;
      out := out + [Or(0x80, ToByte(c / Pow64(b) % 0x40))];
    }
  }

  lemma {:induction false} OneByteIs(c: nat)
    requires c < 0x80
    ensures Utf8(c) == [ToByte(c)]
  {
  }

  // ---------------------------------------------------------------- UTF-16

  /** The two bytes at the front as one unit. */
  function Unit(t: seq<Byte>, be: bool): (u: nat)
    requires |t| >= 2
    ensures u < 0x1_0000
  {
    hide Value;
    if be then 0x100 * Value(t[0]) + Value(t[1]) else 0x100 * Value(t[1]) + Value(t[0])
  }

  /** What the loop makes of the rest `t` of the document, well-formed or not: any unit in the surrogate range takes
      the one after it along, if there is one. */
  function Converted(t: seq<Byte>, be: bool): seq<Byte> {
    hide Unit;
    if |t| < 2 then []
    else
      var c := Unit(t, be);
      if !(0xD800 <= c <= 0xDFFF) then Utf8(c) + Converted(t[2..], be)
      else if |t| < 4 then Utf8(c)
      else
        var d := Unit(t[2..], be);
        Utf8(c % 0x400 * 0x400 + d % 0x400 + 0x1_0000) + Converted(t[4..], be)
  }

  function UnitBytes(u: nat, be: bool): (s: seq<Byte>)
    requires u < 0x1_0000
    ensures |s| == 2
  {
    if be then [ToByte(u / 0x100), ToByte(u % 0x100)] else [ToByte(u % 0x100), ToByte(u / 0x100)]
  }

  lemma {:induction false} UnitRoundTrip(u: nat, be: bool, rest: seq<Byte>)
    requires u < 0x1_0000
    ensures Unit(UnitBytes(u, be) + rest, be) == u
  {
    hide ToByte; hide Value;
    ValueOfByte(u / 0x100);
    ValueOfByte(u % 0x100);
  }

  /** A character in UTF-16, section 2.1 of RFC 2781. */
  function Utf16(c: nat, be: bool): seq<Byte>
    requires IsScalar(c)
  {
    if c < 0x1_0000 then UnitBytes(c, be)
    else UnitBytes(0xD800 + (c - 0x1_0000) / 0x400, be) + UnitBytes(0xDC00 + (c - 0x1_0000) % 0x400, be)
  }

  function AllUtf16(cs: seq<nat>, be: bool): seq<Byte>
    requires forall i :: 0 <= i < |cs| ==> IsScalar(cs[i])
  {
    if cs == [] then [] else Utf16(cs[0], be) + AllUtf16(cs[1..], be)
  }

  function AllUtf8(cs: seq<nat>): seq<Byte>
    requires forall i :: 0 <= i < |cs| ==> IsScalar(cs[i])
  {
    if cs == [] then []
    else
      assert IsScalar(cs[0]);
      Utf8(cs[0]) + AllUtf8(cs[1..])
  }

  lemma {:induction false} ConvertsOne(c: nat, be: bool, rest: seq<Byte>)
    requires IsScalar(c)
    ensures Converted(Utf16(c, be) + rest, be) == Utf8(c) + Converted(rest, be)
  {
    hide Utf8; hide Unit; hide UnitBytes;
    var t := Utf16(c, be) + rest;
    if c < 0x1_0000 {
      UnitRoundTrip(c, be, rest);
      assert t[2..] == rest;
    } else {
      var h, l := 0xD800 + (c - 0x1_0000) / 0x400, 0xDC00 + (c - 0x1_0000) % 0x400;
      UnitRoundTrip(h, be, UnitBytes(l, be) + rest);
      UnitRoundTrip(l, be, rest);
      assert t == UnitBytes(h, be) + (UnitBytes(l, be) + rest);
      assert t[2..] == UnitBytes(l, be) + rest && t[4..] == rest;
      Combine(c);
    }
  }

  lemma {:induction false} Combine(c: nat)
    requires 0x1_0000 <= c < 0x11_0000
    ensures var h, l := 0xD800 + (c - 0x1_0000) / 0x400, 0xDC00 + (c - 0x1_0000) % 0x400;
            0xD800 <= h < 0xDC00 && 0xDC00 <= l < 0xE000 && h % 0x400 * 0x400 + l % 0x400 + 0x1_0000 == c
  {
    var x := c - 0x1_0000;
    assert (0xD800 + x / 0x400) % 0x400 == x / 0x400;
    assert (0xDC00 + x % 0x400) % 0x400 == x % 0x400;
  }

  /** Well-formed UTF-16 of either byte order becomes the UTF-8 of the same characters. */
  lemma {:induction false} ConvertsAll(cs: seq<nat>, be: bool)
    requires forall i :: 0 <= i < |cs| ==> IsScalar(cs[i])
    ensures Converted(AllUtf16(cs, be), be) == AllUtf8(cs)
  {
    hide Converted; hide Utf8; hide Utf16;
    if cs == [] {
      ConvertsNothing(be);
    } else {
      ConvertsAll(cs[1..], be);
      ConvertsOne(cs[0], be, AllUtf16(cs[1..], be));
    }
  }

  lemma {:induction false} ConvertsNothing(be: bool)
    ensures Converted([], be) == []
  {
  }

  /** One character of each length. */
  lemma {:induction false} Utf8Examples()
    ensures Utf8(0x41) == [0x41] && Utf8(0xE9) == [0xC3, 0xA9] && Utf8(0x20AC) == [0xE2, 0x82, 0xAC]
    ensures Utf8(0x1_F600) == [0xF0, 0x9F, 0x98, 0x80]
  {
    hide ToByte;
    ByteIs(0x41, 0x41);
    ByteIs(0xC3, 0xC3); ByteIs(0xA9, 0xA9);
    ByteIs(0xE2, 0xE2); ByteIs(0x82, 0x82); ByteIs(0xAC, 0xAC);
    ByteIs(0xF0, 0xF0); ByteIs(0x9F, 0x9F); ByteIs(0x98, 0x98); ByteIs(0x80, 0x80);
  }

  const BUFSIZE := 1024

  function Bom(be: bool): seq<Byte> {
    if be then [0xFE, 0xFF] else [0xFF, 0xFE]
  }

  /** ezxml_str2utf8: a document whose first byte is that of a byte order mark is converted, any other is left alone.
      The output never exceeds the buffer, which grows by whole steps. */
  method Str2Utf8(s: seq<Byte>) returns (u: Option<seq<Byte>>, max: nat)
    requires s != []
    ensures u.None? <==> s[0] != 0xFE && s[0] != 0xFF
    ensures u.Some? ==> u.value == Converted(if |s| >= 2 then s[2..] else [], s[0] == 0xFE)
    ensures u.Some? ==> |u.value| <= max && max >= |s| && (max - |s|) % BUFSIZE == 0
  {
    hide Utf8; hide Unit;
    if s[0] != 0xFE && s[0] != 0xFF {
      return None, 0;
    }
    var be := s[0] == 0xFE;
    max := |s|;
    var out: seq<Byte> := [];
    var sl := 2;
    ghost var t := if |s| >= 2 then s[2..] else [];
    while sl < |s| - 1
      invariant 2 <= sl && (sl <= |s| ==> out + Converted(s[sl..], be) == Converted(t, be))
      invariant sl > |s| ==> out == Converted(t, be)
      invariant |out| <= max && max >= |s| && (max - |s|) % BUFSIZE == 0
    {
      ghost var rest := s[sl..];
      assert rest[2..] == s[sl + 2..];
      var c := Unit(s[sl..], be);
      if 0xD800 <= c <= 0xDFFF {
        sl := sl + 2;
        if sl < |s| - 1 {
          var d := Unit(s[sl..], be);
          c := c % 0x400 * 0x400 + d % 0x400 + 0x1_0000;
          assert rest[4..] == s[sl + 2..];
        }
      }
      while |out| + 6 > max
        invariant max >= |s| && (max - |s|) % BUFSIZE == 0
        decreases |out| + 6 - max
      {
        max := max + BUFSIZE;
      }
      var put := PutChar(c);
      Utf8Short(c);
      ghost var before := out;
      out := out + put;
      sl := sl + 2;
      if sl <= |s| {
        assert out + Converted(s[sl..], be) == before + (put + Converted(s[sl..], be));
      }
    }
    return Some(out), max;
  }

  lemma {:induction false} Utf8Short(c: nat)
    requires c < 0x11_0000
    ensures |Utf8(c)| <= 4
  {
  }

  /** The whole conversion of a well-formed document with a byte order mark. */
  lemma {:induction false} DocumentConverts(cs: seq<nat>, be: bool)
    requires forall i :: 0 <= i < |cs| ==> IsScalar(cs[i])
    ensures var s := Bom(be) + AllUtf16(cs, be);
            (s[0] == 0xFE <==> be) && Converted(s[2..], be) == AllUtf8(cs)
  {
    ConvertsAll(cs, be);
    assert (Bom(be) + AllUtf16(cs, be))[2..] == AllUtf16(cs, be);
  }
}
