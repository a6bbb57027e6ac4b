/** Ids as base-62 strings: baseconvert and its two callers in libopenspotify/sp_link.c, the hexadecimal conversions of
    util.c. */
module BaseConvert {
  import opened Words

  // ---------------------------------------------------------------- digits and numbers

  /** The alphabet: digits, lower case, upper case, plus and slash. */
  function Symbol(d: nat): char
    requires d < 64
  {
    if d < 10 then ('0' as int + d) as char
    else if d < 36 then ('a' as int + d - 10) as char
    else if d < 62 then ('A' as int + d - 36) as char
    else if d == 62 then '+' else '/'
  }

  predicate InAlphabet(c: char) {
    '0' <= c <= '9' || 'a' <= c <= 'z' || 'A' <= c <= 'Z' || c == '+' || c == '/'
  }

  /** Where strchr finds a character of the alphabet. */
  function Digit(c: char): (d: nat)
    requires InAlphabet(c)
    ensures d < 64
  {
    if '0' <= c <= '9' then c as int - '0' as int
    else if 'a' <= c <= 'z' then c as int - 'a' as int + 10
    else if 'A' <= c <= 'Z' then c as int - 'A' as int + 36
    else if c == '+' then 62 else 63
  }

  lemma {:induction false} SymbolOfDigit(c: char)
    requires InAlphabet(c)
    ensures Symbol(Digit(c)) == c
  {
  }

  lemma {:induction false} DigitOfSymbol(d: nat)
    requires d < 64
    ensures InAlphabet(Symbol(d)) && Digit(Symbol(d)) == d
  {
  }

  const DIGITS := "0123456789"
  const LOWER := "abcdefghijklmnopqrstuvwxyz"
  const UPPER := "ABCDEFGHIJKLMNOPQRSTUVWXYZ"
  const ALPHABET := DIGITS + LOWER + UPPER + "+/"

  predicate IsRun(s: string) {
    |s| <= 26 && forall i :: 0 < i < |s| ==> s[i] as int == s[i - 1] as int + 1
  }

  lemma {:induction false} AreRuns()
    ensures IsRun(DIGITS) && IsRun(LOWER) && IsRun(UPPER)
  {
  }

  lemma {:induction false} RunAt(s: string, k: nat)
    requires IsRun(s) && k < |s|
    ensures s[k] as int == s[0] as int + k
  {
    if k > 0 {
      RunAt(s, k - 1);
    }
  }

  lemma {:induction false} AlphabetAt(d: nat)
    requires d < 64
    ensures |DIGITS| == 10 && |LOWER| == 26 && |UPPER| == 26 && |ALPHABET| == 64
    ensures ALPHABET[d] == if d < 10 then DIGITS[d] else if d < 36 then LOWER[d - 10] else if d < 62 then UPPER[d - 36]
                           else if d == 62 then '+' else '/'
  {
    assert |DIGITS| == 10 && |LOWER| == 26 && |UPPER| == 26;
  }

  /** The digits are the places in the alphabet. */
  lemma {:induction false} AlphabetIs(d: nat)
    requires d < 64
    ensures |ALPHABET| == 64 && Symbol(d) == ALPHABET[d] && InAlphabet(ALPHABET[d]) && Digit(ALPHABET[d]) == d
  {
    hide IsRun; hide InAlphabet; hide Digit;
    AreRuns();
    AlphabetAt(d);
    DigitOfSymbol(d);
    if d < 10 {
      RunAt(DIGITS, d);
    } else if d < 36 {
      RunAt(LOWER, d - 10);
    } else if d < 62 {
      RunAt(UPPER, d - 36);
    }
  }

  predicate AllInAlphabet(s: string) {
    forall i :: 0 <= i < |s| ==> InAlphabet(s[i])
  }

  function DigitsOf(s: string): (d: seq<nat>)
    requires AllInAlphabet(s)
    ensures |d| == |s| && forall i :: 0 <= i < |d| ==> d[i] == Digit(s[i])
  {
    seq(|s|, i requires 0 <= i < |s| => Digit(s[i]))
  }

  function Symbols(d: seq<nat>): (s: string)
    requires forall i :: 0 <= i < |d| ==> d[i] < 64
    ensures |s| == |d| && AllInAlphabet(s)
  {
    hide Symbol; hide InAlphabet;
    assert forall i :: 0 <= i < |d| ==> InAlphabet(Symbol(d[i])) by {
      forall i | 0 <= i < |d| ensures InAlphabet(Symbol(d[i])) { DigitOfSymbol(d[i]); }
    }
    seq(|d|, i requires 0 <= i < |d| => Symbol(d[i]))
  }

  /** The number a sequence of digits stands for, most significant digit first. */
  function Number(d: seq<nat>, base: nat): (n: nat)
    ensures |d| == 1 ==> n == d[0]
  {
    if d == [] then 0 else Number(d[..|d| - 1], base) * base + d[|d| - 1]
  }

  function Quot(v: nat, base: nat): (q: nat)
    requires base > 0
  {
    v / base
  }

  function Rem(v: nat, base: nat): (r: nat)
    requires base > 0
    ensures r < base && v == Quot(v, base) * base + r
  {
    v % base
  }

  /** The `n` lowest digits of a number. */
  function Digits(v: nat, base: nat, n: nat): (d: seq<nat>)
    requires base > 0
    ensures |d| == n && forall i :: 0 <= i < n ==> d[i] < base
    decreases n
  {
    hide Quot; hide Rem;
    if n == 0 then [] else Digits(Quot(v, base), base, n - 1) + [Rem(v, base)]
  }

  function Power(b: nat, n: nat): nat {
    if n == 0 then 1 else Power(b, n - 1) * b
  }

  lemma {:induction false} DivideUp(v: nat, b: nat, p: nat)
    requires b > 0
    ensures v < p * b <==> Quot(v, b) < p
  {
    hide Quot; hide Rem;
    var q, r := Quot(v, b), Rem(v, b);
    if q < p {
      assert (q + 1) * b <= p * b by { MulLe(q + 1, p, b); }
    } else {
      MulLe(p, q, b);
    }
  }

  lemma {:induction false} MulLe(x: nat, y: nat, b: nat)
    requires x <= y
    ensures x * b <= y * b
  {
  }

  /** The first digit counts most. */
  lemma {:induction false} NumberFirst(x: nat, d: seq<nat>, base: nat)
    ensures Number([x] + d, base) == x * Power(base, |d|) + Number(d, base)
  {
    if d == [] {
      assert [x] + d == [x];
    } else {
      var init := d[..|d| - 1];
      NumberFirst(x, init, base);
      assert ([x] + d)[..|d|] == [x] + init;
      Regroup(x, Power(base, |init|), Number(init, base), base);
    }
  }

  lemma {:induction false} Regroup(x: nat, p: nat, n: nat, base: nat)
    ensures (x * p + n) * base == x * (p * base) + n * base
  {
  }

  /** Enough digits give the number back. */
  lemma {:induction false} NumberOfDigits(v: nat, base: nat, n: nat)
    requires base > 0 && v < Power(base, n)
    ensures Number(Digits(v, base, n), base) == v
    decreases n
  {
    hide Quot; hide Rem;
    if n > 0 {
      DivideUp(v, base, Power(base, n - 1));
      NumberOfDigits(Quot(v, base), base, n - 1);
      var d := Digits(v, base, n);
      assert d[..n - 1] == Digits(Quot(v, base), base, n - 1);
    }
  }

  lemma {:induction false} DivMod(q: nat, r: nat, base: nat)
    requires r < base
    ensures Quot(q * base + r, base) == q && Rem(q * base + r, base) == r
  {
    hide Quot; hide Rem;
    var v := q * base + r;
    var p := Quot(v, base);
    assert v == p * base + Rem(v, base);
    if p < q {
      MulLe(p + 1, q, base);
    } else if p > q {
      MulLe(q + 1, p, base);
    }
  }

  /** A number's digits are unique. */
  lemma {:induction false} DigitsOfNumber(d: seq<nat>, base: nat)
    requires base > 0 && forall i :: 0 <= i < |d| ==> d[i] < base
    ensures Digits(Number(d, base), base, |d|) == d && Number(d, base) < Power(base, |d|)
  {
    hide Quot; hide Rem;
    if d != [] {
      var init := d[..|d| - 1];
      DigitsOfNumber(init, base);
      DivMod(Number(init, base), d[|d| - 1], base);
      DivideUp(Number(d, base), base, Power(base, |init|));
    }
  }

  lemma {:induction false} ZeroDigits(base: nat, n: nat)
    requires base > 0
    ensures Digits(0, base, n) == seq(n, _ => 0)
  {
    hide Quot; hide Rem;
    if n > 0 {
      DivMod(0, 0, base);
      ZeroDigits(base, n - 1);
    }
  }

  // ---------------------------------------------------------------- the in-place long division

  lemma {:induction false} DivisionStep(v: nat, q: nat, r: nat, from: nat, to: nat, d: nat)
    requires to > 0 && v == q * to + r
    ensures v * from + d == (q * from + Quot(r * from + d, to)) * to + Rem(r * from + d, to)
  {
    hide Quot; hide Rem;
    var x := r * from + d;
    assert v * from == (q * from) * to + r * from;
    assert (q * from + Quot(x, to)) * to == (q * from) * to + Quot(x, to) * to;
    assert x == Quot(x, to) * to + Rem(x, to);
  }

  lemma {:induction false} NumberNothing(base: nat)
    ensures Number([], base) == 0
  {
  }

  lemma {:induction false} NumberNext(d: seq<nat>, x: nat, base: nat)
    ensures Number(d + [x], base) == Number(d, base) * base + x
  {
    assert (d + [x])[..|d|] == d;
  }

  /** The division of one more digit: a quotient digit is added, unless it would lead with a zero. */
  lemma {:induction false} Divided(d: seq<nat>, i: nat, q: seq<nat>, r: nat, from: nat, to: nat)
    requires i < |d| && 0 < to && Number(d[..i], from) == Number(q, from) * to + r
    ensures var x := r * from + d[i];
            && Number(d[..i + 1], from) == Number(q + [Quot(x, to)], from) * to + Rem(x, to)
            && (x < to ==> Number(d[..i + 1], from) == Number(q + [0], from) * to + x)
            && (x < to && q == [] ==> Number(d[..i + 1], from) == Number(q, from) * to + x)
  {
    hide Quot; hide Rem; hide Number;
    var x := r * from + d[i];
    DivisionStep(Number(d[..i], from), Number(q, from), r, from, to, d[i]);
    assert d[..i + 1] == d[..i] + [d[i]];
    NumberNext(d[..i], d[i], from);
    NumberNext(q, Quot(x, to), from);
    if x < to {
      SmallDivide(x, to);
      NumberNothing(from);
    }
  }

  lemma {:induction false} LeadingDigit(d: seq<nat>, base: nat)
    requires base > 0 && d != [] && d[0] > 0
    ensures Number(d, base) > 0
  {
    if |d| > 1 {
      LeadingDigit(d[..|d| - 1], base);
      var n := Number(d[..|d| - 1], base);
      assert n * base > 0;
    }
  }

  /** One pass of the division: the quotient replaces the number in place, the remainder is returned. */
  method Divide(number: array<nat>, len: nat, frombase: nat, tobase: nat) returns (newlen: nat, divide: nat)
    requires len <= number.Length && frombase > 0 && tobase > 0
    modifies number
    ensures newlen <= len && divide < tobase
    ensures old(Number(number[..len], frombase)) == Number(number[..newlen], frombase) * tobase + divide
    ensures newlen != 0 <==> Number(number[..newlen], frombase) != 0
  {
    hide Quot; hide Rem; hide Number;
    ghost var d := number[..len];
    NumberNothing(frombase);
    assert d[..0] == [] && number[..0] == [];
    newlen, divide := 0, 0;
    for i := 0 to len
      invariant newlen <= i && divide < tobase && forall k :: i <= k < len ==> number[k] == d[k]
      invariant Number(d[..i], frombase) == Number(number[..newlen], frombase) * tobase + divide
      invariant newlen > 0 ==> number[0] > 0
    {
      ghost var q := number[..newlen];
      Divided(d, i, q, divide, frombase, tobase);
      divide := divide * frombase + number[i];
      if divide >= tobase {
        QuotientPositive(divide, tobase);
        number[newlen] := Quot(divide, tobase);
        assert number[..newlen + 1] == q + [number[newlen]];
        newlen := newlen + 1;
        divide := Rem(divide, tobase);
      } else if newlen > 0 {
        number[newlen] := 0;
        assert number[..newlen + 1] == q + [0];
        newlen := newlen + 1;
      }
    }
    assert d[..len] == d;
    if newlen > 0 {
      LeadingDigit(number[..newlen], frombase);
    } else {
      assert number[..newlen] == [];
    }
  }

  lemma {:induction false} QuotientPositive(x: nat, to: nat)
    requires 0 < to <= x
    ensures Quot(x, to) > 0
  {
    hide Quot; hide Rem;
    assert Rem(x, to) < to;
  }

  lemma {:induction false} SmallDivide(x: nat, to: nat)
    requires x < to
    ensures Quot(x, to) == 0 && Rem(x, to) == x
  {
    hide Quot; hide Rem;
    DivMod(0, x, to);
  }

  /** The strings whose digits baseconvert finds, and has room for. */
  predicate Readable(s: string) {
    |s| <= 128 && AllInAlphabet(s)
  }

  /** Look up the digits; at a character that strchr does not find, or past the end of the array, the model stops. */
  method Load(src: string) returns (number: array<nat>, ok: bool)
    ensures fresh(number) && number.Length == 128 && (ok <==> Readable(src))
    ensures ok ==> number[..|src|] == DigitsOf(src)
  {
    hide InAlphabet; hide Digit;
    number := new nat[128];
    ok := false;
    for i := 0 to |src|
      invariant i <= 128 && AllInAlphabet(src[..i]) && number[..i] == DigitsOf(src[..i])
    {
      if i == 128 || !InAlphabet(src[i]) {
        return;
      }
      number[i] := Digit(src[i]);
    }
    ok := true;
    assert src[..|src|] == src;
  }

  /** A string with a `#` in it is not readable, whatever is around it. */
  lemma {:induction false} HashNotReadable(before: string, behind: string)
    ensures !Readable(before + "#" + behind)
  {
    var s := before + "#" + behind;
    assert s[|before|] == '#' && !InAlphabet(s[|before|]);
  }

  method Clear(dest: array<char>, padlen: nat)
    requires padlen < dest.Length
    modifies dest
    ensures (forall i :: 0 <= i < padlen ==> dest[i] == '0') && dest[padlen] == 0 as char
    ensures forall i :: padlen < i < dest.Length ==> dest[i] == old(dest[i])
  {
    forall i | 0 <= i < padlen {
      dest[i] := '0';
    }
    dest[padlen] := 0 as char;
  }

  /** The conversion keeps the number: the result is its digits in the new base, padded with zeros to the length asked
      for. It stays inside its arrays and its alphabet, outside of which the model stops and returns `false`, if and
      only if the string is readable and its number has no more digits than that. */
  method Convert(src: string, dest: array<char>, frombase: nat, tobase: nat, padlen: nat) returns (inside: bool)
    requires 0 < frombase && 2 <= tobase <= 64 && 0 < padlen < dest.Length
    modifies dest
    ensures inside <==> Readable(src) && Number(DigitsOf(src), frombase) < Power(tobase, padlen)
    ensures Readable(src) ==>
              dest[..padlen] == Symbols(Digits(Number(DigitsOf(src), frombase), tobase, padlen))
              && dest[padlen] == 0 as char
    ensures forall i :: padlen < i < dest.Length ==> dest[i] == old(dest[i])
  {
    hide Number; hide Digits; hide Symbols; hide Symbol; hide InAlphabet; hide Power; hide Digit;
    var number, ok := Load(src);
    if !ok {
      return false;
    }
    var len: nat := |src|;
    ghost var v := Number(DigitsOf(src), frombase);
    Clear(dest, padlen);
    var pad := padlen;
    ghost var rest: seq<nat>, left := [], v;
    assert Digits(v, tobase, pad) + rest == Digits(v, tobase, padlen);
    SymbolsNothing();
    while true
      invariant 0 <= pad <= padlen && len <= number.Length && left == Number(number[..len], frombase)
      invariant left < Power(tobase, pad) <==> v < Power(tobase, padlen)
      invariant pad == 0 ==> left != 0
      invariant |rest| == padlen - pad && (forall i :: 0 <= i < |rest| ==> rest[i] < tobase)
                && dest[pad..padlen] == Symbols(rest)
      invariant Digits(left, tobase, pad) + rest == Digits(v, tobase, padlen)
      invariant (forall i :: 0 <= i < pad ==> dest[i] == '0') && dest[padlen] == 0 as char
      invariant forall i :: padlen < i < dest.Length ==> dest[i] == old(dest[i])
      decreases pad
    {
      var newlen, divide := Divide(number, len, frombase, tobase);
      ghost var q := Number(number[..newlen], frombase);
      len := newlen;
      if pad == 0 {
        inside := false;
        NoRoom(left, tobase);
        DigitsNothing(left, tobase);
        break;
      }
      DigitOut(left, q, divide, tobase, pad);
      pad := pad - 1;
      ghost var tail := dest[pad + 1..padlen];
      dest[pad] := Symbol(divide);
      SymbolsCons(divide, rest);
      assert dest[pad..padlen] == [Symbol(divide)] + tail;
      assert Digits(left, tobase, pad + 1) + rest == Digits(q, tobase, pad) + ([divide] + rest);
      rest, left := [divide] + rest, q;
      if newlen == 0 {
        inside := true;
        PowerPositive(tobase, pad);
        break;
      }
    }
    assert Digits(left, tobase, pad) == Digits(0, tobase, pad);
    PaddedResult(dest[..padlen], pad, tobase, rest);
  }

  /** Digits of the number behind zeros are its digits with zeros in front. */
  lemma {:induction false} PaddedResult(s: string, pad: nat, base: nat, rest: seq<nat>)
    requires 2 <= base <= 64 && pad <= |s| && (forall i :: 0 <= i < pad ==> s[i] == '0')
    requires (forall i :: 0 <= i < |rest| ==> rest[i] < base) && s[pad..] == Symbols(rest)
    ensures (forall i :: 0 <= i < |Digits(0, base, pad) + rest| ==> (Digits(0, base, pad) + rest)[i] < 64)
    ensures s == Symbols(Digits(0, base, pad) + rest)
  {
    hide Symbols; hide Digits; hide InAlphabet;
    ZeroSymbols(base, pad, rest);
    assert s == s[..pad] + s[pad..];
    assert s[..pad] == seq(pad, _ => '0');
  }

  lemma {:induction false} SymbolsNothing()
    ensures Symbols([]) == []
  {
  }

  lemma {:induction false} SymbolsCons(x: nat, d: seq<nat>)
    requires x < 64 && forall i :: 0 <= i < |d| ==> d[i] < 64
    ensures Symbols([x] + d) == [Symbol(x)] + Symbols(d)
  {
    hide Symbol; hide InAlphabet;
  }

  /** One digit is split off; the quotient has one digit less. */
  lemma {:induction false} DigitOut(v: nat, q: nat, r: nat, base: nat, n: nat)
    requires 0 < base && 0 < n && v == q * base + r && r < base
    ensures Digits(v, base, n) == Digits(q, base, n - 1) + [r]
    ensures q < Power(base, n - 1) <==> v < Power(base, n)
  {
    hide Quot; hide Rem;
    DivMod(q, r, base);
    DivideUp(v, base, Power(base, n - 1));
  }

  lemma {:induction false} DigitsNothing(v: nat, base: nat)
    requires base > 0
    ensures Digits(v, base, 0) == Digits(0, base, 0)
  {
  }

  lemma {:induction false} NoRoom(q: nat, base: nat)
    requires q != 0
    ensures q >= Power(base, 0)
  {
  }

  lemma {:induction false} PowerPositive(base: nat, n: nat)
    requires base > 0
    ensures Power(base, n) > 0
  {
    if n > 0 {
      PowerPositive(base, n - 1);
    }
  }

  lemma {:induction false} ZeroSymbols(base: nat, n: nat, rest: seq<nat>)
    requires 0 < base && forall i :: 0 <= i < |rest| ==> rest[i] < 64
    ensures forall i :: 0 <= i < |Digits(0, base, n) + rest| ==> (Digits(0, base, n) + rest)[i] < 64
    ensures Symbols(Digits(0, base, n) + rest) == seq(n, _ => '0') + Symbols(rest)
  {
    hide InAlphabet;
    ZeroDigits(base, n);
  }

  // ---------------------------------------------------------------- hexadecimal, util.c

  /** Two hexadecimal digits for each byte. */
  function HexDigits(b: seq<Byte>): (d: seq<nat>)
    ensures |d| == 2 * |b| && forall i :: 0 <= i < |d| ==> d[i] < 16
  {
    hide Value;
    if b == [] then [] else HexDigits(b[..|b| - 1]) + [Value(b[|b| - 1]) / 16, Value(b[|b| - 1]) % 16]
  }

  function BytesOfHex(d: seq<nat>): (b: seq<Byte>)
    requires |d| % 2 == 0 && forall i :: 0 <= i < |d| ==> d[i] < 16
    ensures 2 * |b| == |d|
  {
    if d == [] then [] else BytesOfHex(d[..|d| - 2]) + [ToByte(16 * d[|d| - 2] + d[|d| - 1])]
  }

  lemma {:induction false} HexNothing()
    ensures HexDigits([]) == []
  {
  }

  lemma {:induction false} HexNext(b: seq<Byte>, x: Byte)
    ensures HexDigits(b + [x]) == HexDigits(b) + [Value(x) / 16, Value(x) % 16]
  {
    hide Value;
    assert (b + [x])[..|b + [x]| - 1] == b;
  }

  lemma {:induction false} BytesNext(d: seq<nat>, h: nat, l: nat)
    requires |d| % 2 == 0 && h < 16 && l < 16 && forall i :: 0 <= i < |d| ==> d[i] < 16
    ensures BytesOfHex(d + [h, l]) == BytesOfHex(d) + [ToByte(16 * h + l)]
  {
    hide ToByte;
    assert (d + [h, l])[..|d + [h, l]| - 2] == d;
  }

  lemma {:induction false} HexRoundTrip(b: seq<Byte>)
    ensures BytesOfHex(HexDigits(b)) == b
  {
    hide Value; hide ToByte; hide HexDigits; hide BytesOfHex;
    if b == [] {
      HexNothing();
    } else {
      var init, last := b[..|b| - 1], b[|b| - 1];
      HexRoundTrip(init);
      ByteOfValue(last);
      HexNext(init, last);
      BytesNext(HexDigits(init), Value(last) / 16, Value(last) % 16);
      assert init + [last] == b;
    }
  }

  lemma {:induction false} BytesRoundTrip(d: seq<nat>)
    requires |d| % 2 == 0 && forall i :: 0 <= i < |d| ==> d[i] < 16
    ensures HexDigits(BytesOfHex(d)) == d
  {
    hide Value; hide ToByte; hide HexDigits; hide BytesOfHex;
    if d == [] {
      HexNothing();
    } else {
      var init, h, l := d[..|d| - 2], d[|d| - 2], d[|d| - 1];
      BytesRoundTrip(init);
      BytesNext(init, h, l);
      HexNext(BytesOfHex(init), ToByte(16 * h + l));
      ValueOfByte(16 * h + l);
      assert init + [h, l] == d;
    }
  }

  /** hex_bytes_to_ascii, with the terminator sprintf leaves. */
  method HexBytesToAscii(bytes: seq<Byte>, ascii: array<char>, len: nat)
    requires len <= |bytes| && 2 * len < ascii.Length
    modifies ascii
    ensures ascii[..2 * len] == Symbols(HexDigits(bytes[..len]))
  {
    hide Symbols; hide Symbol; hide Value; hide HexDigits; hide InAlphabet;
    HexNothing();
    SymbolsNothing();
    assert bytes[..0] == [];
    for i := 0 to len
      invariant ascii[..2 * i] == Symbols(HexDigits(bytes[..i]))
    {
      var v := Value(bytes[i]);
      ghost var done := ascii[..2 * i];
      ascii[2 * i], ascii[2 * i + 1], ascii[2 * i + 2] := Symbol(v / 16), Symbol(v % 16), 0 as char;
      HexSymbols(bytes[..i], bytes[i]);
      assert bytes[..i + 1] == bytes[..i] + [bytes[i]];
      assert ascii[..2 * i + 2] == done + [Symbol(v / 16), Symbol(v % 16)];
    }
  }

  lemma {:induction false} HexSymbols(b: seq<Byte>, x: Byte)
    ensures Symbols(HexDigits(b + [x])) == Symbols(HexDigits(b)) + [Symbol(Value(x) / 16), Symbol(Value(x) % 16)]
  {
    hide Value; hide Symbol; hide InAlphabet; hide HexDigits;
    HexNext(b, x);
  }

  predicate IsHex(c: char) {
    '0' <= c <= '9' || 'a' <= c <= 'f' || 'A' <= c <= 'F'
  }

  function HexDigit(c: char): (d: nat)
    requires IsHex(c)
    ensures d < 16
  {
    if '0' <= c <= '9' then c as int - '0' as int else if 'a' <= c <= 'f' then c as int - 'a' as int + 10
      else c as int - 'A' as int + 10
  }

  datatype Scan = Scanned(value: nat) | NoMatch

  /** sscanf with "%02x" on two characters. */
  function ScanHex(c0: char, c1: char): (s: Scan)
    ensures s.Scanned? <==> IsHex(c0)
    ensures s.Scanned? ==> s.value < 0x100
  {
    if !IsHex(c0) then NoMatch
    else if !IsHex(c1) then Scanned(HexDigit(c0))
    else Scanned(16 * HexDigit(c0) + HexDigit(c1))
  }

  /** hex_ascii_to_bytes: it stops at the first pair that does not start with a hexadecimal digit. */
  method HexAsciiToBytes(ascii: string, bytes: array<Byte>, len: nat) returns (ok: bool)
    requires 2 * len <= |ascii| && len <= bytes.Length
    modifies bytes
    ensures ok <==> forall i :: 0 <= i < len ==> ScanHex(ascii[2 * i], ascii[2 * i + 1]).Scanned?
    ensures ok ==> forall i :: 0 <= i < len ==> bytes[i] == ToByte(ScanHex(ascii[2 * i], ascii[2 * i + 1]).value)
    ensures forall i :: len <= i < bytes.Length ==> bytes[i] == old(bytes[i])
  {
    hide ToByte; hide IsHex; hide HexDigit; hide ScanHex;
    for i := 0 to len
      invariant forall k :: 0 <= k < i ==>
                  ScanHex(ascii[2 * k], ascii[2 * k + 1]).Scanned?
                    && bytes[k] == ToByte(ScanHex(ascii[2 * k], ascii[2 * k + 1]).value)
      invariant forall k :: len <= k < bytes.Length ==> bytes[k] == old(bytes[k])
    {
      var s := ScanHex(ascii[2 * i], ascii[2 * i + 1]);
      if s == NoMatch {
        return false;
      }
      bytes[i] := ToByte(s.value);
    }
    return true;
  }

  // ---------------------------------------------------------------- ids and uris

  lemma {:induction false} PowerAdds(b: nat, m: nat, n: nat)
    ensures Power(b, m + n) == Power(b, m) * Power(b, n)
  {
    if n > 0 {
      PowerAdds(b, m, n - 1);
      assert Power(b, m) * Power(b, n - 1) * b == Power(b, m) * (Power(b, n - 1) * b);
    }
  }

  /** Twenty-two digits in base 62 have room for sixteen bytes. */
  lemma {:induction false} UriHasRoom()
    ensures Power(16, 32) <= Power(62, 22)
  {
    assert Power(16, 4) == 0x1_0000 && Power(62, 2) == 3844;
    PowerAdds(16, 4, 4);
    PowerAdds(16, 8, 8);
    PowerAdds(16, 16, 16);
    PowerAdds(62, 2, 2);
    PowerAdds(62, 4, 4);
    PowerAdds(62, 8, 8);
    PowerAdds(62, 16, 4);
    PowerAdds(62, 20, 2);
  }

  /** The number an id stands for. */
  function IdNumber(id: seq<Byte>): nat {
    Number(HexDigits(id), 16)
  }

  function UriOf(id: seq<Byte>): (uri: string)
    ensures |uri| == 22
  {
    Symbols(Digits(IdNumber(id), 62, 22))
  }

  function IdOf(uri: string): (id: seq<Byte>)
    requires AllInAlphabet(uri)
    ensures |id| == 16
  {
    BytesOfHex(Digits(Number(DigitsOf(uri), 62), 16, 32))
  }

  lemma {:induction false} DigitsOfSymbols(d: seq<nat>)
    requires forall i :: 0 <= i < |d| ==> d[i] < 64
    ensures DigitsOf(Symbols(d)) == d
  {
    hide Symbol; hide Digit; hide InAlphabet;
    forall i | 0 <= i < |d|
      ensures DigitsOf(Symbols(d))[i] == d[i]
    {
      DigitOfSymbol(d[i]);
    }
  }

  lemma {:induction false} SymbolsOfDigits(s: string)
    requires AllInAlphabet(s)
    ensures Symbols(DigitsOf(s)) == s
  {
    hide Symbol; hide Digit; hide InAlphabet;
    forall i | 0 <= i < |s|
      ensures Symbols(DigitsOf(s))[i] == s[i]
    {
      SymbolOfDigit(s[i]);
    }
  }

  lemma {:induction false} IdFits(id: seq<Byte>)
    requires |id| == 16
    ensures IdNumber(id) < Power(16, 32) <= Power(62, 22)
    ensures AllInAlphabet(UriOf(id)) && Number(DigitsOf(UriOf(id)), 62) == IdNumber(id)
  {
    hide Number; hide Digits; hide HexDigits; hide Symbols; hide Power;
    DigitsOfNumber(HexDigits(id), 16);
    UriHasRoom();
    NumberOfDigits(IdNumber(id), 62, 22);
    DigitsOfSymbols(Digits(IdNumber(id), 62, 22));
  }

  /** Converting an id to a uri and back gives the id. */
  lemma {:induction false} IdRoundTrip(id: seq<Byte>)
    requires |id| == 16
    ensures AllInAlphabet(UriOf(id)) && IdOf(UriOf(id)) == id
  {
    hide Number; hide Digits; hide HexDigits; hide BytesOfHex; hide UriOf; hide AllInAlphabet; hide Power;
    IdFits(id);
    DigitsOfNumber(HexDigits(id), 16);
    HexRoundTrip(id);
  }

  /** Converting a uri of 22 base-62 digits to an id and back gives the uri, if its number fits in an id. */
  lemma {:induction false} UriRoundTrip(uri: string)
    requires |uri| == 22 && AllInAlphabet(uri) && (forall i :: 0 <= i < 22 ==> DigitsOf(uri)[i] < 62)
    requires Number(DigitsOf(uri), 62) < Power(16, 32)
    ensures UriOf(IdOf(uri)) == uri
  {
    hide Number; hide Digits; hide HexDigits; hide BytesOfHex; hide Symbols; hide InAlphabet; hide Power;
    var v := Number(DigitsOf(uri), 62);
    BytesRoundTrip(Digits(v, 16, 32));
    NumberOfDigits(v, 16, 32);
    DigitsOfNumber(DigitsOf(uri), 62);
    SymbolsOfDigits(uri);
  }

  /** Exactly those strings are uris of ids. */
  lemma {:induction false} IsUriIff(uri: string)
    requires |uri| == 22 && AllInAlphabet(uri) && (forall i :: 0 <= i < 22 ==> DigitsOf(uri)[i] < 62)
    ensures (exists id :: |id| == 16 && UriOf(id) == uri) <==> Number(DigitsOf(uri), 62) < Power(16, 32)
  {
    hide Number; hide UriOf; hide IdOf; hide Power; hide InAlphabet;
    if id :| |id| == 16 && UriOf(id) == uri {
      IdFits(id);
    }
    if Number(DigitsOf(uri), 62) < Power(16, 32) {
      UriRoundTrip(uri);
      assert |IdOf(uri)| == 16;
    }
  }

  /** id_bytes_to_uri. */
  method IdBytesToUri(id: seq<Byte>, uri: array<char>)
    requires |id| == 16 && uri.Length >= 23
    modifies uri
    ensures uri[..22] == UriOf(id) && uri[22] == 0 as char
  {
    hide Symbols; hide HexDigits; hide Digits; hide Number; hide Power; hide AllInAlphabet;
    var hex := new char[33];
    HexBytesToAscii(id, hex, 16);
    hex[32] := 0 as char;
    assert id[..16] == id;
    IdFits(id);
    DigitsOfSymbols(HexDigits(id));
    var inside := Convert(hex[..32], uri, 16, 62, 22);
    uri[22] := 0 as char;
  }

  /** id_uri_to_bytes: it stays inside its arrays if and only if the uri is readable and its number fits in an id, and
      then finds the id. */
  method IdUriToBytes(uri: string, id: array<Byte>) returns (inside: bool)
    requires id.Length >= 16
    modifies id
    ensures inside <==> Readable(uri) && Number(DigitsOf(uri), 62) < Power(16, 32)
    ensures inside ==> id[..16] == IdOf(uri)
  {
    hide Symbols; hide BytesOfHex; hide Digits; hide Number; hide Power; hide AllInAlphabet;
    var hex := new char[33];
    inside := Convert(uri, hex, 62, 16, 32);
    if !inside {
      return;
    }
    hex[32] := 0 as char;
    ghost var d := Digits(Number(DigitsOf(uri), 62), 16, 32);
    ScansBack(d);
    var ok := HexAsciiToBytes(hex[..32], id, 16);
  }

  /** Lower-case hexadecimal digits are read back as the bytes they stand for. */
  lemma {:induction false} ScansBack(d: seq<nat>)
    requires |d| % 2 == 0 && forall i :: 0 <= i < |d| ==> d[i] < 16
    ensures var s := Symbols(d);
            forall i :: 0 <= i < |d| / 2 ==> ScanHex(s[2 * i], s[2 * i + 1]).Scanned?
                                             && ToByte(ScanHex(s[2 * i], s[2 * i + 1]).value) == BytesOfHex(d)[i]
  {
    hide ToByte; hide BytesOfHex; hide Symbols; hide ScanHex;
    forall i | 0 <= i < |d| / 2
      ensures var s := Symbols(d);
              ScanHex(s[2 * i], s[2 * i + 1]).Scanned?
              && ToByte(ScanHex(s[2 * i], s[2 * i + 1]).value) == BytesOfHex(d)[i]
    {
      ScansDigits(d[2 * i], d[2 * i + 1]);
      SymbolAt(d, 2 * i);
      SymbolAt(d, 2 * i + 1);
      ByteAt(d, i);
    }
  }

  lemma {:induction false} SymbolAt(d: seq<nat>, i: nat)
    requires i < |d| && forall i :: 0 <= i < |d| ==> d[i] < 64
    ensures Symbols(d)[i] == Symbol(d[i])
  {
    hide Symbol; hide InAlphabet;
  }

  lemma {:induction false} ScansDigits(h: nat, l: nat)
    requires h < 16 && l < 16
    ensures ScanHex(Symbol(h), Symbol(l)) == Scanned(16 * h + l)
  {
  }

  /** Capital digits count like small ones; where the second character is none, the first stands alone, and no pair
      starts with anything else. */
  lemma {:induction false} ScansCapitals(h: nat, c: char)
    requires 10 <= h < 16
    ensures var capital := ['A', 'B', 'C', 'D', 'E', 'F'][h - 10];
            ScanHex(capital, c) == ScanHex(Symbol(h), c) && ScanHex(c, capital) == ScanHex(c, Symbol(h))
  {
  }

  lemma {:induction false} ScansOne(h: nat, c: char)
    requires h < 16 && !('0' <= c <= '9' || 'a' <= c <= 'f' || 'A' <= c <= 'F')
    ensures ScanHex(Symbol(h), c) == Scanned(h) && ScanHex(c, Symbol(h)) == NoMatch
  {
  }

  lemma {:induction false} ByteAt(d: seq<nat>, i: nat)
    requires |d| % 2 == 0 && i < |d| / 2 && forall i :: 0 <= i < |d| ==> d[i] < 16
    ensures BytesOfHex(d)[i] == ToByte(16 * d[2 * i] + d[2 * i + 1])
  {
    hide ToByte;
    if i < |d| / 2 - 1 {
      ByteAt(d[..|d| - 2], i);
    }
  }
}
