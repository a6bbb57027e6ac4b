/** Entities and character references: ezxml_ampencode and ezxml_decode of libopenspotify/ezxml.c. */
module EzxmlCodec {
  import opened Basics
  import EzxmlUtf
  import opened Words

  const NUL := 0 as char
  const VTAB := 11 as char
  const FEED := 12 as char

  /** The modes of decoding that the parser uses for content and for attribute values. */
  datatype Mode = Text | Attribute

  predicate IsSpace(c: char) {
    c == ' ' || c == '\t' || c == '\n' || c == '\r' || c == VTAB || c == FEED
  }

  // ---------------------------------------------------------------- encoding

  function Encoded(c: char, m: Mode): (s: string)
    ensures 1 <= |s| <= 6
  {
    if c == '&' then "&amp;"
    else if c == '<' then "&lt;"
    else if c == '>' then "&gt;"
    else if c == '"' && m == Attribute then "&quot;"
    else if c == '\n' && m == Attribute then "&#xA;"
    else if c == '\t' && m == Attribute then "&#x9;"
    else if c == '\r' then "&#xD;"
    else [c]
  }

  function Encoding(s: string, m: Mode): string {
    if s == "" then "" else Encoding(s[..|s| - 1], m) + Encoded(s[|s| - 1], m)
  }

  /** What comes before the terminator. */
  function Terminated(s: string): (t: string)
    ensures t <= s && NUL !in t && (|t| < |s| ==> s[|t|] == NUL)
  {
    if s == "" || s[0] == NUL then ""
    else
      var t := Terminated(s[1..]);
      [s[0]] + t
  }

  const BUFSIZE := 1024

  /** ezxml_ampencode: at most `len` characters of `s` are encoded and appended; the buffer always has room. */
  method AmpEncode(s: string, len: nat, dst: string, max0: nat, m: Mode) returns (r: string, max: nat)
    requires |dst| <= max0 && (len <= |s| || NUL in s)
    ensures r == dst + Encoding(Terminated(if len <= |s| then s[..len] else s), m) && |r| <= max
  {
    hide Encoded; hide Encoding; hide Terminated;
    r, max := dst, max0;
    ghost var src := if len <= |s| then s[..len] else s;
    var i := 0;
    EncodingNothing(m);
    while i != len
      invariant i <= |src| && i <= len && NUL !in s[..i]
      invariant r == dst + Encoding(s[..i], m) && |r| <= max
      decreases |src| - i
    {
      while |r| + 10 > max
        decreases |r| + 10 - max
      {
        max := max + BUFSIZE;
      }
      assert i < |src| by {
        assert s[..|s|] == s;
      }
      if s[i] == NUL {
        TerminatedAt(src, i);
        assert src[..i] == s[..i];
        return;
      }
      assert s[..i + 1] == s[..i] + [s[i]];
      EncodingNext(s[..i], s[i], m);
      r := r + Encoded(s[i], m);
      i := i + 1;
    }
    TerminatedAt(src, i);
    assert src[..i] == s[..i];
  }

  lemma {:induction false} EncodingNothing(m: Mode)
    ensures Encoding("", m) == ""
  {
  }

  lemma {:induction false} EncodingNext(s: string, c: char, m: Mode)
    ensures Encoding(s + [c], m) == Encoding(s, m) + Encoded(c, m)
  {
    hide Encoded;
    assert (s + [c])[..|s|] == s;
  }

  lemma {:induction false} TerminatedAt(s: string, i: nat)
    requires i <= |s| && NUL !in s[..i] && (i < |s| ==> s[i] == NUL)
    ensures Terminated(s) == s[..i]
  {
    if i > 0 {
      assert s[..i][0] == s[0] && s[1..][..i - 1] == s[..i][1..];
      TerminatedAt(s[1..], i - 1);
    }
  }

  // ---------------------------------------------------------------- line endings

  function Normalized(s: string): string {
    if s == "" then ""
    else if s[0] != '\r' then [s[0]] + Normalized(s[1..])
    else if |s| > 1 && s[1] == '\n' then "\n" + Normalized(s[2..])
    else "\n" + Normalized(s[1..])
  }

  /** The scan runs past the terminator when the last line ends in a carriage return, with or without a line feed. */
  predicate RunsOver(s: string) {
    |s| > 0 && (s[|s| - 1] == '\r' || (|s| > 1 && s[|s| - 2] == '\r' && s[|s| - 1] == '\n'))
  }

  lemma {:induction false} NormalStep(rest: string)
    requires rest != ""
    ensures rest[0] != '\r' ==> Normalized(rest) == [rest[0]] + Normalized(rest[1..])
                                && RunsOver(rest) == RunsOver(rest[1..])
    ensures rest[0] == '\r' && |rest| > 1 && rest[1] == '\n' ==>
              Normalized(rest) == "\n" + Normalized(rest[2..]) && RunsOver(rest) == (|rest| == 2 || RunsOver(rest[2..]))
    ensures rest[0] == '\r' && !(|rest| > 1 && rest[1] == '\n') ==>
              Normalized(rest) == "\n" + Normalized(rest[1..]) && RunsOver(rest) == (|rest| == 1 || RunsOver(rest[1..]))
  {
  }

  lemma {:induction false} NormalNothing()
    ensures Normalized("") == "" && !RunsOver("")
  {
  }

  /** Text without a carriage return stays, and a carriage return, with or without a line feed, becomes a line feed. */
  lemma {:induction false} NormalizedIs(a: string, b: string)
    requires '\r' !in a
    ensures Normalized(a) == a && Normalized(a + "\r\n" + b) == a + "\n" + Normalized(b)
    ensures (b == "" || b[0] != '\n') ==> Normalized(a + "\r" + b) == a + "\n" + Normalized(b)
  {
    if a == "" {
      assert "" + "\r\n" + b == "\r\n" + b && ("\r\n" + b)[2..] == b;
      assert "" + "\r" + b == "\r" + b && ("\r" + b)[1..] == b;
    } else {
      NormalizedIs(a[1..], b);
      assert (a + "\r\n" + b)[1..] == a[1..] + "\r\n" + b;
      assert (a + "\r" + b)[1..] == a[1..] + "\r" + b;
      assert [a[0]] + a[1..] == a;
    }
  }

  /** The loop that normalises line endings in place; `None` when it leaves the string. */
  method Normalize(s0: string) returns (r: Option<string>)
    ensures r == if RunsOver(s0) then None else Some(Normalized(s0))
  {
    hide Normalized; hide RunsOver;
    var s, i := s0, 0;
    NormalNothing();
    while i < |s|
      invariant i <= |s| && Normalized(s0) == s[..i] + Normalized(s[i..]) && RunsOver(s0) == RunsOver(s[i..])
      decreases |s| - i
    {
      ghost var left := |s| - i;
      while i < |s| && s[i] == '\r'
        invariant i <= |s| && |s| - i <= left && Normalized(s0) == s[..i] + Normalized(s[i..])
        invariant RunsOver(s0) == (i == |s| || RunsOver(s[i..]))
        decreases |s| - i
      {
        ghost var rest, front := s[i..], s[..i];
        NormalStep(rest);
        s := s[..i] + "\n" + s[i + 1..];
        i := i + 1;
        assert s[i..] == rest[1..] && s[..i] == front + "\n";
        if i < |s| && s[i] == '\n' {
          s := s[..i] + s[i + 1..];
          assert s[i..] == rest[2..] && s[..i] == front + "\n";
        }
      }
      if i == |s| {
        return None;
      }
      ghost var rest := s[i..];
      NormalStep(rest);
      assert rest[1..] == s[i + 1..] && s[..i + 1] == s[..i] + [s[i]];
      i := i + 1;
    }
    assert s[i..] == "" && s[..i] == s && s + "" == s;
    return Some(s);
  }

  // ---------------------------------------------------------------- decoding, step by step

  /** The default entities, in the order they are searched. */
  function Names(): (n: seq<string>)
    ensures |n| == 5
  {
    ["lt;", "gt;", "quot;", "apos;", "amp;"]
  }

  function Values(): (v: seq<string>)
    ensures |v| == 5
  {
    ["&#60;", "&#62;", "&#34;", "&#39;", "&#38;"]
  }

  /** The first entity from number `k` on whose name follows the ampersand. */
  function FindEntity(s: string, k: nat): (e: Option<nat>)
    requires s != "" && k <= 5
    ensures e.Some? ==> k <= e.value < 5 && Names()[e.value] <= s[1..]
    decreases 5 - k
  {
    if k == 5 then None else if Names()[k] <= s[1..] then Some(k) else FindEntity(s, k + 1)
  }

  function DigitIn(c: char, base: nat): (d: nat)
    requires base == 10 || base == 16
    ensures d <= base
  {
    if '0' <= c <= '9' then c as int - '0' as int
    else if base == 16 && 'a' <= c <= 'f' then c as int - 'a' as int + 10
    else if base == 16 && 'A' <= c <= 'F' then c as int - 'A' as int + 10
    else base
  }

  /** The number that starts at `at`, and where its digits end. */
  function ScanNumber(s: string, at: nat, base: nat, so: nat): (r: (nat, nat))
    requires at <= |s| && (base == 10 || base == 16)
    ensures at <= r.1 <= |s|
    decreases |s| - at
  {
    if at == |s| || DigitIn(s[at], base) == base then (so, at)
      else ScanNumber(s, at + 1, base, so * base + DigitIn(s[at], base))
  }

  /** A character reference at the front: its number and where its semicolon is. */
  function CharRef(s: string): (r: Option<(nat, nat)>)
    ensures r.Some? ==> 2 <= r.value.1 < |s| && r.value.0 > 0
  {
    if !("&#" <= s) then None
    else
      var (c, e) := if |s| > 2 && s[2] == 'x' then ScanNumber(s, 3, 16, 0) else ScanNumber(s, 2, 10, 0);
      if c == 0 || e == |s| || s[e] != ';' then None else Some((c, e))
  }

  /** Bytes as the characters of a C string. */
  function Chars(b: seq<Byte>): (s: string)
    ensures |s| == |b|
  {
    seq(|b|, i requires 0 <= i < |b| => Value(b[i]) as char)
  }

  /** One step of the loop: what is put out for good and what is still to be scanned, a replacement included. A
      reference beyond Unicode is left open. */
  datatype Step = Emit(out: string, rest: string) | Beyond

  function DecodeStep(s: string, m: Mode): Step
    requires s != ""
  {
    if s[0] != '&' then (if m == Attribute && IsSpace(s[0]) then Emit(" ", s[1..]) else Emit([s[0]], s[1..]))
    else if "&#" <= s then
      match CharRef(s)
      case None => Emit("&", s[1..])
      case Some(r) => if r.0 < 0x11_0000 then Emit(Chars(EzxmlUtf.Utf8(r.0)), s[r.1 + 1..]) else Beyond
    else
      match FindEntity(s, 0)
      case None => Emit("&", s[1..])
      case Some(k) => Emit("", Values()[k] + s[1 + |Names()[k]|..])
  }

  /** The ampersands that do not start a character reference: every replacement uses one up. */
  function Bare(s: string): nat {
    if s == "" then 0 else (if s[0] == '&' && !(|s| > 1 && s[1] == '#') then 1 else 0) + Bare(s[1..])
  }

  lemma {:induction false} BareSuffix(s: string, i: nat)
    requires i <= |s|
    ensures Bare(s[i..]) <= Bare(s)
  {
    if i > 0 {
      BareSuffix(s[1..], i - 1);
      assert s[1..][i - 1..] == s[i..];
    }
  }

  lemma {:induction false} BareValue(k: nat, y: string)
    requires k < 5
    ensures Bare(Values()[k] + y) == Bare(y)
  {
    var v := Values()[k];
    var s := v + y;
    assert |v| == 5 && v[0] == '&' && v[1] == '#' && v[2] != '&' && v[3] != '&' && v[4] != '&';
    BarePlain(s[1..]);
    BarePlain(s[2..]);
    BarePlain(s[3..]);
    BarePlain(s[4..]);
    assert s[1..][1..] == s[2..] && s[2..][1..] == s[3..] && s[3..][1..] == s[4..] && s[4..][1..] == y;
  }

  lemma {:induction false} BarePlain(s: string)
    requires s != "" && s[0] != '&'
    ensures Bare(s) == Bare(s[1..])
  {
  }

  /** An entity's ampersand is a bare one, and its value has none. */
  lemma {:induction false} EntityShrinks(s: string, k: nat)
    requires s != "" && s[0] == '&' && k < 5 && Names()[k] <= s[1..]
    ensures Bare(Values()[k] + s[1 + |Names()[k]|..]) < Bare(s)
  {
    var at := 1 + |Names()[k]|;
    assert |Names()[k]| > 0 && s[1..][0] == Names()[k][0] != '#';
    hide Names; hide Values;
    BareValue(k, s[at..]);
    BareSuffix(s[1..], at - 1);
    assert s[1..][at - 1..] == s[at..];
  }

  /** The scan makes progress although replacements are scanned again and may be longer than what they replace. */
  lemma {:induction false} StepShrinks(s: string, m: Mode)
    requires s != "" && DecodeStep(s, m).Emit?
    ensures var r := DecodeStep(s, m).rest; Bare(r) < Bare(s) || (Bare(r) <= Bare(s) && |r| < |s|)
  {
    hide FindEntity; hide CharRef; hide Bare; hide Names; hide Values;
    BareSuffix(s, 1);
    if s[0] == '&' && !("&#" <= s) && FindEntity(s, 0).Some? {
      EntityShrinks(s, FindEntity(s, 0).value);
    } else if "&#" <= s && CharRef(s).Some? {
      BareSuffix(s, CharRef(s).value.1 + 1);
    }
  }

  function Prepend(a: string, r: Option<string>): Option<string> {
    match r
    case None => None
    case Some(t) => Some(a + t)
  }

  /** What the loop makes of `s`. */
  function Decoded(s: string, m: Mode): Option<string>
    decreases Bare(s), |s|
  {
    hide DecodeStep; hide Bare;
    if s == "" then Some("")
    else
      var st := DecodeStep(s, m);
      if st.Beyond? then None
      else
        StepShrinks(s, m);
        Prepend(st.out, Decoded(st.rest, m))
  }

  /** A reference is longer than the bytes that replace it. */
  lemma {:induction false} RefFits(s: string)
    requires CharRef(s).Some? && CharRef(s).value.0 < 0x11_0000
    ensures |EzxmlUtf.Utf8(CharRef(s).value.0)| <= CharRef(s).value.1
  {
    var r := CharRef(s).value;
    if r.0 >= 0x80 {
      ScanShort(s, 2, 10);
      if |s| > 2 && s[2] == 'x' {
        ScanShort(s, 3, 16);
      }
    }
  }

  lemma {:induction false} ScanShort(s: string, at: nat, base: nat)
    requires at <= |s| && (base == 10 || base == 16)
    ensures var r := ScanNumber(s, at, base, 0); (r.1 == at ==> r.0 == 0) && (r.1 == at + 1 ==> r.0 < base)
  {
    if at < |s| && DigitIn(s[at], base) < base {
      var d := DigitIn(s[at], base);
      assert ScanNumber(s, at, base, 0) == ScanNumber(s, at + 1, base, d);
      assert at + 1 == |s| || DigitIn(s[at + 1], base) == base ==> ScanNumber(s, at + 1, base, d) == (d, at + 1);
    }
  }

  /** The search for the entity whose name follows. */
  method Search(t: string) returns (b: nat)
    requires t != ""
    ensures b <= 5 && FindEntity(t, 0) == if b < 5 then Some(b) else None
  {
    b := 0;
    while b < 5 && !(Names()[b] <= t[1..])
      invariant b <= 5 && FindEntity(t, 0) == FindEntity(t, b)
    {
      b := b + 1;
    }
  }

  /** The body of the decoding loop of ezxml_decode, at `i`; `room` is the memory the string has, its terminator
      included. */
  method StepInPlace(s0: string, i0: nat, m: Mode, room0: nat) returns (s: string, i: nat, room: nat, beyond: bool)
    requires i0 < |s0| < room0
    ensures beyond <==> DecodeStep(s0[i0..], m).Beyond?
    ensures !beyond ==>
              var st := DecodeStep(s0[i0..], m);
              s == s0[..i0] + st.out + st.rest && i == i0 + |st.out| && |s| < room
  {
    hide CharRef; hide FindEntity; hide Names; hide Values; hide Chars; hide EzxmlUtf.Utf8;
    s, i, room, beyond := s0, i0, room0, false;
    ghost var t := s[i..];
    assert t[1..] == s[i + 1..];
    assert s == s[..i] + [s[i]] + s[i + 1..];
    if s[i] != '&' {
      if m == Attribute && IsSpace(s[i]) {
        s := s[..i] + " " + s[i + 1..];
      }
      i := i + 1;
    } else if "&#" <= s[i..] {
      var ref := CharRef(s[i..]);
      if ref.None? {
        i := i + 1;
      } else if ref.value.0 >= 0x11_0000 {
        beyond := true;
      } else {
        var out := Chars(EzxmlUtf.Utf8(ref.value.0));
        RefFits(t);
        assert t[ref.value.1 + 1..] == s[i + ref.value.1 + 1..];
        s := s[..i] + out + s[i + ref.value.1 + 1..];
        i := i + |out|;
      }
    } else {
      s, i, room := EntityInPlace(s, i, m, room);
    }
  }

  /** An ampersand that starts no character reference: a known entity is replaced and not passed over. */
  method EntityInPlace(s0: string, i0: nat, m: Mode, room0: nat) returns (s: string, i: nat, room: nat)
    requires i0 < |s0| < room0 && s0[i0] == '&' && !("&#" <= s0[i0..])
    ensures var st := DecodeStep(s0[i0..], m);
            st.Emit? && s == s0[..i0] + st.out + st.rest && i == i0 + |st.out| && |s| < room
  {
    hide CharRef; hide FindEntity; hide Names; hide Values; hide Chars; hide EzxmlUtf.Utf8;
    s, i, room := s0, i0, room0;
    ghost var t := s[i..];
    var b := Search(s[i..]);
    if b == 5 {
      assert t[1..] == s[i + 1..];
      assert s == s[..i] + "&" + s[i + 1..];
      i := i + 1;
    } else {
      var value, e := Values()[b], i + |Names()[b]|;
      assert t[1 + |Names()[b]|..] == s[e + 1..];
      if |value| - 1 > e - i {
        room := i + |value| + (|s| - e);
      }
      s := s[..i] + value + s[e + 1..];
      assert s == s[..i] + "" + (value + s0[e + 1..]);
    }
  }

  /** The decoding loop of ezxml_decode, in place: what is before `i` is final, what is behind it is scanned,
      replacements again. */
  method DecodeInPlace(s0: string, m: Mode) returns (r: Option<string>)
    ensures r == Decoded(s0, m)
  {
    hide Bare; hide Decoded; hide DecodeStep;
    var s, i, room := s0, 0, |s0| + 1;
    DecodedStep(s0, m);
    assert s[0..] == s;
    while i < |s|
      invariant i <= |s| < room && Decoded(s0, m) == Prepend(s[..i], Decoded(s[i..], m))
      decreases Bare(s[i..]), |s| - i
    {
      ghost var front, st := s[..i], DecodeStep(s[i..], m);
      DecodedStep(s[i..], m);
      ghost var t := s[i..];
      var beyond;
      s, i, room, beyond := StepInPlace(s, i, m, room);
      if beyond {
        return None;
      }
      StepShrinks(t, m);
      PrependTwice(front, st.out, Decoded(st.rest, m));
      assert s[i..] == st.rest && s[..i] == front + st.out;
    }
    DecodedStep(s[i..], m);
    assert s[..i] == s && s + "" == s;
    return Some(s);
  }

  lemma {:induction false} DecodedStep(s: string, m: Mode)
    ensures s == "" ==> Decoded(s, m) == Some("")
    ensures s != "" ==> var st := DecodeStep(s, m);
    Decoded(s, m) == if st.Beyond? then None else Prepend(st.out, Decoded(st.rest, m))
    ensures Prepend("", Decoded(s, m)) == Decoded(s, m)
  {
    hide DecodeStep; hide Bare;
    if Decoded(s, m).Some? {
      assert "" + Decoded(s, m).value == Decoded(s, m).value;
    }
  }

  lemma {:induction false} PrependTwice(a: string, b: string, r: Option<string>)
    ensures Prepend(a, Prepend(b, r)) == Prepend(a + b, r)
  {
    if r.Some? {
      assert a + (b + r.value) == a + b + r.value;
    }
  }

  // ---------------------------------------------------------------- decoding undoes encoding

  lemma {:induction false} NamesAre(k: nat)
    requires k < 5
    ensures Names()[k] == if k == 0 then "lt;" else if k == 1 then "gt;" else if k == 2 then "quot;" else if k == 3
            then "apos;" else "amp;"
    ensures Values()[k] == if k == 0 then "&#60;" else if k == 1 then "&#62;" else if k == 2 then "&#34;"
            else if k == 3 then "&#39;" else "&#38;"
  {
  }

  /** Each name is found where it stands. */
  lemma {:induction false} Finds(k: nat, y: string)
    requires k < 5
    ensures FindEntity("&" + Names()[k] + y, 0) == Some(k)
    ensures DecodeStep("&" + Names()[k] + y, Text) == DecodeStep("&" + Names()[k] + y, Attribute) ==
              Emit("", Values()[k] + y)
  {
    var s := "&" + Names()[k] + y;
    var t := s[1..];
    assert t == Names()[k] + y;
    forall j: nat | j < k
      ensures !(Names()[j] <= t)
    {
      assert Names()[j][0] != t[0] || Names()[j][1] != t[1];
    }
    assert t[..|Names()[k]|] == Names()[k];
    FindsFrom(s, k, 0);
    assert s[1 + |Names()[k]|..] == y;
    assert s[1] != '#';
  }

  lemma {:induction false} FindsFrom(s: string, k: nat, j: nat)
    requires s != "" && j <= k < 5 && Names()[k] <= s[1..] && forall i: nat :: i < k ==> !(Names()[i] <= s[1..])
    ensures FindEntity(s, j) == Some(k)
    decreases k - j
  {
    hide Names;
    if j < k {
      FindsFrom(s, k, j + 1);
    }
  }

  /** A short reference of one or two digits. */
  lemma {:induction false} Refers(digits: string, base: nat, c: nat, y: string)
    requires base == 10 || base == 16
    requires (|digits| == 1 && DigitIn(digits[0], base) < base && c == DigitIn(digits[0], base))
             || (|digits| == 2 && DigitIn(digits[0], base) < base && DigitIn(digits[1], base) < base
                 && c == base * DigitIn(digits[0], base) + DigitIn(digits[1], base))
    requires 0 < c < 0x80 && digits[0] != 'x'
    ensures var s := (if base == 16 then "&#x" else "&#") + digits + ";" + y;
            forall m: Mode :: DecodeStep(s, m) == Emit([c as char], y)
  {
    var p := if base == 16 then "&#x" else "&#";
    var s := p + digits + ";" + y;
    var at := |p|;
    assert s[at + |digits|] == ';' && DigitIn(';', base) == base;
    assert s[at] == digits[0];
    if |digits| == 2 {
      assert s[at + 1] == digits[1];
      assert ScanNumber(s, at + 2, base, c) == (c, at + 2);
      assert ScanNumber(s, at + 1, base, DigitIn(digits[0], base)) == (c, at + 2);
    } else {
      assert ScanNumber(s, at + 1, base, c) == (c, at + 1);
    }
    assert ScanNumber(s, at, base, 0) == (c, at + |digits|);
    assert base == 10 ==> s[2] == digits[0];
    assert CharRef(s) == Some((c, at + |digits|));
    assert s[at + |digits| + 1..] == y;
    AsciiChar(c);
  }

  const LOWER := "0123456789abcdef"
  const UPPER := "0123456789ABCDEF"

  predicate AreDigits(digits: string): (b: bool)
    ensures b ==> |digits| == 16
  {
    digits == LOWER || digits == UPPER
  }

  /** The numeral of a number, in digits of the base. */
  function Numeral(n: nat, base: nat, digits: string): (s: string)
    requires (base == 10 || base == 16) && |digits| == 16
    ensures s != ""
  {
    (if n < base then "" else Numeral(n / base, base, digits)) + [digits[n % base]]
  }

  lemma {:induction false} DigitsRead(d: nat, base: nat, digits: string)
    requires (base == 10 || base == 16) && AreDigits(digits) && d < base
    ensures DigitIn(digits[d], base) == d && digits[d] != 'x'
  {
  }

  lemma {:induction false} DigitsAddUp(n: nat, base: nat)
    requires base == 10 || base == 16
    ensures n / base * base + n % base == n && n % base < base && (n < base ==> n / base == 0)
    ensures n >= base ==> n / base < n
  {
    if base == 10 {
    } else {
    }
  }

  /** One more digit of a numeral is read. */
  lemma {:induction false} ScanDigit(before: string, q: nat, d: nat, base: nat, digits: string, behind: string)
    requires (base == 10 || base == 16) && AreDigits(digits) && d < base
    ensures var s := before + [digits[d]] + behind;
            ScanNumber(s, |before|, base, q) == ScanNumber(s, |before| + 1, base, q * base + d)
  {
    hide DigitIn; hide AreDigits;
    DigitsRead(d, base, digits);
    var s := before + [digits[d]] + behind;
    assert s[|before|] == digits[d];
    ScanStep(s, |before|, base, q);
  }

  /** Scanning a numeral adds up to its number, whatever is before and behind it. */
  lemma {:induction false} ScanNumeral(before: string, n: nat, base: nat, digits: string, behind: string)
    requires (base == 10 || base == 16) && AreDigits(digits)
    ensures var s := before + Numeral(n, base, digits) + behind;
            ScanNumber(s, |before|, base, 0) == ScanNumber(s, |before + Numeral(n, base, digits)|, base, n)
    decreases n
  {
    hide ScanNumber; hide AreDigits; hide Numeral;
    var q, d, high := NumeralParts(n, base, digits);
    var next, last := before + high, [digits[d]];
    var s := before + (high + last) + behind;
    assert s == next + (last + behind) == next + last + behind;
    assert |before + (high + last)| == |next| + 1;
    if n >= base {
      ScanNumeral(before, q, base, digits, last + behind);
    }
    ScanDigit(next, q, d, base, digits, behind);
  }

  lemma {:induction false} NumeralParts(n: nat, base: nat, digits: string) returns (q: nat, d: nat, high: string)
    requires (base == 10 || base == 16) && AreDigits(digits)
    ensures n == q * base + d && d < base && Numeral(n, base, digits) == high + [digits[d]]
    ensures if n < base then q == 0 && high == "" else q < n && high == Numeral(q, base, digits)
  {
    hide AreDigits;
    DigitsAddUp(n, base);
    q, d := n / base, n % base;
    high := if n < base then "" else Numeral(q, base, digits);
  }

  lemma {:induction false} ScanStep(s: string, at: nat, base: nat, so: nat)
    requires at < |s| && (base == 10 || base == 16) && DigitIn(s[at], base) < base
    ensures ScanNumber(s, at, base, so) == ScanNumber(s, at + 1, base, so * base + DigitIn(s[at], base))
  {
    hide DigitIn;
  }

  /** The references to every character, in decimal and in hexadecimal digits of either case, decode to its UTF-8. */
  lemma {:induction false} ReferencesDecode(c: nat, digits: string, y: string, m: Mode)
    requires 0 < c < 0x11_0000 && AreDigits(digits)
    ensures DecodeStep("&#" + Numeral(c, 10, digits) + ";" + y, m) == Emit(Chars(EzxmlUtf.Utf8(c)), y)
    ensures DecodeStep("&#x" + Numeral(c, 16, digits) + ";" + y, m) == Emit(Chars(EzxmlUtf.Utf8(c)), y)
  {
    hide Numeral; hide Chars; hide AreDigits;
    NumeralRefers(c, 10, digits, y, m);
    NumeralRefers(c, 16, digits, y, m);
  }

  lemma {:induction false} NumeralRefers(c: nat, base: nat, digits: string, y: string, m: Mode)
    requires 0 < c < 0x11_0000 && (base == 10 || base == 16) && AreDigits(digits)
    ensures var p := if base == 16 then "&#x" else "&#";
            DecodeStep(p + Numeral(c, base, digits) + ";" + y, m) == Emit(Chars(EzxmlUtf.Utf8(c)), y)
  {
    hide Numeral; hide Chars; hide FindEntity; hide ScanNumber; hide AreDigits;
    var p := if base == 16 then "&#x" else "&#";
    var d := Numeral(c, base, digits);
    var s := p + d + ";" + y;
    assert s == p + d + (";" + y);
    ScanNumeral(p, c, base, digits, ";" + y);
    ScanStops(s, |p + d|, base, c);
    NumeralStarts(c, base, digits);
    assert s[|p|] == d[0] && s[|p + d| + 1..] == y;
    assert CharRef(s) == Some((c, |p + d|));
  }

  lemma {:induction false} ScanStops(s: string, at: nat, base: nat, so: nat)
    requires at < |s| && s[at] == ';' && (base == 10 || base == 16)
    ensures ScanNumber(s, at, base, so) == (so, at)
  {
  }

  lemma {:induction false} NumeralStarts(n: nat, base: nat, digits: string)
    requires (base == 10 || base == 16) && AreDigits(digits)
    ensures Numeral(n, base, digits)[0] != 'x'
    decreases n
  {
    hide DigitIn;
    DigitsRead(n % base, base, digits);
    if n >= base {
      NumeralStarts(n / base, base, digits);
    }
  }

  lemma {:induction false} AsciiChar(c: nat)
    requires c < 0x80
    ensures Chars(EzxmlUtf.Utf8(c)) == [c as char]
  {
    hide Value; hide ToByte;
    ValueOfByte(c);
  }

  /** What a character comes back as: white space in attributes turns into spaces unless it was encoded. */
  function Restored(c: char, m: Mode): char {
    if m == Attribute && (c == VTAB || c == FEED) then ' ' else c
  }

  /** An entity is replaced, scanned again, and becomes its character. */
  lemma {:induction false} EntityDecodes(k: nat, y: string, m: Mode)
    requires k < 5
    ensures Decoded("&" + Names()[k] + y, m)
            == Prepend([if k == 0 then '<' else if k == 1 then '>' else if k == 2 then '"' else if k == 3 then '\''
              else '&'], Decoded(y, m))
  {
    hide Decoded; hide DecodeStep; hide FindEntity; hide Names; hide Values;
    var s := "&" + Names()[k] + y;
    Finds(k, y);
    NamesAre(k);
    DecodedStep(s, m);
    var v := Values()[k];
    var digits := if k == 0 then "60" else if k == 1 then "62" else if k == 2 then "34" else if k == 3 then "39"
      else "38";
    assert v + y == "&#" + digits + ";" + y;
    Refers(digits, 10, if k == 0 then 60 else if k == 1 then 62 else if k == 2 then 34 else if k == 3 then 39
      else 38, y);
    DecodedStep(v + y, m);
  }

  /** The encoding of one character decodes to that character, whatever follows. */
  lemma {:induction false} OneDecodes(c: char, y: string, m: Mode)
    requires c != NUL
    ensures Decoded(Encoded(c, m) + y, m) == Prepend([Restored(c, m)], Decoded(y, m))
  {
    hide Decoded; hide DecodeStep; hide FindEntity; hide Names; hide Values; hide DigitIn;
    if c == '&' {
      NamesAre(4);
      assert "&amp;" + y == "&" + Names()[4] + y;
      EntityDecodes(4, y, m);
    } else if c == '<' {
      NamesAre(0);
      assert "&lt;" + y == "&" + Names()[0] + y;
      EntityDecodes(0, y, m);
    } else if c == '>' {
      NamesAre(1);
      assert "&gt;" + y == "&" + Names()[1] + y;
      EntityDecodes(1, y, m);
    } else if c == '"' && m == Attribute {
      NamesAre(2);
      assert "&quot;" + y == "&" + Names()[2] + y;
      EntityDecodes(2, y, m);
    } else if c == '\r' || (m == Attribute && (c == '\n' || c == '\t')) {
      ReferenceDecodes(c, y, m);
    } else {
      PlainDecodes(c, y, m);
    }
  }

  lemma {:induction false} ReferenceDecodes(c: char, y: string, m: Mode)
    requires c == '\r' || c == '\n' || c == '\t'
    ensures var s := if c == '\r' then "&#xD;" else if c == '\n' then "&#xA;" else "&#x9;";
            Decoded(s + y, m) == Prepend([c], Decoded(y, m))
  {
    hide Decoded; hide DecodeStep;
    var digits := if c == '\r' then "D" else if c == '\n' then "A" else "9";
    var s := if c == '\r' then "&#xD;" else if c == '\n' then "&#xA;" else "&#x9;";
    assert s + y == "&#x" + digits + ";" + y;
    Refers(digits, 16, if c == '\r' then 13 else if c == '\n' then 10 else 9, y);
    DecodedStep(s + y, m);
  }

  lemma {:induction false} PlainDecodes(c: char, y: string, m: Mode)
    requires c != '&' && (m == Attribute ==> c != '\n' && c != '\t' && c != '\r')
    ensures Decoded([c] + y, m) == Prepend([Restored(c, m)], Decoded(y, m))
  {
    hide Decoded;
    DecodedStep([c] + y, m);
    assert ([c] + y)[1..] == y;
  }

  /** What a string comes back as. */
  function AllRestored(s: string, m: Mode): (r: string)
    ensures |r| == |s|
  {
    seq(|s|, i requires 0 <= i < |s| => Restored(s[i], m))
  }

  lemma {:induction false} EncodingFirst(c: char, s: string, m: Mode)
    ensures Encoding([c] + s, m) == Encoded(c, m) + Encoding(s, m)
  {
    hide Encoded;
    if s == "" {
      assert ([c] + s)[..0] == "";
    } else {
      var init, last := s[..|s| - 1], s[|s| - 1];
      EncodingFirst(c, init, m);
      assert ([c] + s)[..|s|] == [c] + init;
    }
  }

  lemma {:induction false} EncodingDecodes(x: string, m: Mode)
    requires NUL !in x
    ensures Decoded(Encoding(x, m), m) == Some(AllRestored(x, m))
  {
    hide Decoded; hide Encoded; hide Encoding; hide Restored;
    if x == "" {
      EncodingNothing(m);
      DecodedStep("", m);
    } else {
      var c, rest := x[0], x[1..];
      EncodingFirst(c, rest, m);
      EncodingDecodes(rest, m);
      OneDecodes(c, Encoding(rest, m), m);
      assert x == [c] + rest;
      assert AllRestored(x, m) == [Restored(c, m)] + AllRestored(rest, m);
    }
  }

  /** The encoder emits no carriage return, so normalising its output leaves it as it is. */
  lemma {:induction false} EncodingNormal(x: string, m: Mode)
    ensures '\r' !in Encoding(x, m)
  {
    if x != "" {
      OneNormal(x[|x| - 1], m);
      hide Encoded;
      EncodingNormal(x[..|x| - 1], m);
    }
  }

  lemma {:induction false} OneNormal(c: char, m: Mode)
    ensures '\r' !in Encoded(c, m)
  {
  }

  lemma {:induction false} NormalKept(s: string)
    requires '\r' !in s
    ensures Normalized(s) == s && !RunsOver(s)
  {
    if s != "" {
      NormalKept(s[1..]);
    }
  }

  /** Decoding undoes encoding: for all text, and for an attribute value if and only if it holds no vertical tab or
      form feed. */
  lemma {:induction false} RoundTrip(x: string, m: Mode)
    requires NUL !in x
    ensures var s := Encoding(x, m);
            && !RunsOver(s) && Decoded(Normalized(s), m) == Some(AllRestored(x, m))
            && (Decoded(Normalized(s), m) == Some(x) <==> m == Text || (VTAB !in x && FEED !in x))
  {
    hide Decoded; hide Encoding; hide Normalized; hide RunsOver;
    EncodingDecodes(x, m);
    EncodingNormal(x, m);
    NormalKept(Encoding(x, m));
    var r := AllRestored(x, m);
    if r != x {
      var i :| 0 <= i < |x| && r[i] != x[i];
      assert x[i] in x;
    } else {
      forall i | 0 <= i < |x|
        ensures Restored(x[i], m) == x[i]
      {
        assert r[i] == x[i];
      }
    }
  }

  /** ezxml_decode for content and attribute values. */
  method Decode(s: string, m: Mode) returns (normal: Option<string>, r: Option<string>)
    ensures normal.None? <==> RunsOver(s)
    ensures normal.Some? ==> r == Decoded(Normalized(s), m)
  {
    hide Decoded; hide Normalized; hide RunsOver;
    normal := Normalize(s);
    r := None;
    if normal.Some? {
      r := DecodeInPlace(normal.value, m);
    }
  }
}
