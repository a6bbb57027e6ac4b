/** Reading the encrypted track: player_ov_read and player_seek_counter of libopenspotify/player.c. */
module Players {
  import opened Words
  import opened AesSpec
  import opened Aes
  import opened CtrMode
  import opened Rbufs

  // ---------------------------------------------------------------- the counter

  lemma {:induction false} DigitCarries(v: nat, x: nat, s: seq<Byte>)
    ensures Append(v + x / 0x100, [ToByte(x % 0x100)] + s) == Append(v * 0x100 + x, s)
  {
    hide Value; hide ToByte;
    AppendFirst(v + x / 0x100, ToByte(x % 0x100), s);
    ValueOfByte(x % 0x100);
  }

  lemma {:induction false} LastDigit(s: seq<Byte>)
    requires s != []
    ensures Number(s) == Number(s[..|s| - 1]) * 0x100 + Value(s[|s| - 1])
  {
  }

  lemma {:induction false} AppendToOne(s: seq<Byte>)
    ensures Append(1, s) == Power256(|s|) + Number(s)
  {
    hide Value;
    if s != [] {
      AppendToOne(s[..|s| - 1]);
    }
  }

  /** Adding `x` to the digit before `m` and carrying keeps the number. */
  lemma {:induction false} CarryStep(s: seq<Byte>, t: seq<Byte>, m: nat, pos: nat)
    requires 0 < m <= |s| && t == s[m - 1 := ToByte((pos + Value(s[m - 1])) % 0x100)]
    ensures Append(Number(t[..m - 1]) + (pos + Value(s[m - 1])) / 0x100, t[m - 1..]) ==
              Append(Number(s[..m]) + pos, s[m..])
  {
    hide Value; hide ToByte; hide Append;
    var x := pos + Value(s[m - 1]);
    DigitCarries(Number(s[..m - 1]), x, s[m..]);
    LastDigit(s[..m]);
    assert s[..m][..m - 1] == s[..m - 1] == t[..m - 1];
    assert t[m - 1..] == [ToByte(x % 0x100)] + s[m..];
  }

  lemma {:induction false} AppendNothing(v: nat)
    ensures Append(v, []) == v
  {
  }

  /** `x` is still to be added to the digits before `m`. */
  ghost predicate Carrying(s: seq<Byte>, m: nat, x: nat, target: nat)
    requires m <= |s|
  {
    Append(Number(s[..m]) + x, s[m..]) == target
  }

  lemma {:induction false} CarryStarts(s: seq<Byte>, x: nat)
    requires |s| == 16
    ensures Number(s) < RANGE && Carrying(s, 16, x, Number(s) + x)
  {
    hide Append;
    AppendNothing(Number(s) + x);
    PowerIsRange();
    AppendBounds(0, s);
    assert s[..16] == s && s[16..] == [];
  }

  lemma {:induction false} CarryMoves(s: seq<Byte>, t: seq<Byte>, m: nat, x: nat, target: nat)
    requires 0 < m <= |s| && Carrying(s, m, x, target) && t == s[m - 1 := ToByte((x + Value(s[m - 1])) % 0x100)]
    ensures Carrying(t, m - 1, (x + Value(s[m - 1])) / 0x100, target)
  {
    hide Value; hide ToByte; hide Append;
    CarryStep(s, t, m, x);
  }

  lemma {:induction false} CarryDone(s: seq<Byte>, m: nat, target: nat)
    requires m <= |s| && Carrying(s, m, 0, target)
    ensures Number(s) == target
  {
    hide Append;
    AppendSplit(s, m);
  }

  /** A carry out of the last digit means the number left the range. */
  lemma {:induction false} CarryEnds(s: seq<Byte>, x: nat, target: nat)
    requires |s| == 16 && Carrying(s, 0, x, target)
    ensures x > 0 ==> target >= RANGE
    ensures x == 1 ==> target == RANGE + Number(s)
  {
    hide Append;
    assert s[..0] == [] && s[0..] == s;
    AppendNothing(0);
    PowerIsRange();
    AppendBounds(x, s);
    AppendToOne(s);
  }

  /** player_seek_counter: the nonce plus the block number, as a big-endian number. */
  method SeekCounter(counter: array<Byte>, tell: nat)
    requires counter.Length == 16 && tell < SIZE_RANGE
    modifies counter
    ensures Number(counter[..]) == Nonce() + tell / 16
  {
    hide Value; hide ToByte; hide Number; hide Carrying;
    for i := 0 to 16
      invariant counter[..i] == NONCE_BYTES[..i]
    {
      counter[i] := NONCE_BYTES[i];
    }
    assert counter[..] == NONCE_BYTES;
    var pos: nat := tell / 16;
    var m := 16;
    ghost var target := Nonce() + pos;
    NonceBound();
    CarryStarts(counter[..], pos);
    while pos != 0
      invariant 0 <= m <= 16 && Carrying(counter[..], m, pos, target)
      decreases m
    {
      if m == 0 {
        CarryEnds(counter[..], pos, target);
        assert false;
      }
      pos := pos + Value(counter[m - 1]);
      CarryMoves(counter[..], counter[..][m - 1 := ToByte(pos % 0x100)], m, pos - Value(counter[m - 1]), target);
      counter[m - 1] := ToByte(pos % 0x100);
      m := m - 1;
      pos := pos / 0x100;
    }
    CarryDone(counter[..], m, target);
  }

  lemma {:induction false} ZeroDigit(x: nat)
    requires 0 < x <= 0x100
    ensures ToByte(x % 0x100) == 0 <==> x == 0x100
  {
    hide Value; hide ToByte;
    ValueOfByte(x % 0x100);
    ValueOfZero();
    ByteOfValue(0);
  }

  lemma {:induction false} ValueOfZero()
    ensures Value(0) == 0
  {
  }

  /** The increment after each block of keystream, modulo 2^128. */
  method Increment(counter: array<Byte>)
    requires counter.Length == 16
    modifies counter
    ensures Number(counter[..]) == Later(old(Number(counter[..])), 1)
  {
    hide Value; hide ToByte; hide Number; hide Carrying;
    ghost var start := Number(counter[..]);
    var m := 16;
    CarryStarts(counter[..], 1);
    while m > 0
      invariant 0 <= m <= 16 && Carrying(counter[..], m, 1, start + 1)
    {
      ghost var x := 1 + Value(counter[m - 1]);
      CarryMoves(counter[..], counter[..][m - 1 := ToByte(x % 0x100)], m, 1, start + 1);
      counter[m - 1] := ToByte((1 + Value(counter[m - 1])) % 0x100);
      ZeroDigit(x);
      m := m - 1;
      if counter[m] != 0 {
        CarryDone(counter[..], m, start + 1);
        CarryStarts(counter[..], 1);
        return;
      }
    }
    CarryEnds(counter[..], 1, start + 1);
    CarryStarts(counter[..], 1);
  }

  // ---------------------------------------------------------------- one kilobyte

  /** The four parts of kilobyte `block` of `data`, interleaved into `dest`. */
  method DeinterleaveInto(data: array<Byte>, dest: array<Byte>, block: nat)
    requires 1024 * (block + 1) <= data.Length && 1024 * (block + 1) <= dest.Length && data != dest
    modifies dest
    ensures dest[1024 * block..1024 * (block + 1)] == DeinterleaveBlock(data[1024 * block..1024 * (block + 1)])
    ensures dest[..1024 * block] == old(dest[..1024 * block])
            && dest[1024 * (block + 1)..] == old(dest[1024 * (block + 1)..])
  {
    var at := 1024 * block;
    ghost var b, was := data[at..at + 1024], dest[..];
    WovenParts(was, at, []);
    Weave(data, dest, at, b, was);
    WovenParts(was, at, DeinterleaveBlock(b));
  }

  method Weave(data: array<Byte>, dest: array<Byte>, at: nat, ghost b: seq<Byte>, ghost was: seq<Byte>)
    requires at + 1024 <= data.Length && at + 1024 <= dest.Length && data != dest
    requires b == data[at..at + 1024] && was == dest[..] == Woven(was, at, [])
    modifies dest
    ensures dest[..] == Woven(was, at, DeinterleaveBlock(b))
  {
    hide DeinterleaveBlock; hide Woven;
    var w, x, y, z := at, at + 256, at + 512, at + 768;
    var to, i := at, 0;
    ghost var q := 0;
    while i < 1024
      invariant i == 4 * q <= 1024 && to == at + i && w == at + q && x == w + 256 && y == w + 512 && z == w + 768
      invariant data[at..at + 1024] == b && dest[..] == Woven(was, at, DeinterleaveBlock(b)[..i])
    {
      FourDigits(b, q);
      WeaveFour(was, at, DeinterleaveBlock(b)[..i], data[w], data[x], data[y], data[z]);
      assert data[w] == b[q] && data[x] == b[256 + q] && data[y] == b[512 + q] && data[z] == b[768 + q];
      dest[to], dest[to + 1], dest[to + 2], dest[to + 3] := data[w], data[x], data[y], data[z];
      w, x, y, z, to, i, q := w + 1, x + 1, y + 1, z + 1, to + 4, i + 4, q + 1;
    }
    assert DeinterleaveBlock(b)[..1024] == DeinterleaveBlock(b);
  }

  lemma {:induction false} WovenParts(was: seq<Byte>, at: nat, s: seq<Byte>)
    requires at + |s| <= |was|
    ensures s == [] ==> Woven(was, at, s) == was
    ensures var r := Woven(was, at, s);
            |r| == |was| && r[at..at + |s|] == s && r[..at] == was[..at] && r[at + |s|..] == was[at + |s|..]
  {
  }

  /** `was` with the bytes from `at` on replaced by `s`. */
  function Woven(was: seq<Byte>, at: nat, s: seq<Byte>): (r: seq<Byte>)
    requires at + |s| <= |was|
    ensures |r| == |was|
  {
    was[..at] + s + was[at + |s|..]
  }

  lemma {:induction false} WeaveFour(was: seq<Byte>, at: nat, s: seq<Byte>, w: Byte, x: Byte, y: Byte, z: Byte)
    requires at + |s| + 4 <= |was|
    ensures Woven(was, at, s + [w, x, y, z])
            == Woven(was, at, s)[at + |s| := w][at + |s| + 1 := x][at + |s| + 2 := y][at + |s| + 3 := z]
  {
  }

  lemma {:induction false} FourDigits(b: seq<Byte>, q: nat)
    requires |b| == 1024 && q < 256
    ensures DeinterleaveBlock(b)[..4 * q + 4] ==
              DeinterleaveBlock(b)[..4 * q] + [b[q], b[256 + q], b[512 + q], b[768 + q]]
  {
    assert (4 * q + 1) / 4 == q && (4 * q + 2) / 4 == q && (4 * q + 3) / 4 == q;
    assert (4 * q + 1) % 4 == 1 && (4 * q + 2) % 4 == 2 && (4 * q + 3) % 4 == 3;
  }

  /** Sixteen bytes xored with the key stream in place. */
  method XorInto(dest: array<Byte>, at: nat, keystream: array<Byte>)
    requires keystream.Length == 16 && at + 16 <= dest.Length && keystream != dest
    modifies dest
    ensures dest[at..at + 16] == XorBytes(old(dest[at..at + 16]), keystream[..])
    ensures dest[..at] == old(dest[..at]) && dest[at + 16..] == old(dest[at + 16..])
  {
    hide XorB;
    for j := 0 to 16
      invariant forall i :: at <= i < at + j ==> dest[i] == XorB(old(dest[i]), keystream[i - at])
      invariant forall i :: 0 <= i < at || at + j <= i < dest.Length ==> dest[i] == old(dest[i])
    {
      dest[at + j] := XorB(dest[at + j], keystream[j]);
    }
  }

  /** Sixteen bytes in place: keystream from the counter, the counter moved on, the bytes xored. */
  method DecryptSixteen(box: Box, state: array<Word>, counter: array<Byte>, keystream: array<Byte>, dest: array<Byte>,
                        at: nat)
    requires state.Length == 44 && counter.Length == keystream.Length == 16 && at + 16 <= dest.Length
    requires counter != keystream && counter != dest && keystream != dest
    modifies counter, keystream, dest
    ensures Number(counter[..]) == Later(old(Number(counter[..])), 1)
    ensures dest[at..at + 16] == old(Ctr(box, RoundKeys(state[..], 10), Number(counter[..]), dest[at..at + 16]))
    ensures dest[..at] == old(dest[..at]) && dest[at + 16..] == old(dest[at + 16..])
  {
    hide Number; hide Cipher; hide RoundKeys; hide BlockIn; hide BytesOf; hide Later; hide XorBytes;
    ghost var keys, c := RoundKeys(state[..], 10), Number(counter[..]);
    BytesOfNumber(counter[..]);
    Encrypt(box, state, 10, counter, keystream);
    BytesOfBlockIn(keystream[..]);
    assert keystream[..] == KeyStream(box, keys, c);
    Increment(counter);
    XorInto(dest, at, keystream);
  }

  /** In the kilobyte at `at`, the first `i` bytes are decrypted and nothing else is changed. */
  ghost predicate Begun(box: Box, keys: seq<Block>, c: nat, was: seq<Byte>, now: seq<Byte>, at: nat, i: nat)
    requires |keys| >= 2
  {
    && |was| == |now| && at + i <= |was| && now[..at] == was[..at] && now[at + i..] == was[at + i..]
    && now[at..at + i] == Ctr(box, keys, c, was[at..at + i])
  }

  method DecryptBlock(box: Box, state: array<Word>, counter: array<Byte>, keystream: array<Byte>, dest: array<Byte>,
                      at: nat)
    requires state.Length == 44 && counter.Length == keystream.Length == 16 && at + 1024 <= dest.Length
    requires counter != keystream && counter != dest && keystream != dest && Number(counter[..]) < RANGE
    modifies counter, keystream, dest
    ensures Number(counter[..]) == Later(old(Number(counter[..])), 64)
    ensures dest[at..at + 1024] == old(Ctr(box, RoundKeys(state[..], 10), Number(counter[..]), dest[at..at + 1024]))
    ensures dest[..at] == old(dest[..at]) && dest[at + 1024..] == old(dest[at + 1024..])
  {
    hide Number; hide Ctr; hide RoundKeys; hide Later; hide Begun;
    ghost var keys, c, before := RoundKeys(state[..], 10), Number(counter[..]), dest[..];
    var i := 0;
    LaterTwice(c, 0, 0);
    BegunNot(box, keys, c, before, at);
    while i < 1024
      invariant 0 <= i <= 1024 && i % 16 == 0 && Number(counter[..]) == Later(c, i / 16)
      invariant Begun(box, keys, c, before, dest[..], at, i)
      invariant RoundKeys(state[..], 10) == keys
    {
      ghost var was := dest[..];
      DecryptSixteen(box, state, counter, keystream, dest, at + i);
      BegunMore(box, keys, c, before, was, dest[..], at, i);
      LaterTwice(c, i / 16, 1);
      i := i + 16;
    }
    BegunDone(box, keys, c, before, dest[..], at);
  }

  lemma {:induction false} BegunNot(box: Box, keys: seq<Block>, c: nat, was: seq<Byte>, at: nat)
    requires |keys| >= 2 && at <= |was|
    ensures Begun(box, keys, c, was, was, at, 0)
  {
    CtrNothing(box, keys, c);
    assert was[at..at + 0] == [];
  }

  lemma {:induction false} BegunDone(box: Box, keys: seq<Block>, c: nat, was: seq<Byte>, now: seq<Byte>, at: nat)
    requires |keys| >= 2 && Begun(box, keys, c, was, now, at, 1024)
    ensures now[at..at + 1024] == Ctr(box, keys, c, was[at..at + 1024])
    ensures now[..at] == was[..at] && now[at + 1024..] == was[at + 1024..]
  {
  }

  /** Sixteen bytes more. */
  lemma {:induction false} BegunMore(box: Box, keys: seq<Block>, c: nat, was: seq<Byte>, mid: seq<Byte>,
                                     now: seq<Byte>, at: nat, i: nat)
    requires |keys| >= 2 && c < RANGE && i % 16 == 0 && at + i + 16 <= |was| == |now|
             && Begun(box, keys, c, was, mid, at, i)
    requires now[..at + i] == mid[..at + i] && now[at + i + 16..] == mid[at + i + 16..]
    requires now[at + i..at + i + 16] == Ctr(box, keys, Later(c, i / 16), mid[at + i..at + i + 16])
    ensures Begun(box, keys, c, was, now, at, i + 16)
  {
    hide Ctr; hide Later;
    var x, y := was[at..at + i], was[at + i..at + i + 16];
    CtrInPieces(box, keys, c, x, y);
    assert x + y == was[at..at + i + 16];
    assert mid[at + i..at + i + 16] == mid[at + i..][..16] == y;
    assert now[at..at + i] == now[..at + i][at..] == mid[at..at + i];
    assert now[..at] == now[..at + i][..at] == mid[..at];
    assert now[at + i + 16..] == mid[at + i..][16..] == was[at + i + 16..];
    assert now[at..at + i + 16] == now[at..at + i] + now[at + i..at + i + 16];
  }

  lemma {:induction false} CtrNothing(box: Box, keys: seq<Block>, c: nat)
    requires |keys| >= 2
    ensures Ctr(box, keys, c, []) == []
  {
  }

  /** The first `blocks` kilobytes of `x`, decrypted. */
  function Kilobytes(box: Box, keys: seq<Block>, c: nat, x: seq<Byte>, blocks: nat): (s: seq<Byte>)
    requires |keys| >= 2 && 1024 * blocks <= |x|
    ensures |s| == 1024 * blocks
  {
    hide Ctr; hide Deinterleave; hide RoundKeys;
    assert (1024 * blocks) % 1024 == 0;
    Ctr(box, keys, c, Deinterleave(x[..1024 * blocks]))
  }

  /** The body of the loop over the kilobytes of `data`. */
  method NextKilobyte(box: Box, state: array<Word>, counter: array<Byte>, keystream: array<Byte>, data: array<Byte>,
                      dest: array<Byte>,
                      block: nat, ghost c: nat, ghost x: seq<Byte>)
    requires state.Length == 44 && counter.Length == keystream.Length == 16
    requires 1024 * (block + 1) <= data.Length <= dest.Length && data != dest && data[..] == x
    requires counter != keystream && counter != dest && keystream != dest && counter != data && keystream != data
    requires c < RANGE && Number(counter[..]) == Later(c, 64 * block)
    requires dest[..1024 * block] == Kilobytes(box, RoundKeys(state[..], 10), c, x, block)
    modifies counter, keystream, dest
    ensures Number(counter[..]) == Later(c, 64 * (block + 1))
    ensures dest[..1024 * (block + 1)] == Kilobytes(box, RoundKeys(state[..], 10), c, x, block + 1)
    ensures dest[data.Length..] == old(dest[data.Length..])
  {
    hide Number; hide Ctr; hide RoundKeys; hide Later; hide Deinterleave; hide DeinterleaveBlock;
    var at := 1024 * block;
    LaterBelow(c, 64 * block);
    DeinterleaveInto(data, dest, block);
    DecryptBlock(box, state, counter, keystream, dest, at);
    KilobyteDone(box, RoundKeys(state[..], 10), c, x[..at], x[at..at + 1024]);
    assert x[..at] + x[at..at + 1024] == x[..at + 1024];
    assert dest[..at + 1024] == dest[..at] + dest[at..at + 1024];
    TailKept(old(dest[..]), dest[..], at + 1024, data.Length);
    LaterTwice(c, 64 * block, 64);
  }

  lemma {:induction false} TailKept(v: seq<Byte>, w: seq<Byte>, m: nat, n: nat)
    requires m <= n <= |v| == |w| && v[m..] == w[m..]
    ensures v[n..] == w[n..]
  {
    assert v[n..] == v[m..][n - m..] && w[n..] == w[m..][n - m..];
  }

  /** The loop over the kilobytes of `data`. */
  method DecryptAll(box: Box, state: array<Word>, counter: array<Byte>, keystream: array<Byte>, data: array<Byte>,
                    dest: array<Byte>)
    requires state.Length == 44 && counter.Length == keystream.Length == 16
    requires data.Length % 1024 == 0 && data.Length <= dest.Length && data != dest
    requires counter != keystream && counter != dest && keystream != dest && counter != data && keystream != data
    requires Number(counter[..]) < RANGE
    modifies counter, keystream, dest
    ensures dest[..data.Length] == old(Ctr(box, RoundKeys(state[..], 10), Number(counter[..]), Deinterleave(data[..])))
    ensures Number(counter[..]) == Later(old(Number(counter[..])), data.Length / 16)
    ensures forall i :: data.Length <= i < dest.Length ==> dest[i] == old(dest[i])
  {
    hide Number; hide Ctr; hide RoundKeys; hide Later; hide Deinterleave; hide DeinterleaveBlock;
    ghost var keys, c, x := RoundKeys(state[..], 10), Number(counter[..]), data[..];
    LaterTwice(c, 0, 0);
    CtrNothing(box, keys, c);
    DeinterleaveNothing();
    var block := 0;
    while block < data.Length / 1024
      invariant 0 <= 1024 * block <= data.Length && Number(counter[..]) == Later(c, 64 * block)
      invariant dest[..1024 * block] == Kilobytes(box, keys, c, x, block)
      invariant dest[data.Length..] == old(dest[data.Length..])
      invariant RoundKeys(state[..], 10) == keys && data[..] == x
    {
      NextKilobyte(box, state, counter, keystream, data, dest, block, c, x);
      block := block + 1;
    }
    assert x[..1024 * block] == x;
    forall i | data.Length <= i < dest.Length
      ensures dest[i] == old(dest[i])
    {
      assert dest[i] == dest[data.Length..][i - data.Length];
    }
  }

  lemma {:induction false} DeinterleaveNothing()
    ensures Deinterleave([]) == []
  {
  }

  lemma {:induction false} DeinterleaveOne(b: seq<Byte>)
    requires |b| == 1024
    ensures Deinterleave(b) == DeinterleaveBlock(b)
  {
    hide DeinterleaveBlock;
    assert b[..1024] == b && b[1024..] == [];
  }

  lemma {:induction false} KilobyteDone(box: Box, keys: seq<Block>, c: nat, a: seq<Byte>, b: seq<Byte>)
    requires |keys| >= 2 && c < RANGE && |a| % 1024 == 0 && |b| == 1024
    ensures Ctr(box, keys, c, Deinterleave(a)) + Ctr(box, keys, Later(c, |a| / 16), DeinterleaveBlock(b))
            == Ctr(box, keys, c, Deinterleave(a + b))
  {
    hide Ctr; hide Later; hide Deinterleave; hide DeinterleaveBlock;
    DeinterleaveOne(b);
    DeinterleaveInPieces(a, b);
    CtrInPieces(box, keys, c, Deinterleave(a), Deinterleave(b));
  }

  // ---------------------------------------------------------------- what the buffer holds of the file

  /** Offsets and lengths of requests are ints. */
  const FILE_LIMIT := 0x7fff_f000

  /** Whatever the buffer holds is what the file has there. */
  ghost predicate Consistent(f: File, file: seq<Byte>) {
    forall p: nat :: Has(f, p) ==> p < |file| && At(f, p) == file[p]
  }

  /** A write at `w` starts no later than what its region holds. */
  predicate Ready(f: File, w: nat) {
    w % CHUNK <= |FillAt(f, w / CHUNK)|
  }

  ghost predicate Grown(f: File, g: File) {
    forall p: nat :: Has(f, p) ==> Has(g, p)
  }

  lemma {:induction false} GrownThen(f: File, g: File, h: File)
    requires Grown(f, g) && Grown(g, h)
    ensures Grown(f, h)
  {
    hide Has;
  }

  /** Writing the file's own bytes keeps the buffer consistent and ready for the bytes after them. */
  lemma {:induction false} WriteKeeps(f: File, g: File, w: nat, a: seq<Byte>, file: seq<Byte>)
    requires WellFormed(f) && Consistent(f, file) && Ready(f, w) && Wrote(f, g, w, a)
    requires w + |a| <= |file| && a == file[w..w + |a|]
    ensures Consistent(g, file) && Grown(f, g) && (a != [] ==> Ready(g, w + |a|))
  {
    hide Has; hide At; hide Wrote;
    if a == [] {
      WroteSame(f, g, w);
    } else {
      WriteIsExact(f, g, w, a);
      WroteRange(f, g, w, a);
      LastWritten(g, w + |a| - 1);
    }
  }

  lemma {:induction false} WroteSame(f: File, g: File, w: nat)
    requires Wrote(f, g, w, [])
    ensures forall p: nat :: (Has(g, p) <==> Has(f, p)) && (Has(f, p) ==> At(g, p) == At(f, p))
  {
    hide Has; hide At;
  }

  lemma {:induction false} WroteRange(f: File, g: File, w: nat, a: seq<Byte>)
    requires Wrote(f, g, w, a)
    ensures forall p :: w <= p < w + |a| ==> Has(g, p) && At(g, p) == a[p - w]
  {
    hide Has; hide At;
  }

  lemma {:induction false} LastWritten(g: File, p: nat)
    requires Has(g, p)
    ensures Ready(g, p + 1)
  {
    if p % CHUNK + 1 < CHUNK {
      SameRegion(p, 1);
    } else {
      Boundary(p, 1);
    }
  }

  lemma {:induction false} SliceOfFile(f: File, file: seq<Byte>, a: nat, n: nat)
    requires Consistent(f, file) && forall p :: a <= p < a + n ==> Has(f, p)
    ensures n > 0 ==> a + n <= |file| && Slice(f, a, n) == file[a..a + n]
  {
    hide Has; hide At;
    if n > 0 {
      assert Has(f, a + n - 1);
    }
  }

  // ---------------------------------------------------------------- the player

  /** What the I/O thread posts to the player while a chunk is downloaded. */
  datatype Item = Data(n: nat) | DataLast | Eof

  /** A request for part of the file. */
  datatype Substream = Substream(offset: int, length: int)

  /** The bytes of data among the items. */
  function Sent(batch: seq<Item>): nat {
    if batch == [] then 0
    else Sent(batch[..|batch| - 1]) + if batch[|batch| - 1].Data? then batch[|batch| - 1].n else 0
  }

  function SentIn(batches: seq<seq<Item>>): nat {
    if batches == [] then 0 else SentIn(batches[..|batches| - 1]) + Sent(batches[|batches| - 1])
  }

  /** Where `n` bytes of a file of `size` bytes, sent from `w` on, leave the writer. */
  function Reached(w: nat, n: nat, size: nat): (e: nat)
    ensures w <= e && (w + n <= size ==> e == w + n)
  {
    if w + n <= size then w + n else if w <= size then size else w
  }

  /** The start of the page that `p` is in. */
  function Page(p: nat): nat {
    p - p % 4096
  }

  ghost predicate HasAll(f: File, a: nat, b: nat) {
    forall p :: a <= p < b ==> Has(f, p)
  }

  lemma {:induction false} SentMore(batch: seq<Item>, i: nat)
    requires i < |batch|
    ensures Sent(batch[..i + 1]) == Sent(batch[..i]) + if batch[i].Data? then batch[i].n else 0
    ensures Eof in batch[..i + 1] <==> Eof in batch[..i] || batch[i] == Eof
    ensures DataLast in batch[..i + 1] <==> DataLast in batch[..i] || batch[i] == DataLast
  {
    assert batch[..i + 1][..i] == batch[..i];
    assert batch[..i + 1] == batch[..i] + [batch[i]];
  }

  lemma {:induction false} SentInMore(batches: seq<seq<Item>>, k: nat)
    requires k < |batches|
    ensures SentIn(batches[..k + 1]) == SentIn(batches[..k]) + Sent(batches[k])
  {
    assert batches[..k + 1][..k] == batches[..k];
  }

  lemma {:induction false} HasGrown(f: File, g: File, a: nat, b: nat)
    requires HasAll(f, a, b) && Grown(f, g)
    ensures HasAll(g, a, b)
  {
    hide Has;
  }

  lemma {:induction false} HasJoined(f: File, a: nat, b: nat, c: nat)
    requires HasAll(f, a, b) && HasAll(f, b, c)
    ensures HasAll(f, a, c)
  {
    hide Has;
  }

  /** What is present from `a` on is a run. */
  lemma {:induction false} RunReaches(f: File, a: nat, b: nat)
    requires WellFormed(f) && HasAll(f, a, b)
    ensures a + RunLength(f, a) >= b
  {
    hide Has; hide RunLength;
    RunIsLongest(f, a);
  }

  lemma {:induction false} RunHas(f: File, a: nat, b: nat)
    requires WellFormed(f) && b <= a + RunLength(f, a)
    ensures HasAll(f, a, b)
  {
    hide Has; hide RunLength;
    RunIsLongest(f, a);
  }

  lemma {:induction false} WrittenHas(f: File, g: File, w: nat, d: seq<Byte>)
    requires Wrote(f, g, w, d)
    ensures HasAll(g, w, w + |d|)
  {
    hide Has; hide At;
  }

  /** The wait for `want` bytes ends with `have` of them: half is there, or what is missing rounds to no page at all in
      size_t arithmetic. */
  predicate Waited(want: nat, have: nat) {
    have >= want / 2 || (want - have + 4095) % SIZE_RANGE < 4096
  }

  /** How a read ends: `Blocked` while it waits for items that do not come, `Ended` with nothing for want of data,
      `Aborted` by its assertion, `Overrun` when it trims more than it decrypted. */
  datatype Outcome = Blocked | Ended | Aborted | Overrun | Delivered(n: nat)

  /** A size_t as a 32-bit int. */
  function Int32(x: int): int {
    (x + 0x8000_0000) % 0x1_0000_0000 - 0x8000_0000
  }

  class Player {
    const box: Box
    const state: array<Word>
    const counter: array<Byte>
    const keystream: array<Byte>
    const ogg: Rbuf
    const remote: seq<Byte>
    var streamLength: nat
    var isEof: bool
    var isDownloading: int
    var posted: seq<Substream>

    ghost predicate Arrays()
      reads this, ogg`Repr
    {
      && state.Length == 44 && counter.Length == keystream.Length == 16 && counter != keystream
      && counter !in ogg.Repr && keystream !in ogg.Repr && state !in ogg.Repr
    }

    ghost predicate Valid()
      reads this, ogg, ogg.Repr
    {
      && Arrays() && ogg.Valid() && this !in ogg.Repr
      && |remote| <= FILE_LIMIT && ogg.readOffset <= FILE_LIMIT && ogg.writeOffset <= FILE_LIMIT
      && streamLength < SIZE_RANGE
      && Consistent(ogg.Contents(), remote) && Ready(ogg.Contents(), ogg.writeOffset)
    }

    /** A new track: the buffer is empty and the file key expanded, as on PLAYER_KEY. */
    constructor (box: Box, key: seq<Byte>, remote: seq<Byte>)
      requires |key| >= 16 && |remote| <= FILE_LIMIT
      ensures Valid() && fresh(ogg) && fresh(ogg.Repr) && fresh(state) && fresh(counter) && fresh(keystream)
      ensures this.box == box && this.remote == remote && ogg.readOffset == 0
      ensures RoundKeys(state[..], 10) == ExpandedKeys(box, key, 128)
    {
      hide RoundKeys; hide ExpandedKeys; hide Has; hide At;
      var words := new Word[44];
      var rounds := KeySetupEnc(box, words, key, 128);
      this.box, this.remote, state := box, remote, words;
      counter := new Byte[16];
      keystream := new Byte[16];
      ogg := new Rbuf();
      streamLength, isEof, isDownloading, posted := 0, false, 0, [];
    }

    /** The items posted so far are handled; the server sends the bytes of the file from the writer's position on. */
    method Schedule(batch: seq<Item>)
      requires Valid()
      modifies this`isEof, this`isDownloading, ogg`regions, ogg`Repr, ogg`writeOffset, ogg.Repr
      ensures Valid() && fresh(ogg.Repr - old(ogg.Repr))
      ensures Grown(old(ogg.Contents()), ogg.Contents())
      ensures ogg.writeOffset == Reached(old(ogg.writeOffset), Sent(batch), |remote|)
      ensures HasAll(ogg.Contents(), old(ogg.writeOffset), ogg.writeOffset)
      ensures isEof <==> old(isEof) || Eof in batch
      ensures isDownloading == if DataLast in batch then 0 else old(isDownloading)
    {
      hide Consistent; hide Ready; hide Wrote; hide Grown; hide Sent; hide HasAll;
      ghost var w := ogg.writeOffset;
      NotShrunk(ogg.Contents());
      NothingSent(ogg.Contents(), w);
      assert batch[..0] == [];
      for i := 0 to |batch|
        invariant Valid() && fresh(ogg.Repr - old(ogg.Repr)) && Grown(old(ogg.Contents()), ogg.Contents())
        invariant ogg.writeOffset == Reached(w, Sent(batch[..i]), |remote|)
        invariant HasAll(ogg.Contents(), w, ogg.writeOffset)
        invariant isEof <==> old(isEof) || Eof in batch[..i]
        invariant isDownloading == if DataLast in batch[..i] then 0 else old(isDownloading)
      {
        SentMore(batch, i);
        match batch[i]
        case Data(n) =>
          ghost var before, at := ogg.Contents(), ogg.writeOffset;
          Store(n);
          GrownThen(old(ogg.Contents()), before, ogg.Contents());
          HasGrown(before, ogg.Contents(), w, at);
          HasJoined(ogg.Contents(), w, at, ogg.writeOffset);
        case DataLast => isDownloading := 0;
        case Eof => isEof := true;
      }
      assert batch[..|batch|] == batch;
    }

    method Store(n: nat)
      requires Valid()
      modifies ogg`regions, ogg`Repr, ogg`writeOffset, ogg.Repr
      ensures Valid() && fresh(ogg.Repr - old(ogg.Repr))
      ensures Grown(old(ogg.Contents()), ogg.Contents())
      ensures ogg.writeOffset == Reached(old(ogg.writeOffset), n, |remote|)
      ensures HasAll(ogg.Contents(), old(ogg.writeOffset), ogg.writeOffset)
    {
      hide Consistent; hide Ready; hide Wrote; hide Grown; hide Rbuf.Contents; hide Rbuf.Valid; hide HasAll;
      var w := ogg.writeOffset;
      var k := if w + n <= |remote| then n else if w <= |remote| then |remote| - w else 0;
      var d := if k == 0 then [] else remote[w..w + k];
      ghost var f := ogg.Contents();
      ogg.Write(d);
      WrittenHas(f, ogg.Contents(), w, d);
      if k > 0 {
        WriteKeeps(f, ogg.Contents(), w, d, remote);
      } else {
        WriteNothing(f, ogg.Contents(), w, remote);
      }
    }

    /** Ask for what is missing behind the run of `have` bytes: whole pages, from the one the first missing byte is
        in. */
    method RequestMore(want: nat, have: nat)
      requires Valid() && have < want < SIZE_RANGE && have == RunLength(ogg.Contents(), ogg.readOffset)
      requires isDownloading == 0 && (want - have + 4095) % SIZE_RANGE >= 4096
      modifies this`isDownloading, this`posted, ogg`writeOffset, ogg`readOffset
      ensures Valid() && ogg.Contents() == old(ogg.Contents()) && ogg.readOffset == old(ogg.readOffset)
      ensures exists r: Substream :: posted == old(posted) + [r] && r.length == isDownloading
                                     && r.offset == ogg.writeOffset
      ensures ogg.writeOffset % 4096 == 0 && ogg.writeOffset <= ogg.readOffset + have < ogg.writeOffset + 4096
      ensures want < FILE_LIMIT - 4096 ==> isDownloading % 4096 == 0
                                           && want - have <= isDownloading < want - have + 4096
    {
      hide Consistent; hide RunLength; hide Ready; hide Rbuf.Contents; hide Rbuf.Valid;
      RunInFile(ogg.Contents(), ogg.readOffset, remote);
      var offset := ogg.readOffset + have;
      offset := offset - offset % 4096;
      var length := (want - have + 4095) % SIZE_RANGE;
      length := length - length % 4096;
      isDownloading := Int32(length);
      ogg.Seek(offset, SeekSet, true);
      ReadyAtPage(ogg.Contents(), offset);
      posted := posted + [Substream(Int32(offset), Int32(length))];
    }

    /** The batches bring half of what is wanted at `a`: sent from the page of the first missing byte on, which is
        where a request puts the writer, or from where the writer stands, if a chunk is being downloaded and does not
        end. */
    ghost predicate Supplied(a: nat, want: nat, batches: seq<seq<Item>>)
      requires Valid()
      reads this, ogg, ogg.Repr
    {
      var end := a + RunLength(ogg.Contents(), a);
      if isDownloading == 0 then Reached(Page(end), SentIn(batches), |remote|) >= a + want / 2
      else
        && ogg.writeOffset <= end && Reached(ogg.writeOffset, SentIn(batches), |remote|) >= a + want / 2
        && forall k :: 0 <= k < |batches| ==> DataLast !in batches[k]
    }

    /** Wait until half of what is wanted is there, asking for more at most once. */
    method Fetch(want: nat, batches: seq<seq<Item>>) returns (blocked: bool)
      requires Valid() && want < SIZE_RANGE
      modifies this`isEof, this`isDownloading, this`posted, ogg, ogg.Repr
      ensures Valid() && fresh(ogg.Repr - old(ogg.Repr)) && ogg.readOffset == old(ogg.readOffset)
      ensures Grown(old(ogg.Contents()), ogg.Contents())
      ensures old(posted) <= posted && |posted| <= |old(posted)| + 1
      ensures !blocked ==> isEof || Waited(want, RunLength(ogg.Contents(), ogg.readOffset))
      ensures blocked ==> !isEof && RunLength(ogg.Contents(), ogg.readOffset) < want / 2
      ensures blocked && old(isDownloading) == 0 ==> |posted| == |old(posted)| + 1
      ensures old(Supplied(ogg.readOffset, want, batches)) ==> !blocked
    {
      hide Consistent; hide RunLength; hide Ready; hide Grown; hide Rbuf.Contents; hide Rbuf.Valid; hide Sent;
      hide SentIn; hide HasAll; hide Reached;
      ghost var a := ogg.readOffset;
      ghost var end := a + RunLength(ogg.Contents(), a);
      ghost var supplied := Supplied(a, want, batches);
      ghost var start := if isDownloading == 0 then Page(end) else ogg.writeOffset;
      var didDownload, k := false, 0;
      NotShrunk(ogg.Contents());
      NoneSent(start, |remote|);
      assert batches[..0] == [];
      if supplied {
        RunHas(ogg.Contents(), a, start);
      }
      while true
        invariant Valid() && fresh(ogg.Repr - old(ogg.Repr)) && ogg.readOffset == old(ogg.readOffset)
        invariant Grown(old(ogg.Contents()), ogg.Contents()) && 0 <= k <= |batches|
        invariant old(posted) <= posted && |posted| == |old(posted)| + (if didDownload then 1 else 0)
        invariant didDownload || k == 0 || old(isDownloading) != 0
        invariant k == 0 && !didDownload ==> isDownloading == old(isDownloading)
                                             && ogg.Contents() == old(ogg.Contents())
        invariant supplied && old(isDownloading) != 0 ==> isDownloading == old(isDownloading) && !didDownload
        invariant supplied && (didDownload || old(isDownloading) != 0) ==>
                    && ogg.writeOffset == Reached(start, SentIn(batches[..k]), |remote|)
                    && HasAll(ogg.Contents(), a, ogg.writeOffset)
        invariant supplied && !didDownload && old(isDownloading) == 0 ==> HasAll(ogg.Contents(), a, start)
        decreases |batches| - k
      {
        if isEof {
          return false;
        }
        var have := ogg.Length();
        if have >= want / 2 {
          return false;
        }
        if !didDownload && isDownloading == 0 {
          if (want - have + 4095) % SIZE_RANGE < 4096 {
            return false;
          }
          didDownload := true;
          RequestMore(want, have);
          assert supplied ==> ogg.writeOffset == start by {
            if supplied {
              PageIs(end, ogg.writeOffset);
            }
          }
        }
        if k == |batches| {
          if supplied {
            assert batches[..k] == batches;
            RunReaches(ogg.Contents(), a, ogg.writeOffset);
          }
          return true;
        }
        ghost var before, at := ogg.Contents(), ogg.writeOffset;
        Schedule(batches[k]);
        GrownThen(old(ogg.Contents()), before, ogg.Contents());
        if supplied {
          HasGrown(before, ogg.Contents(), a, at);
          HasJoined(ogg.Contents(), a, at, ogg.writeOffset);
          SentInMore(batches, k);
          ReachedMore(start, SentIn(batches[..k]), Sent(batches[k]), |remote|);
        }
        k := k + 1;
      }
    }

    /** Read and decrypt `n` bytes from the reader's position on. */
    method Load(dest: array<Byte>, n: nat)
      requires Valid() && n % 1024 == 0 && 0 < n <= dest.Length && n <= RunLength(ogg.Contents(), ogg.readOffset)
      requires ogg.readOffset % 1024 == 0
      requires dest != counter && dest != keystream && dest !in ogg.Repr
      modifies counter, keystream, dest, ogg`readOffset
      ensures Valid() && ogg.Contents() == old(ogg.Contents()) && ogg.readOffset == old(ogg.readOffset) + n
      ensures old(ogg.readOffset) + n <= |Plaintext(box, old(RoundKeys(state[..], 10)), remote)|
      ensures dest[..n] == Plaintext(box, old(RoundKeys(state[..], 10)),
              remote)[old(ogg.readOffset)..old(ogg.readOffset) + n]
    {
      hide Consistent; hide RunLength; hide Ready; hide Rbuf.Contents; hide Rbuf.Valid; hide Number; hide Ctr;
      hide Deinterleave; hide RoundKeys; hide Nonce;
      ghost var a, f, keys := ogg.readOffset, ogg.Contents(), RoundKeys(state[..], 10);
      SeekCounter(counter, ogg.readOffset);
      var data := new Byte[n];
      var got := ogg.Read(data, 0, n);
      assert data[..] == data[0..0 + got];
      SliceOfFile(f, remote, a, n);
      NonceBound();
      DecryptAll(box, state, counter, keystream, data, dest);
      PlainPiece(box, keys, remote, a, n);
    }

    /** What is wanted at `p`, cut at the estimated end of the stream in size_t arithmetic. */
    function WantedAt(p: nat, want: nat): (n: nat)
      requires want < SIZE_RANGE
      reads this`streamLength
      ensures n < SIZE_RANGE
    {
      if streamLength != 0 && p + want > streamLength then (streamLength - p) % SIZE_RANGE else want
    }

    /** A read at `p` has delivered `n` bytes of `plain`, `before` being the stream length before it. */
    ghost predicate Delivery(plain: seq<Byte>, p: nat, n: nat, before: nat, dest: seq<Byte>)
      reads this, ogg`readOffset
    {
      && From(p) + n == ogg.readOffset <= |plain|
      && n <= |dest| && dest[..n] == plain[From(p)..From(p) + n]
      && streamLength == if p < 4096 then StreamLength(plain[p + 0x24..p + 0x28]) else before
    }

    /** player_ov_read: what it delivers and when, for every position and size. */
    method OvRead(dest: array<Byte>, want: nat, batches: seq<seq<Item>>) returns (o: Outcome)
      requires Valid() && want <= dest.Length && want < FILE_LIMIT
      requires dest != counter && dest != keystream && dest !in ogg.Repr
      modifies this`isEof, this`isDownloading, this`posted, this`streamLength, ogg, ogg.Repr, counter, keystream, dest
      ensures Valid() && fresh(ogg.Repr - old(ogg.Repr)) && Grown(old(ogg.Contents()), ogg.Contents())
      ensures o != Blocked ==> var p := old(ogg.readOffset);
      o == Expected(p, RunLength(ogg.Contents(), p - p % 4096), want)
      ensures o.Delivered? ==>
                Delivery(Plaintext(box, old(RoundKeys(state[..], 10)), remote), old(ogg.readOffset), o.n,
                  old(streamLength), dest[..])
      ensures old(posted) <= posted && |posted| <= |old(posted)| + 1
      ensures o != Blocked ==>
                var p := old(ogg.readOffset);
                isEof || Waited(old(WantedAt(p - p % 4096, want)), RunLength(ogg.Contents(), p - p % 4096))
      ensures o == Blocked ==>
                var p := old(ogg.readOffset);
                !isEof && RunLength(ogg.Contents(), p - p % 4096) < old(WantedAt(p - p % 4096, want)) / 2
      ensures o == Blocked && old(isDownloading) == 0 ==> |posted| == |old(posted)| + 1
      ensures old(Supplied(Page(ogg.readOffset), WantedAt(Page(ogg.readOffset), want), batches)) ==> o != Blocked
    {
      hide Consistent; hide RunLength; hide Ready; hide Grown; hide Rbuf.Contents; hide Rbuf.Valid; hide RoundKeys;
      hide Plaintext; hide StreamLength;
      hide Delivery; hide Expected;
      var previous := 0;
      if ogg.readOffset % 4096 != 0 {
        previous := ogg.readOffset % 4096;
        ogg.Seek(ogg.readOffset - previous, SeekSet, false);
      }
      var blocked := Fetch(WantedAt(ogg.readOffset, want), batches);
      if blocked {
        return Blocked;
      }
      o := Decode(dest, want, previous);
    }

    /** Reads one after another, up to the first that does not deliver: what they deliver is a chain of pieces of the
        plaintext, and with a first piece that leaves the first page one stretch of it. */
    method ReadAll(dest: array<Byte>, wants: seq<nat>, batches: seq<seq<seq<Item>>>)
      returns (text: seq<Byte>, o: Outcome, ghost pieces: seq<seq<Byte>>)
      requires Valid() && |wants| == |batches| && forall i :: 0 <= i < |wants| ==> wants[i] <= dest.Length < FILE_LIMIT
      requires dest != counter && dest != keystream && dest !in ogg.Repr
      modifies this`isEof, this`isDownloading, this`posted, this`streamLength, ogg, ogg.Repr, counter, keystream, dest
      ensures Valid() && fresh(ogg.Repr - old(ogg.Repr)) && |pieces| <= |wants| && text == Concat(pieces)
      ensures o.Delivered? ==> |pieces| == |wants| && ogg.readOffset == End(old(ogg.readOffset), pieces)
      ensures Chain(Plaintext(box, old(RoundKeys(state[..], 10)), remote), old(ogg.readOffset), pieces)
      ensures pieces != [] && (|pieces| > 1 ==> From(old(ogg.readOffset)) + |pieces[0]| >= 4096) ==>
                var p := old(ogg.readOffset);
                From(p) <= End(p, pieces) <= |Plaintext(box, old(RoundKeys(state[..], 10)), remote)|
                && text == Plaintext(box, old(RoundKeys(state[..], 10)), remote)[From(p)..End(p, pieces)]
    {
      hide Consistent; hide Ready; hide Grown; hide RunLength; hide Rbuf.Contents; hide Rbuf.Valid; hide RoundKeys;
      hide Plaintext; hide Chain; hide End; hide Concat; hide Expected;
      ghost var p, plain := ogg.readOffset, Plaintext(box, RoundKeys(state[..], 10), remote);
      text, o, pieces := [], Delivered(0), [];
      StartOfChain(p);
      NoChain(plain, p);
      var k := 0;
      while k < |wants| && o.Delivered?
        invariant Valid() && fresh(ogg.Repr - old(ogg.Repr)) && 0 <= k <= |wants| && |pieces| <= k
        invariant text == Concat(pieces) && Chain(plain, p, pieces)
        invariant o.Delivered? ==> |pieces| == k && ogg.readOffset == End(p, pieces)
        invariant plain == Plaintext(box, RoundKeys(state[..], 10), remote)
      {
        ghost var before := streamLength;
        o := OvRead(dest, wants[k], batches[k]);
        if o.Delivered? {
          DeliveryIs(plain, End(p, pieces), o.n, before, dest[..]);
          ChainNext(plain, p, pieces, dest[..o.n]);
          text, pieces := text + dest[..o.n], pieces + [dest[..o.n]];
        }
        k := k + 1;
      }
      if pieces != [] && (|pieces| > 1 ==> From(p) + |pieces[0]| >= 4096) {
        ReadsJoin(plain, p, pieces);
      }
    }

    lemma DeliveryIs(plain: seq<Byte>, p: nat, n: nat, before: nat, dest: seq<Byte>)
      requires Delivery(plain, p, n, before, dest)
      ensures From(p) + n == ogg.readOffset <= |plain| && n <= |dest| && dest[..n] == plain[From(p)..From(p) + n]
    {
    }

    /** The part of player_ov_read that follows the download. */
    method Decode(dest: array<Byte>, want: nat, previous: nat) returns (o: Outcome)
      requires Valid() && want <= dest.Length && ogg.readOffset % 4096 == 0 && previous < 4096
      requires dest != counter && dest != keystream && dest !in ogg.Repr
      modifies this`streamLength, ogg`readOffset, counter, keystream, dest
      ensures Valid() && ogg.Contents() == old(ogg.Contents())
      ensures o == Expected(old(ogg.readOffset) + previous, RunLength(ogg.Contents(), old(ogg.readOffset)), want)
      ensures o.Delivered? ==>
                Delivery(Plaintext(box, old(RoundKeys(state[..], 10)), remote), old(ogg.readOffset) + previous, o.n,
                  old(streamLength), dest[..])
    {
      hide Consistent; hide RunLength; hide Ready; hide Grown; hide Rbuf.Contents; hide Rbuf.Valid; hide RoundKeys;
      hide Plaintext; hide Delivery; hide Expected;
      assert Valid() ==> ogg.Valid() && ogg.readOffset <= FILE_LIMIT;
      ghost var a, plain := ogg.readOffset, Plaintext(box, RoundKeys(state[..], 10), remote);
      var have := ogg.Length();
      ExpectedIs(ogg.readOffset, previous, have, want);
      if have < 1024 {
        return Ended;
      }
      var header := ogg.readOffset == 0;
      var n := if have > want then want else have;
      n := n - n % 1024;
      if n < 1024 {
        return Aborted;
      }
      Load(dest, n);
      o := Strip(dest, n, previous, header, a, plain);
    }

    /** Drop the bytes before the position asked for, and the header. */
    method Strip(dest: array<Byte>, n0: nat, previous: nat, header: bool, ghost a: nat, ghost plain: seq<Byte>)
      returns (o: Outcome)
      requires Valid() && n0 <= dest.Length && a + n0 == ogg.readOffset <= |plain| && dest[..n0] == plain[a..a + n0]
      requires a % 4096 == 0 && previous < 4096 && header == (a == 0) && dest !in ogg.Repr
      modifies this`streamLength, dest
      ensures o == if n0 < previous + Stripped(a + previous) then Overrun
              else Delivered(n0 - previous - Stripped(a + previous))
      ensures o.Delivered? ==> Delivery(plain, a + previous, o.n, old(streamLength), dest[..])
      ensures Valid() && ogg.Contents() == old(ogg.Contents())
    {
      hide StreamLength; hide Rbuf.Valid; hide Rbuf.Contents; hide Consistent; hide Ready;
      if previous > n0 {
        return Overrun;
      }
      Trim(dest, n0, previous);
      var n := n0 - previous;
      assert dest[..n] == plain[a + previous..a + previous + n];
      if header {
        if 167 > n {
          return Overrun;
        }
        HeaderParts(dest[..], plain, previous, n);
        streamLength := StreamLength(dest[0x24..0x28]);
        Trim(dest, n, 167);
        n := n - 167;
      }
      return Delivered(n);
    }

    /** memmove to the front. */
    static method Trim(dest: array<Byte>, n: nat, skip: nat)
      requires skip <= n <= dest.Length
      modifies dest
      ensures dest[..n - skip] == old(dest[..n])[skip..]
    {
      forall i | 0 <= i < n - skip {
        dest[i] := dest[skip + i];
      }
    }
  }

  lemma {:induction false} NothingSent(f: File, w: nat)
    ensures HasAll(f, w, w) && Sent([]) == 0 && forall size :: Reached(w, 0, size) == w
  {
  }

  lemma {:induction false} NoneSent(w: nat, size: nat)
    ensures SentIn([]) == 0 && Reached(w, 0, size) == w
  {
  }

  lemma {:induction false} ReachedMore(w: nat, m: nat, n: nat, size: nat)
    ensures Reached(Reached(w, m, size), n, size) == Reached(w, m + n, size)
  {
  }

  lemma {:induction false} PageIs(p: nat, w: nat)
    requires w % 4096 == 0 && w <= p < w + 4096
    ensures w == Page(p)
  {
  }

  lemma {:induction false} ExpectedIs(a: nat, previous: nat, have: nat, want: nat)
    requires a % 4096 == 0 && previous < 4096
    ensures have < 1024 ==> Expected(a + previous, have, want) == Ended
    ensures have >= 1024 ==>
              var m := if have > want then want else have;
              var n := m - m % 1024;
              Expected(a + previous, have, want) == if n < 1024 then Aborted
                else if n < previous + Stripped(a + previous) then Overrun
                                                    else Delivered(n - previous - Stripped(a + previous))
  {
    assert (a + previous) % 4096 == previous;
  }

  lemma {:induction false} HeaderParts(dest: seq<Byte>, plain: seq<Byte>, p: nat, n: nat)
    requires 167 <= n <= |dest| && p + n <= |plain| && dest[..n] == plain[p..p + n]
    ensures dest[0x24..0x28] == plain[p + 0x24..p + 0x28] && dest[..n][167..] == plain[p + 167..p + n]
  {
    assert dest[0x24..0x28] == dest[..n][0x24..0x28];
    SliceOfSlice(plain, p, n, 0x24, 0x28);
    SliceOfSlice(plain, p, n, 167, n);
  }

  lemma {:induction false} SliceOfSlice(s: seq<Byte>, p: nat, n: nat, i: nat, j: nat)
    requires i <= j <= n && p + n <= |s|
    ensures s[p..p + n][i..j] == s[p + i..p + j]
  {
    var x, y := s[p..p + n][i..j], s[p + i..p + j];
    forall k | 0 <= k < |x|
      ensures x[k] == y[k]
    {
    }
  }

  // ---------------------------------------------------------------- reads one after another

  /** Where reads that delivered `pieces`, starting at `p`, leave the reader. */
  function End(p: nat, pieces: seq<seq<Byte>>): nat {
    if pieces == [] then p else From(End(p, pieces[..|pieces| - 1])) + |pieces[|pieces| - 1]|
  }

  /** `pieces` are what successive reads from `p` on deliver of `plain`. */
  ghost predicate Chain(plain: seq<Byte>, p: nat, pieces: seq<seq<Byte>>) {
    pieces == [] ||
    var last := |pieces| - 1;
    var at := From(End(p, pieces[..last]));
    Chain(plain, p, pieces[..last]) && at + |pieces[last]| <= |plain| && pieces[last] == plain[at..at + |pieces[last]|]
  }

  lemma {:induction false} NoChain(plain: seq<Byte>, p: nat)
    ensures Chain(plain, p, [])
  {
  }

  /** One read more. */
  lemma {:induction false} ChainNext(plain: seq<Byte>, p: nat, pieces: seq<seq<Byte>>, piece: seq<Byte>)
    requires Chain(plain, p, pieces) && From(End(p, pieces)) + |piece| <= |plain|
    requires piece == plain[From(End(p, pieces))..From(End(p, pieces)) + |piece|]
    ensures Chain(plain, p, pieces + [piece]) && End(p, pieces + [piece]) == From(End(p, pieces)) + |piece|
    ensures Concat(pieces + [piece]) == Concat(pieces) + piece
  {
    assert (pieces + [piece])[..|pieces|] == pieces;
  }

  lemma {:induction false} SlicesMeet(s: seq<Byte>, i: nat, j: nat, k: nat)
    requires i <= j <= k <= |s|
    ensures s[i..j] + s[j..k] == s[i..k]
  {
  }

  /** Successive reads deliver the plaintext without loss or repetition, if none but the last ends in the first page. */
  lemma {:induction false} ReadsJoin(plain: seq<Byte>, p: nat, pieces: seq<seq<Byte>>)
    requires pieces != [] && Chain(plain, p, pieces)
    requires |pieces| > 1 ==> From(p) + |pieces[0]| >= 4096
    ensures End(p, pieces) == From(p) + |Concat(pieces)| <= |plain|
    ensures Concat(pieces) == plain[From(p)..End(p, pieces)]
  {
    var last := |pieces| - 1;
    var init := pieces[..last];
    var at := From(End(p, init));
    assert Chain(plain, p, init) && pieces[last] == plain[at..at + |pieces[last]|]
      && End(p, pieces) == at + |pieces[last]|;
    assert Concat(pieces) == Concat(init) + pieces[last];
    hide Chain; hide Concat; hide End;
    if last == 0 {
      assert init == [];
      StartOfChain(p);
    } else {
      ReadsJoin(plain, p, init);
      AtLeastFirst(init);
      assert at == End(p, init);
      SlicesMeet(plain, From(p), at, at + |pieces[last]|);
    }
  }

  /** Nothing is skipped between the pieces if and only if the first of several ends beyond the first page. */
  lemma {:induction false} NothingSkippedIff(p: nat, pieces: seq<seq<Byte>>)
    requires pieces != []
    ensures End(p, pieces) >= From(p) + |Concat(pieces)|
    ensures End(p, pieces) == From(p) + |Concat(pieces)| <==> |pieces| == 1 || From(p) + |pieces[0]| >= 4096
  {
    var last := |pieces| - 1;
    var init := pieces[..last];
    assert End(p, pieces) == From(End(p, init)) + |pieces[last]|;
    assert Concat(pieces) == Concat(init) + pieces[last];
    hide Concat; hide End;
    if last == 0 {
      assert init == [];
      StartOfChain(p);
    } else {
      NothingSkippedIff(p, init);
      AtLeastFirst(init);
      if last == 1 {
        OnePiece(init);
      }
    }
  }

  lemma {:induction false} OnePiece(pieces: seq<seq<Byte>>)
    requires |pieces| == 1
    ensures Concat(pieces) == pieces[0]
  {
    assert pieces[..0] == [] && Concat([]) == [];
  }

  lemma {:induction false} StartOfChain(p: nat)
    ensures End(p, []) == p && Concat([]) == []
  {
  }

  lemma {:induction false} AtLeastFirst(pieces: seq<seq<Byte>>)
    requires pieces != []
    ensures |Concat(pieces)| >= |pieces[0]|
  {
    if |pieces| > 1 {
      AtLeastFirst(pieces[..|pieces| - 1]);
    }
  }

  /** What two reads deliver of `plain` when the first one ends at `e`, in the first page. */
  lemma {:induction false} TwoPieces(plain: seq<Byte>, e: nat)
    requires 167 <= e < 4096 && e + 167 <= |plain|
    ensures var pieces := [plain[167..e], plain[e + 167..]];
            Chain(plain, 0, pieces) && End(0, pieces[..1]) == e && Concat(pieces) == plain[167..e] + plain[e + 167..]
  {
    var x, y := plain[167..e], plain[e + 167..];
    var pieces := [x, y];
    assert pieces[..1] == [x] && [x][..0] == [];
    assert End(0, []) == 0 && Chain(plain, 0, []) && Concat([]) == [];
    assert End(0, [x]) == e && Chain(plain, 0, [x]) && Concat([x]) == x;
  }

  /** Reads that end inside the first page do lose bytes: the next one strips a header again. Whatever the key, there
      is a file of whole kilobytes of which two reads deliver pieces that do not join. */
  lemma {:induction false} FirstPageLoses(box: Box, keys: seq<Block>, e: nat)
    returns (file: seq<Byte>, pieces: seq<seq<Byte>>)
    requires |keys| >= 2 && (e == 1024 || e == 2048 || e == 3072)
    ensures |file| == |Plaintext(box, keys, file)| == e + 1024
    ensures |pieces| == 2 && Chain(Plaintext(box, keys, file), 0, pieces)
    ensures Expected(0, |file|, e) == Delivered(|pieces[0]|)
    ensures End(0, pieces[..1]) == e && Expected(e, |file|, |file|) == Delivered(|pieces[1]|)
    ensures From(0) + |Concat(pieces)| <= e + 1024
    ensures Concat(pieces) != Plaintext(box, keys, file)[From(0)..From(0) + |Concat(pieces)|]
  {
    hide Plaintext;
    var plain := seq(e + 1024, i => if i == e then 1 else 0);
    file := AnyPlaintext(box, keys, plain);
    pieces := [plain[167..e], plain[e + 167..e + 1024]];
    TwoPieces(plain, e);
    hide Chain; hide Concat; hide End;
    assert plain[e + 167..] == plain[e + 167..e + 1024];
    assert Concat(pieces)[e - 167] == 0 && plain[167..167 + |Concat(pieces)|][e - 167] == 1;
  }

  /** The bytes dropped at the front of the file when reading from `p`. */
  function Stripped(p: nat): nat {
    if p < 4096 then 167 else 0
  }

  /** Where what a read at `p` delivers starts in the file. */
  function From(p: nat): nat {
    p + Stripped(p)
  }

  /** How a read at `p` ends, with `have` bytes present from the start of its page on. */
  function Expected(p: nat, have: nat, want: nat): (o: Outcome)
    ensures o != Blocked
  {
    var m := if have > want then want else have;
    var n := m - m % 1024;
    if have < 1024 then Ended
    else if want < 1024 then Aborted
    else if n < p % 4096 + Stripped(p) then Overrun
    else Delivered(n - p % 4096 - Stripped(p))
  }

  /** A little-endian int rounded down to a page, less the header, as a size_t. */
  function StreamLength(b: seq<Byte>): (n: nat)
    requires |b| == 4
    ensures n < SIZE_RANGE
  {
    var size := Int32(Value(b[0]) + 0x100 * Value(b[1]) + 0x1_0000 * Value(b[2]) +
      0x100_0000 * Value(b[3])) % SIZE_RANGE;
    (size - size % 4096 - 167) % SIZE_RANGE
  }

  /** A read in the first page starts 167 bytes behind its position, any other at it. */
  lemma {:induction false} FromIs(p: nat)
    ensures From(p) == if p < 4096 then p + 167 else p
  {
  }

  lemma {:induction false} LessHeader(n: nat)
    requires 4096 <= n < 0x8000_0000
    ensures Int32(n) % SIZE_RANGE == n && (n - n % 4096 - 167) % SIZE_RANGE == n - n % 4096 - 167
  {
    assert n - n % 4096 >= 4096;
  }

  /** The four bytes are an int in little-endian order. */
  lemma {:induction false} StreamLengthIs(n: nat)
    requires 4096 <= n < 0x8000_0000
    ensures n / 0x100_0000 < 0x100
    ensures StreamLength([ToByte(n % 0x100), ToByte(n / 0x100 % 0x100), ToByte(n / 0x1_0000 % 0x100),
                          ToByte(n / 0x100_0000)]) == n - n % 4096 - 167
  {
    hide ToByte; hide Value; hide Int32;
    BytesAddUp(n);
    ValueOfByte(n % 0x100);
    ValueOfByte(n / 0x100 % 0x100);
    ValueOfByte(n / 0x1_0000 % 0x100);
    ValueOfByte(n / 0x100_0000);
    LessHeader(n);
  }

  /** Counter mode at any kilobyte of the file gives that part of its one-pass decryption. */
  lemma {:induction false} PlainPiece(box: Box, keys: seq<Block>, file: seq<Byte>, a: nat, n: nat)
    requires |keys| >= 2 && a % 1024 == 0 && n % 1024 == 0 && a + n <= |file| <= FILE_LIMIT
    ensures a + n <= |Plaintext(box, keys, file)|
    ensures Plaintext(box, keys, file)[a..a + n] == Ctr(box, keys, Nonce() + a / 16, Deinterleave(file[a..a + n]))
  {
    hide Ctr; hide Deinterleave; hide Nonce; hide Plaintext;
    WholeBlocks(a, n);
    WholeKilobytes(a + n, |file|);
    NonceBound();
    RandomAccess(box, keys, file, a, n);
  }

  /** No run goes beyond the end of the file, or starts beyond it. */
  lemma {:induction false} RunInFile(f: File, at: nat, file: seq<Byte>)
    requires WellFormed(f) && Consistent(f, file)
    ensures RunLength(f, at) > 0 ==> at + RunLength(f, at) <= |file|
  {
    hide Has; hide At; hide RunLength;
    RunIsLongest(f, at);
    if RunLength(f, at) > 0 {
      assert Has(f, at + RunLength(f, at) - 1);
    }
  }

  lemma {:induction false} ReadyAtPage(f: File, w: nat)
    requires w % 4096 == 0
    ensures Ready(f, w)
  {
  }

  lemma {:induction false} NotShrunk(f: File)
    ensures Grown(f, f)
  {
  }

  lemma {:induction false} WriteNothing(f: File, g: File, w: nat, file: seq<Byte>)
    requires WellFormed(f) && Consistent(f, file) && Ready(f, w) && Wrote(f, g, w, [])
    ensures Consistent(g, file) && Grown(f, g) && Ready(g, w)
  {
    hide At; hide Wrote; hide Has;
    WroteSame(f, g, w);
    if w % CHUNK != 0 {
      ReadyHas(f, w);
      LastWritten(g, w - 1);
    }
  }

  lemma {:induction false} ReadyHas(f: File, w: nat)
    requires Ready(f, w) && w % CHUNK != 0
    ensures Has(f, w - 1)
  {
    SameRegion(w - 1, 1);
  }
}
