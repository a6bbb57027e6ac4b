/** The Shannon stream cipher and MAC (libopenspotify/shn.c). */
module Shannon {
  import opened Words

  const INITKONST: Word := 0x6996c53a

  // ---------------------------------------------------------------- reference machine

  type Reg = r: seq<Word> | |r| == 16 witness seq(16, _ => 0)

  /** The fields of `shn_ctx` as a value; `nbuf` counts the unused bits of the current key-stream word. */
  datatype RawState = RawState(R: Reg, CRC: Reg, initR: Reg, konst: Word, sbuf: Word, mbuf: Word, nbuf: int)

  /** States between two calls: a part word leaves 8, 16 or 24 bits. */
  type State = s: RawState | IsByteShift(s.nbuf)
    witness RawState(seq(16, _ => 0), seq(16, _ => 0), seq(16, _ => 0), 0, 0, 0, 0)

  /** `mbuf` is read only while a part word is pending: forget it otherwise. */
  function Live(s: State): State {
    if s.nbuf == 0 then s.(mbuf := 0) else s
  }

  datatype Mode = Encrypting | Decrypting

  /** What a run over some bytes leaves behind: the context and the bytes written. */
  datatype Result = Result(ctx: State, text: seq<Byte>)

  function Sbox1(w: Word): Word {
    var v := w ^ (w.RotateLeft(5) | w.RotateLeft(7));
    v ^ (v.RotateLeft(19) | v.RotateLeft(22))
  }

  function Sbox2(w: Word): Word {
    var v := w ^ (w.RotateLeft(7) | w.RotateLeft(22));
    v ^ (v.RotateLeft(5) | v.RotateLeft(19))
  }

  /** The nonlinear feedback word. */
  function Feedback(r0: Word, r12: Word, r13: Word, konst: Word): Word {
    Sbox1(r12 ^ r13 ^ konst) ^ r0.RotateLeft(1)
  }

  /** The word that a step adds to the lowest register and to the output. */
  function Tap(r2: Word, r15: Word): Word {
    Sbox2(r2 ^ r15)
  }

  /** One step of the register. */
  function Cycled(R: Reg, konst: Word): Reg {
    var shifted := R[1..] + [Feedback(R[0], R[12], R[13], konst)];
    shifted[0 := XorW(shifted[0], Tap(shifted[2], shifted[15]))]
  }

  /** The key-stream word read off a register that has just been stepped. */
  function KeyStream(R: Reg): Word {
    XorW(XorW(Tap(R[2], R[15]), R[8]), R[12])
  }

  function Diffused(R: Reg, konst: Word, n: nat): Reg {
    if n == 0 then R else Cycled(Diffused(R, konst, n - 1), konst)
  }

  function AddKey(R: Reg, k: Word): Reg {
    R[13 := XorW(R[13], k)]
  }

  function Crc(CRC: Reg, w: Word): Reg {
    CRC[1..] + [XorW(XorW(XorW(CRC[0], CRC[2]), CRC[15]), w)]
  }

  function XorReg(a: Reg, b: Reg): Reg {
    seq(16, i requires 0 <= i < 16 => XorW(a[i], b[i]))
  }

  /** Add words to the register one after the other, stepping it after each. */
  function Absorbed(R: Reg, konst: Word, ws: seq<Word>): Reg {
    if ws == [] then R
    else Cycled(AddKey(Absorbed(R, konst, ws[..|ws| - 1]), ws[|ws| - 1]), konst)
  }

  /** Byte `i` of a key, zero beyond its end. */
  function Padded(key: seq<Byte>, i: nat): Byte {
    if i < |key| then key[i] else 0
  }

  /** The first `n` words of the zero-padded key. */
  function KeyWords(key: seq<Byte>, n: nat): (ws: seq<Word>)
    ensures |ws| == n
  {
    seq(n, i requires 0 <= i < n =>
      Join(Padded(key, 4 * i), Padded(key, 4 * i + 1), Padded(key, 4 * i + 2), Padded(key, 4 * i + 3)))
  }

  function Length(key: seq<Byte>): Word
    requires |key| < 0x8000_0000
  {
    |key| as Word
  }

  /** The register after folding in a key: its words, zero padded, and then its length. */
  function Loaded(R: Reg, konst: Word, key: seq<Byte>): Reg
    requires |key| < 0x8000_0000
  {
    Absorbed(R, konst, KeyWords(key, (|key| + 3) / 4) + [Length(key)])
  }

  /** The state after keying register `R` with `key`; nothing but `R` and `key` matters. */
  function Keyed(R: Reg, initR: Reg, key: seq<Byte>): (s: State)
    requires |key| < 0x8000_0000
    ensures s.nbuf == 0 && Live(s) == s
  {
    var loaded := Loaded(R, INITKONST, key);
    var diffused := Diffused(loaded, INITKONST, 16);
    var reg := XorReg(diffused, loaded);
    RawState(reg, loaded, initR, reg[0], KeyStream(diffused), 0, 0)
  }

  function Plus(a: Word, b: Word): Word {
    a + b
  }

  function Fib(n: nat): Word {
    if n < 2 then 1 else Plus(Fib(n - 1), Fib(n - 2))
  }

  const FIBONACCI: Reg := seq(16, i requires 0 <= i < 16 => Fib(i))

  /** A fresh key-stream word for a context that has none left. */
  function Refilled(s: State): (c: RawState)
    ensures IsByteShift(32 - c.nbuf)
  {
    hide Cycled; hide KeyStream;
    if s.nbuf != 0 then s
    else var R := Cycled(s.R, s.konst); s.(R := R, sbuf := KeyStream(R), mbuf := 0, nbuf := 32)
  }

  function MacWord(s: RawState, w: Word): RawState {
    s.(R := AddKey(s.R, w), CRC := Crc(s.CRC, w))
  }

  /** Hand a complete MAC word over to the MAC. */
  function Completed(c: RawState): (s: State)
    requires IsByteShift(c.nbuf)
    ensures s.nbuf == c.nbuf && s.sbuf == c.sbuf && s.konst == c.konst && s.initR == c.initR
  {
    hide AddKey; hide Crc;
    if c.nbuf == 0 then MacWord(c, c.mbuf).(mbuf := 0) else c
  }

  /** Account for one plaintext byte. */
  function Advanced(c: RawState, plain: Byte): (d: RawState)
    requires IsByteShift(32 - c.nbuf)
    ensures d == c.(mbuf := d.mbuf, nbuf := c.nbuf - 8)
  {
    hide XorIntoLane;
    c.(mbuf := XorIntoLane(c.mbuf, plain, 32 - c.nbuf), nbuf := c.nbuf - 8)
  }

  /** One byte of a part word: mask it and account for the plaintext. */
  function PartStep(c: RawState, b: Byte, m: Mode): (d: (RawState, Byte))
    requires IsByteShift(32 - c.nbuf)
    ensures d.0 == c.(mbuf := d.0.mbuf, nbuf := c.nbuf - 8)
  {
    hide XorLane; hide Advanced;
    var out := XorLane(b, c.sbuf, 32 - c.nbuf);
    (Advanced(c, if m.Encrypting? then b else out), out)
  }

  /** The reference machine: one byte in, one byte out. The plaintext byte enters the MAC word. */
  function Step(s: State, b: Byte, m: Mode): (State, Byte) {
    hide Refilled; hide PartStep; hide Completed;
    var (c, out) := PartStep(Refilled(s), b, m);
    (Completed(c), out)
  }

  /** The reference machine on a sequence of bytes. */
  function Run(s: State, bytes: seq<Byte>, m: Mode): (r: Result)
    ensures |r.text| == |bytes|
  {
    if bytes == [] then Result(s, [])
    else
      var r := Run(s, bytes[..|bytes| - 1], m);
      var (c, b) := Step(r.ctx, bytes[|bytes| - 1], m);
      Result(c, r.text + [b])
  }

  function BitCount(nbuf: int): Word
    requires IsByteShift(nbuf)
  {
    if nbuf == 0 then 0 else if nbuf == 8 then 64 else if nbuf == 16 then 128 else 192
  }

  /** The register from which the MAC is read. */
  function Sealed(s: State): Reg {
    var c := if s.nbuf == 0 then s else MacWord(s, s.mbuf);
    Diffused(XorReg(AddKey(Cycled(c.R, c.konst), XorW(INITKONST, BitCount(s.nbuf))), c.CRC), c.konst, 16)
  }

  /** The first `n` MAC bytes. */
  function Mac(s: State, n: nat): (mac: seq<Byte>)
    ensures |mac| == n
  {
    seq(n, i requires 0 <= i < n => Lane(KeyStream(Diffused(Sealed(s), s.konst, i / 4 + 1)), 8 * (i % 4)))
  }

  // ---------------------------------------------------------------- properties

  /** Decrypting one byte that was encrypted from the same context restores it, and the contexts stay equal. */
  lemma {:induction false} StepInverse(s: State, b: Byte)
    ensures var (c, x) := Step(s, b, Encrypting); Step(s, x, Decrypting) == (c, b)
  {
    hide Refilled; hide XorLane; hide Advanced; hide Completed;
    var c := Refilled(s);
    XorLaneTwice(b, c.sbuf, 32 - c.nbuf);
  }

  /** shn_decrypt undoes shn_encrypt on every buffer and from every context; both ends stay in step. */
  lemma {:induction false} DecryptUndoesEncrypt(s: State, plain: seq<Byte>)
    ensures var e := Run(s, plain, Encrypting); Run(s, e.text, Decrypting) == Result(e.ctx, plain)
  {
    hide Step;
    if plain != [] {
      var n := |plain| - 1;
      var e := Run(s, plain[..n], Encrypting);
      DecryptUndoesEncrypt(s, plain[..n]);
      StepInverse(e.ctx, plain[n]);
      assert Run(s, plain, Encrypting).text[..n] == e.text;
      assert plain[..n] + [plain[n]] == plain;
    }
  }

  lemma {:induction false} RunLast(s: State, bytes: seq<Byte>, b: Byte, m: Mode)
    ensures var r := Run(s, bytes, m); var (c, out) := Step(r.ctx, b, m);
            Run(s, bytes + [b], m) == Result(c, r.text + [out])
  {
    hide Step;
    assert (bytes + [b])[..|bytes|] == bytes;
  }

  /** Splitting a buffer anywhere changes neither the bytes nor the context. */
  lemma {:induction false} RunInPieces(s: State, a: seq<Byte>, b: seq<Byte>, m: Mode)
    ensures var r := Run(s, a, m); var q := Run(r.ctx, b, m);
            Run(s, a + b, m) == Result(q.ctx, r.text + q.text)
  {
    hide Step; hide Run;
    var r := Run(s, a, m);
    if b == [] {
      RunNone(r.ctx, m);
      assert a + b == a;
      assert r.text + [] == r.text;
    } else {
      var n := |b| - 1;
      RunInPieces(s, a, b[..n], m);
      assert a + b == (a + b[..n]) + [b[n]] && b == b[..n] + [b[n]];
      RunLast(s, a + b[..n], b[n], m);
      RunLast(r.ctx, b[..n], b[n], m);
    }
  }

  /** The contexts and bytes of successive calls, one for each piece. */
  function RunPieces(s: State, pieces: seq<seq<Byte>>, m: Mode): Result {
    if pieces == [] then Result(s, [])
    else
      var r := RunPieces(s, pieces[..|pieces| - 1], m);
      var q := Run(r.ctx, pieces[|pieces| - 1], m);
      Result(q.ctx, r.text + q.text)
  }

  /** Any division of a buffer into successive calls is equivalent to one call, from every context. */
  lemma {:induction false} RunChunked(s: State, pieces: seq<seq<Byte>>, m: Mode)
    ensures RunPieces(s, pieces, m) == Run(s, Concat(pieces), m)
  {
    if pieces != [] {
      var n := |pieces| - 1;
      RunChunked(s, pieces[..n], m);
      RunInPieces(s, Concat(pieces[..n]), pieces[n], m);
    }
  }

  /** Sender and receiver that start level compute the same MAC, however each divides the buffer. */
  lemma {:induction false} MacsAgree(s: State, sent: seq<seq<Byte>>, received: seq<seq<Byte>>, n: nat)
    requires Concat(received) == RunPieces(s, sent, Encrypting).text
    ensures RunPieces(s, received, Decrypting).text == Concat(sent)
    ensures Mac(RunPieces(s, received, Decrypting).ctx, n) == Mac(RunPieces(s, sent, Encrypting).ctx, n)
  {
    RunChunked(s, sent, Encrypting);
    RunChunked(s, received, Decrypting);
    DecryptUndoesEncrypt(s, Concat(sent));
  }

  // ---------------------------------------------------------------- word-wise form of the reference machine

  function WordAt(b: seq<Byte>, i: nat): Word
    requires i + 4 <= |b|
  {
    Join(b[i], b[i + 1], b[i + 2], b[i + 3])
  }

  function WordBytes(w: Word): (b: seq<Byte>)
    ensures |b| == 4
  {
    hide Lane;
    [Lane(w, 0), Lane(w, 8), Lane(w, 16), Lane(w, 24)]
  }

  /** The plaintext word: what the MAC accumulates. */
  function PlainWord(w: Word, k: Word, m: Mode): Word {
    if m.Encrypting? then w else XorW(w, k)
  }

  /** Xor-ing a word with the key stream is xor-ing its bytes. */
  lemma {:induction false} XorWord(b0: Byte, b1: Byte, b2: Byte, b3: Byte, k: Word)
    ensures var w := XorW(Join(b0, b1, b2, b3), k);
            Lane(w, 0) == XorLane(b0, k, 0) && Lane(w, 8) == XorLane(b1, k, 8)
            && Lane(w, 16) == XorLane(b2, k, 16) && Lane(w, 24) == XorLane(b3, k, 24)
  {
    hide Lane; hide Join; hide XorLane;
    LaneOfJoinXor(b0, b1, b2, b3, k, 0);
    LaneOfJoinXor(b0, b1, b2, b3, k, 8);
    LaneOfJoinXor(b0, b1, b2, b3, k, 16);
    LaneOfJoinXor(b0, b1, b2, b3, k, 24);
  }

  /** Four accounted bytes complete one MAC word. */
  lemma {:induction false} FourAdvances(c: RawState, p0: Byte, p1: Byte, p2: Byte, p3: Byte)
    requires c.nbuf == 32 && c.mbuf == 0
    ensures Completed(Advanced(Advanced(Advanced(Advanced(c, p0), p1), p2), p3))
            == MacWord(c, Join(p0, p1, p2, p3)).(mbuf := 0, nbuf := 0)
  {
    hide XorIntoLane; hide Join; hide AddKey; hide Crc;
    JoinByXor(p0, p1, p2, p3);
  }

  lemma {:induction false} RunFour(s: State, b: seq<Byte>, m: Mode)
    requires |b| == 4
    ensures var (s1, o0) := Step(s, b[0], m); var (s2, o1) := Step(s1, b[1], m);
            var (s3, o2) := Step(s2, b[2], m); var (s4, o3) := Step(s3, b[3], m);
            Run(s, b, m) == Result(s4, [o0, o1, o2, o3])
  {
    hide Step;
    assert b[..1][..0] == [] && b[..2][..1] == b[..1] && b[..3][..2] == b[..2];
    var (s1, o0) := Step(s, b[0], m);
    var (s2, o1) := Step(s1, b[1], m);
    var (s3, o2) := Step(s2, b[2], m);
    assert Run(s, b[..1], m) == Result(s1, [o0]);
    assert Run(s, b[..2], m) == Result(s2, [o0, o1]);
    assert Run(s, b[..3], m) == Result(s3, [o0, o1, o2]);
  }

  function XorBytes(b: seq<Byte>, k: Word): seq<Byte>
    requires |b| == 4
  {
    [XorLane(b[0], k, 0), XorLane(b[1], k, 8), XorLane(b[2], k, 16), XorLane(b[3], k, 24)]
  }

  lemma {:induction false} WordText(b: seq<Byte>, k: Word, m: Mode)
    requires |b| == 4
    ensures WordBytes(XorW(WordAt(b, 0), k)) == XorBytes(b, k)
    ensures var p := if m.Encrypting? then b else XorBytes(b, k);
            Join(p[0], p[1], p[2], p[3]) == PlainWord(WordAt(b, 0), k, m)
  {
    hide Lane; hide XorLane; hide Join;
    if m.Decrypting? {
      JoinOfLanes(XorW(WordAt(b, 0), k));
    }
    XorWord(b[0], b[1], b[2], b[3], k);
  }

  lemma {:induction false} FourSteps(s: State, b: seq<Byte>, m: Mode)
    requires |b| == 4 && s.nbuf == 0
    ensures var c := Refilled(s); var o := XorBytes(b, c.sbuf); var p := if m.Encrypting? then b else o;
            Run(s, b, m) == Result(MacWord(c, Join(p[0], p[1], p[2], p[3])).(mbuf := 0, nbuf := 0), o)
  {
    hide Cycled; hide KeyStream; hide XorLane; hide Join; hide Advanced; hide MacWord; hide Run;
    var c := Refilled(s);
    var o := XorBytes(b, c.sbuf);
    var p := if m.Encrypting? then b else o;
    FourAdvances(c, p[0], p[1], p[2], p[3]);
    var s1 := Advanced(c, p[0]);
    var s2 := Advanced(s1, p[1]);
    var s3 := Advanced(s2, p[2]);
    assert Step(s, b[0], m) == (s1, o[0]);
    assert Step(s1, b[1], m) == (s2, o[1]);
    assert Step(s2, b[2], m) == (s3, o[2]);
    assert Step(s3, b[3], m) == (Completed(Advanced(s3, p[3])), o[3]);
    hide Step;
    RunFour(s, b, m);
  }

  /** A whole word at once is the same as its four bytes one at a time. */
  lemma {:induction false} WordStep(s: State, b: seq<Byte>, m: Mode)
    requires |b| == 4 && s.nbuf == 0
    ensures var c := Refilled(s); var w := WordAt(b, 0);
            Run(s, b, m) == Result(MacWord(c, PlainWord(w, c.sbuf, m)).(mbuf := 0, nbuf := 0),
              WordBytes(XorW(w, c.sbuf)))
  {
    hide Refilled; hide Step; hide XorLane; hide Lane; hide Join; hide MacWord; hide Run;
    hide PlainWord; hide WordAt; hide WordBytes; hide XorBytes;
    FourSteps(s, b, m);
    WordText(b, Refilled(s).sbuf, m);
  }

  // ---------------------------------------------------------------- the context and its operations

  /** `shn_ctx`. */
  class ShnCtx {
    const R: array<Word>
    const CRC: array<Word>
    const initR: array<Word>
    var konst: Word
    var sbuf: Word
    var mbuf: Word
    var nbuf: int

    ghost predicate Valid() {
      R.Length == 16 && CRC.Length == 16 && initR.Length == 16 && R != CRC && R != initR && CRC != initR
    }

    /** The context between two calls of the published interface. */
    ghost predicate Ready()
      reads this
    {
      Valid() && IsByteShift(nbuf)
    }

    ghost function View(): RawState
      requires Valid()
      reads this, R, CRC, initR
    {
      RawState(R[..], CRC[..], initR[..], konst, sbuf, mbuf, nbuf)
    }

    /** What later calls can observe of the context. */
    ghost function State(): State
      requires Ready()
      reads this, R, CRC, initR
    {
      Live(View())
    }

    constructor ()
      ensures Valid() && fresh(R) && fresh(CRC) && fresh(initR)
    {
      R, CRC, initR := new Word[16], new Word[16], new Word[16];
    }

    method Cycle()
      requires Valid()
      modifies this`sbuf, R
      ensures R[..] == Cycled(old(R[..]), konst) && sbuf == KeyStream(R[..])
    {
      hide Feedback; hide Tap; hide XorW;
      var t := Feedback(R[0], R[12], R[13], konst);
      ShiftIn(R, t);
      t := Tap(R[2], R[15]);
      R[0] := XorW(R[0], t);
      sbuf := XorW(XorW(t, R[8]), R[12]);
    }

    method CrcFunc(w: Word)
      requires Valid()
      modifies CRC
      ensures CRC[..] == Crc(old(CRC[..]), w)
    {
      hide XorW;
      var t := XorW(XorW(XorW(CRC[0], CRC[2]), CRC[15]), w);
      ShiftIn(CRC, t);
    }

    method MacFunc(w: Word)
      requires Valid()
      modifies R, CRC
      ensures R[..] == AddKey(old(R[..]), w) && CRC[..] == Crc(old(CRC[..]), w)
    {
      hide XorW; hide Crc;
      CrcFunc(w);
      R[13] := XorW(R[13], w);
    }

    method InitState()
      requires Valid()
      modifies this`konst, R
      ensures R[..] == FIBONACCI && konst == INITKONST
    {
      hide Plus;
      R[0] := 1;
      R[1] := 1;
      for i := 2 to 16
        invariant forall k :: 0 <= k < i ==> R[k] == Fib(k)
      {
        R[i] := Plus(R[i - 1], R[i - 2]);
      }
      konst := INITKONST;
    }

    method SaveState()
      requires Valid()
      modifies initR
      ensures initR[..] == R[..]
    {
      for i := 0 to 16
        invariant forall k :: 0 <= k < i ==> initR[k] == R[k]
      {
        initR[i] := R[i];
      }
    }

    method ReloadState()
      requires Valid()
      modifies R
      ensures R[..] == initR[..]
    {
      for i := 0 to 16
        invariant forall k :: 0 <= k < i ==> R[k] == initR[k]
      {
        R[i] := initR[i];
      }
    }

    method Diffuse()
      requires Valid()
      modifies this`sbuf, R
      ensures R[..] == Diffused(old(R[..]), konst, 16) && sbuf == KeyStream(R[..])
    {
      hide Cycled; hide KeyStream;
      for i := 0 to 16
        invariant R[..] == Diffused(old(R[..]), konst, i)
        invariant i > 0 ==> sbuf == KeyStream(R[..])
      {
        Cycle();
      }
    }

    /** ADDKEY followed by one step. */
    method Absorb(w: Word)
      requires Valid()
      modifies this`sbuf, R
      ensures R[..] == Cycled(AddKey(old(R[..]), w), konst)
    {
      hide Cycled; hide KeyStream; hide XorW;
      R[13] := XorW(R[13], w);
      Cycle();
    }

    /** The part of `shn_loadkey` that folds in the key and its length. */
    method AbsorbKey(key: array<Byte>)
      requires Valid() && key.Length < 0x8000_0000
      modifies this`sbuf, R
      ensures R[..] == Loaded(old(R[..]), konst, key[..])
    {
      hide Cycled; hide KeyStream; hide XorW; hide Join; hide Length; hide Absorbed; hide KeyWords; hide Loaded;
      AbsorbedNone(R[..], konst, key[..]);
      ghost var R0, bytes := R[..], key[..];
      var whole, i := key.Length - key.Length % 4, 0;
      ghost var n := 0;
      while i < whole
        invariant i == 4 * n <= whole
        invariant R[..] == Absorbed(R0, konst, KeyWords(bytes, n))
      {
        AbsorbedMore(R0, konst, bytes, n);
        Absorb(Join(key[i], key[i + 1], key[i + 2], key[i + 3]));
        i, n := i + 4, n + 1;
      }
      if i < key.Length {
        var xtra := new Byte[4];
        var j := 0;
        while i < key.Length
          invariant whole <= i <= key.Length && j == i - whole
          invariant forall k :: 0 <= k < j ==> xtra[k] == bytes[whole + k]
          invariant R[..] == Absorbed(R0, konst, KeyWords(bytes, n))
        {
          xtra[j] := key[i];
          i, j := i + 1, j + 1;
        }
        while j < 4
          invariant key.Length - whole <= j <= 4
          invariant forall k :: 0 <= k < j ==> xtra[k] == Padded(bytes, whole + k)
          invariant R[..] == Absorbed(R0, konst, KeyWords(bytes, n))
        {
          xtra[j] := 0;
          j := j + 1;
        }
        AbsorbedMore(R0, konst, bytes, n);
        Absorb(Join(xtra[0], xtra[1], xtra[2], xtra[3]));
        n := n + 1;
      }
      assert n == (|bytes| + 3) / 4;
      assert key[..] == bytes;
      LoadedLast(R0, konst, bytes);
      Absorb(Length(key[..]));
    }

    method LoadKey(key: array<Byte>)
      requires Valid() && key.Length < 0x8000_0000
      modifies this`sbuf, R, CRC
      ensures var loaded := Loaded(old(R[..]), konst, key[..]); var diffused := Diffused(loaded, konst, 16);
              R[..] == XorReg(diffused, loaded) && CRC[..] == loaded && sbuf == KeyStream(diffused)
    {
      hide Loaded; hide Diffused; hide KeyStream; hide XorW;
      AbsorbKey(key);
      for k := 0 to 16
        invariant forall q :: 0 <= q < k ==> CRC[q] == R[q]
        invariant R[..] == Loaded(old(R[..]), konst, key[..])
      {
        CRC[k] := R[k];
      }
      ghost var loaded := R[..];
      assert CRC[..] == loaded;
      Diffuse();
      ghost var diffused := R[..];
      for k := 0 to 16
        invariant forall q :: 0 <= q < k ==> R[q] == XorW(diffused[q], loaded[q])
        invariant forall q :: k <= q < 16 ==> R[q] == diffused[q]
        invariant CRC[..] == loaded && sbuf == KeyStream(diffused)
      {
        R[k] := XorW(R[k], CRC[k]);
      }
    }

    method Key(key: array<Byte>)
      requires Valid() && key.Length < 0x8000_0000
      modifies this`konst, this`sbuf, this`nbuf, R, CRC, initR
      ensures Ready() && State() == Keyed(FIBONACCI, R[..], key[..])
    {
      hide Loaded; hide Diffused; hide XorReg; hide KeyStream;
      InitState();
      LoadKey(key);
      konst := R[0];
      SaveState();
      nbuf := 0;
    }

    /** Whatever the context held before, only the saved register and the nonce matter. */
    method Nonce(nonce: array<Byte>)
      requires Valid() && nonce.Length < 0x8000_0000
      modifies this`konst, this`sbuf, this`nbuf, R, CRC
      ensures Ready() && State() == Keyed(initR[..], initR[..], nonce[..])
    {
      hide Loaded; hide Diffused; hide XorReg; hide KeyStream;
      ReloadState();
      konst := INITKONST;
      LoadKey(nonce);
      konst := R[0];
      nbuf := 0;
    }

    /** Mask the byte at `at` with the pending key stream and account for it: the body of the part-word loops. */
    method ProcessByte(buf: array<Byte>, at: nat, m: Mode)
      requires Valid() && IsByteShift(32 - nbuf) && at < buf.Length
      modifies this`mbuf, this`nbuf, buf
      ensures var (c, out) := PartStep(old(View()), old(buf[at]), m);
              View() == c && buf[..] == old(buf[..])[at := out]
    {
      hide XorIntoLane; hide XorLane;
      if m.Encrypting? {
        mbuf := XorIntoLane(mbuf, buf[at], 32 - nbuf);
        buf[at] := XorLane(buf[at], sbuf, 32 - nbuf);
      } else {
        buf[at] := XorLane(buf[at], sbuf, 32 - nbuf);
        mbuf := XorIntoLane(mbuf, buf[at], 32 - nbuf);
      }
      nbuf := nbuf - 8;
    }

    /** A part-word loop: mask bytes until the pending key stream or the buffer runs out. */
    method ProcessPart(buf: array<Byte>, from: nat, stop: nat, m: Mode) returns (at: nat)
      requires Valid() && IsByteShift(32 - nbuf) && from <= stop <= buf.Length
      modifies this`mbuf, this`nbuf, buf
      ensures from <= at <= stop && old(nbuf) == nbuf + 8 * (at - from) && 0 <= nbuf && (nbuf == 0 || at == stop)
      ensures var r := PartRun(old(View()), old(buf[from..at]), m);
              View() == r.ctx && Patched(old(buf[..]), buf[..], from, at, r.text)
    {
      hide PartStep; hide PartRun; hide Patched;
      at := from;
      ghost var c, before := View(), buf[..];
      PartRunNone(c, m);
      PatchedNone(before, from);
      assert before[from..from] == [];
      while nbuf != 0 && at < stop
        invariant from <= at <= stop && c.nbuf == nbuf + 8 * (at - from) && 0 <= nbuf && IsByteShift(32 - c.nbuf)
        invariant var r := PartRun(c, before[from..at], m);
                  View() == r.ctx && Patched(before, buf[..], from, at, r.text)
      {
        PartRunLast(c, before[from..at], before[at], m);
        ghost var r := PartRun(c, before[from..at], m);
        PatchedOne(before, buf[..], from, at, r.text, PartStep(r.ctx, before[at], m).1);
        assert before[from..at] + [before[at]] == before[from..at + 1];
        ProcessByte(buf, at, m);
        at := at + 1;
      }
    }

    /** The body of the whole-word loop. */
    method ProcessWord(buf: array<Byte>, at: nat, m: Mode)
      requires Ready() && nbuf == 0 && at + 4 <= buf.Length
      modifies this`sbuf, R, CRC, buf
      ensures Ran(old(State()), old(buf[..]), at, at + 4, m, State(), buf[..])
    {
      hide Run; hide Cycled; hide KeyStream; hide Lane; hide Join; hide AddKey; hide Crc; hide XorW; hide Patched;
      WordStep(State(), buf[at..at + 4], m);
      Cycle();
      var t := Join(buf[at], buf[at + 1], buf[at + 2], buf[at + 3]);
      if m.Encrypting? {
        MacFunc(t);
        t := XorW(t, sbuf);
      } else {
        t := XorW(t, sbuf);
        MacFunc(t);
      }
      WriteWord(buf, at, t);
    }

    /** The bytes that finish the part word a previous call left. */
    method ProcessBuffered(buf: array<Byte>, from: nat, stop: nat, m: Mode) returns (at: nat)
      requires Ready() && nbuf != 0 && from <= stop <= buf.Length
      modifies this`mbuf, this`nbuf, R, CRC, buf
      ensures Ready() && from <= at <= stop && (nbuf != 0 ==> at == stop)
      ensures Ran(old(State()), old(buf[..]), from, at, m, State(), buf[..])
    {
      hide Run; hide PartRun; hide Patched; hide AddKey; hide Crc;
      ghost var s, before := State(), buf[..];
      RunNone(s, m);
      PartRunNone(s, m);
      at := ProcessPart(buf, from, stop, m);
      if at > from {
        PartIsRun(s, before[from..at], m);
      } else {
        assert before[from..at] == [];
      }
      if nbuf == 0 {
        MacFunc(mbuf);
      }
    }

    /** The loop over whole words. */
    method ProcessWords(buf: array<Byte>, from: nat, endbuf: nat, m: Mode)
      requires Ready() && nbuf == 0 && from <= endbuf <= buf.Length && (endbuf - from) % 4 == 0
      modifies this`sbuf, R, CRC, buf
      ensures Ran(old(State()), old(buf[..]), from, endbuf, m, State(), buf[..])
    {
      hide Ran;
      ghost var s, before := State(), buf[..];
      RanNone(s, before, from, m);
      var at := from;
      while at < endbuf
        invariant from <= at <= endbuf && (endbuf - at) % 4 == 0
        invariant Ran(s, before, from, at, m, State(), buf[..])
      {
        ghost var t, mid := State(), buf[..];
        ProcessWord(buf, at, m);
        RanThen(s, before, from, at, m, t, mid, at + 4, State(), buf[..]);
        at := at + 4;
      }
    }

    /** What is left after the last whole word. */
    method ProcessTrailing(buf: array<Byte>, from: nat, stop: nat, m: Mode)
      requires Ready() && nbuf == 0 && from < stop < from + 4 && stop <= buf.Length
      modifies this`sbuf, this`mbuf, this`nbuf, R, buf
      ensures Ready() && Ran(old(State()), old(buf[..]), from, stop, m, State(), buf[..])
    {
      hide Run; hide PartRun; hide Patched; hide Cycled; hide KeyStream;
      PartIsRun(State(), buf[from..stop], m);
      Cycle();
      mbuf := 0;
      nbuf := 32;
      var at := ProcessPart(buf, from, stop, m);
    }

    /** The common course of `shn_encrypt` and `shn_decrypt`, which differ only in the bodies of their loops. */
    method Process(buf: array<Byte>, start: nat, nbytes: nat, m: Mode)
      requires Ready() && start + nbytes <= buf.Length
      modifies this`sbuf, this`mbuf, this`nbuf, R, CRC, buf
      ensures Ready() && Ran(old(State()), old(buf[..]), start, start + nbytes, m, State(), buf[..])
    {
      hide Ran; hide Live;
      var at, stop := start, start + nbytes;
      ghost var s, before := State(), buf[..];
      RanNone(s, before, start, m);
      if nbuf != 0 {
        at := ProcessBuffered(buf, start, stop, m);
        if nbuf != 0 {
          return;
        }
      }
      ghost var t, mid := State(), buf[..];
      var endbuf := stop - (stop - at) % 4;
      ProcessWords(buf, at, endbuf, m);
      RanThen(s, before, start, at, m, t, mid, endbuf, State(), buf[..]);
      if endbuf != stop {
        t, mid := State(), buf[..];
        ProcessTrailing(buf, endbuf, stop, m);
        RanThen(s, before, start, endbuf, m, t, mid, stop, State(), buf[..]);
      }
    }

    method Encrypt(buf: array<Byte>, start: nat, nbytes: nat)
      requires Ready() && start + nbytes <= buf.Length
      modifies this`sbuf, this`mbuf, this`nbuf, R, CRC, buf
      ensures Ready() && Ran(old(State()), old(buf[..]), start, start + nbytes, Encrypting, State(), buf[..])
    {
      Process(buf, start, nbytes, Encrypting);
    }

    method Decrypt(buf: array<Byte>, start: nat, nbytes: nat)
      requires Ready() && start + nbytes <= buf.Length
      modifies this`sbuf, this`mbuf, this`nbuf, R, CRC, buf
      ensures Ready() && Ran(old(State()), old(buf[..]), start, start + nbytes, Decrypting, State(), buf[..])
    {
      Process(buf, start, nbytes, Decrypting);
    }

    /** Mark the end of the input and mix the CRC into the register. */
    method Seal()
      requires Ready()
      modifies this`sbuf, this`nbuf, R, CRC
      ensures R[..] == Sealed(old(State()))
    {
      hide Cycled; hide KeyStream; hide Crc; hide XorW; hide Diffused; hide BitCount;
      if nbuf != 0 {
        MacFunc(mbuf);
      }
      Cycle();
      R[13] := XorW(R[13], XorW(INITKONST, BitCount(nbuf)));
      nbuf := 0;
      ghost var sum := R[..];
      for i := 0 to 16
        invariant forall k :: 0 <= k < i ==> R[k] == XorW(sum[k], CRC[k])
        invariant forall k :: i <= k < 16 ==> R[k] == sum[k]
        invariant CRC[..] == (if old(nbuf) == 0 then old(CRC[..]) else Crc(old(CRC[..]), mbuf))
      {
        R[i] := XorW(R[i], CRC[i]);
      }
      assert R[..] == XorReg(sum, CRC[..]);
      Diffuse();
    }

    /** Write the MAC of everything the context has seen. */
    method Finish(buf: array<Byte>, start: nat, nbytes: nat)
      requires Ready() && start + nbytes <= buf.Length
      modifies this`sbuf, this`nbuf, R, CRC, buf
      ensures Patched(old(buf[..]), buf[..], start, start + nbytes, Mac(old(State()), nbytes))
    {
      hide Cycled; hide KeyStream; hide Lane; hide Sealed; hide Patched; hide Mac; hide WordBytes;
      ghost var s, before, n := State(), buf[..], 0;
      Seal();
      var at, left := start, nbytes;
      MacNone(s);
      PatchedNone(before, start);
      while left > 0
        invariant 0 <= left && at + left == start + nbytes && at == start + 4 * n
        invariant R[..] == Diffused(Sealed(s), konst, n)
        invariant Patched(before, buf[..], start, at, Mac(s, 4 * n))
      {
        ghost var mid := buf[..];
        Cycle();
        if left >= 4 {
          WriteWord(buf, at, sbuf);
          assert WordBytes(sbuf)[..4] == WordBytes(sbuf);
          MacPatched(s, before, mid, buf[..], start, n, 4);
          at, left, n := at + 4, left - 4, n + 1;
        } else {
          WriteBytes(buf, at, sbuf, left);
          MacPatched(s, before, mid, buf[..], start, n, left);
          break;
        }
      }
    }
  }

  lemma {:induction false} WordByte(w: Word, i: nat)
    requires i < 4
    ensures IsByteShift(8 * i) && WordBytes(w)[i] == Lane(w, 8 * i)
  {
    hide Lane;
  }

  /** The first `count` bytes of a word. */
  method WriteBytes(buf: array<Byte>, at: nat, w: Word, count: nat)
    requires at + count <= buf.Length && count <= 4
    modifies buf
    ensures Patched(old(buf[..]), buf[..], at, at + count, WordBytes(w)[..count])
  {
    hide Lane; hide Patched; hide WordBytes;
    PatchedNone(buf[..], at);
    assert WordBytes(w)[..0] == [];
    for i := 0 to count
      invariant Patched(old(buf[..]), buf[..], at, at + i, WordBytes(w)[..i])
    {
      PatchedOne(old(buf[..]), buf[..], at, at + i, WordBytes(w)[..i], Lane(w, 8 * i));
      WordByte(w, i);
      assert WordBytes(w)[..i] + [Lane(w, 8 * i)] == WordBytes(w)[..i + 1];
      buf[at + i] := Lane(w, 8 * i);
    }
  }

  /** WORD2BYTE. */
  method WriteWord(buf: array<Byte>, at: nat, w: Word)
    requires at + 4 <= buf.Length
    modifies buf
    ensures Patched(old(buf[..]), buf[..], at, at + 4, WordBytes(w))
  {
    hide Lane;
    buf[at + 3] := Lane(w, 24);
    buf[at + 2] := Lane(w, 16);
    buf[at + 1] := Lane(w, 8);
    buf[at] := Lane(w, 0);
  }

  /** Move every word down by one and put `t` on top; the loop of `cycle` and of `crcfunc`. */
  method ShiftIn(a: array<Word>, t: Word)
    requires a.Length == 16
    modifies a
    ensures a[..] == old(a[..])[1..] + [t]
  {
    for i := 1 to 16
      invariant forall k :: 0 <= k < i - 1 ==> a[k] == old(a[k + 1])
      invariant forall k :: i - 1 <= k < 16 ==> a[k] == old(a[k])
    {
      a[i - 1] := a[i];
    }
    a[15] := t;
  }

  lemma {:induction false} AbsorbedLast(R: Reg, konst: Word, ws: seq<Word>, w: Word)
    ensures Absorbed(R, konst, ws + [w]) == Cycled(AddKey(Absorbed(R, konst, ws), w), konst)
  {
    hide Cycled; hide AddKey;
    assert (ws + [w])[..|ws|] == ws;
  }

  lemma {:induction false} AbsorbedNone(R: Reg, konst: Word, key: seq<Byte>)
    ensures Absorbed(R, konst, KeyWords(key, 0)) == R
  {
  }

  lemma {:induction false} AbsorbedMore(R: Reg, konst: Word, key: seq<Byte>, n: nat)
    ensures Absorbed(R, konst, KeyWords(key, n + 1))
            == Cycled(AddKey(Absorbed(R, konst, KeyWords(key, n)),
                 Join(Padded(key, 4 * n), Padded(key, 4 * n + 1), Padded(key, 4 * n + 2), Padded(key, 4 * n + 3))),
                   konst)
  {
    hide Cycled; hide AddKey; hide Join;
    var ws := KeyWords(key, n + 1);
    assert ws[..n] == KeyWords(key, n);
    AbsorbedLast(R, konst, ws[..n], ws[n]);
    assert ws[..n] + [ws[n]] == ws;
  }

  lemma {:induction false} LoadedLast(R: Reg, konst: Word, key: seq<Byte>)
    requires |key| < 0x8000_0000
    ensures Loaded(R, konst, key)
            == Cycled(AddKey(Absorbed(R, konst, KeyWords(key, (|key| + 3) / 4)), Length(key)), konst)
  {
    hide Cycled; hide AddKey; hide Length; hide KeyWords;
    AbsorbedLast(R, konst, KeyWords(key, (|key| + 3) / 4), Length(key));
  }

  lemma {:induction false} RunNone(s: State, m: Mode)
    ensures Run(s, [], m) == Result(s, [])
  {
    hide Step;
  }

  /** From `s` to `t` the context ran over the bytes from `from` to `at`, and wrote its output over them. */
  ghost predicate Ran(s: State, before: seq<Byte>, from: nat, at: nat, m: Mode, t: State, after: seq<Byte>) {
    from <= at <= |before| &&
    var r := Run(s, before[from..at], m); t == r.ctx && Patched(before, after, from, at, r.text)
  }

  lemma {:induction false} RanNone(s: State, before: seq<Byte>, from: nat, m: Mode)
    requires from <= |before|
    ensures Ran(s, before, from, from, m, s, before)
  {
    hide Step;
    assert before[from..from] == [];
  }

  lemma {:induction false} RanParts(s: State, before: seq<Byte>, from: nat, to: nat, m: Mode, t: State,
                                    after: seq<Byte>)
    requires Ran(s, before, from, to, m, t, after)
    ensures |after| == |before| && from <= to <= |before|
    ensures Run(s, before[from..to], m) == Result(t, after[from..to])
    ensures after[..from] == before[..from] && after[to..] == before[to..]
  {
    hide Run;
  }

  lemma {:induction false} RanThen(s: State, before: seq<Byte>, from: nat, at: nat, m: Mode, t: State, mid: seq<Byte>,
                                   to: nat, u: State, after: seq<Byte>)
    requires Ran(s, before, from, at, m, t, mid) && Ran(t, mid, at, to, m, u, after)
    ensures Ran(s, before, from, to, m, u, after)
  {
    hide Run; hide Patched;
    PatchedMore(before, mid, after, from, at, to, Run(s, before[from..at], m).text, Run(t, mid[at..to], m).text);
    assert before[from..to] == before[from..at] + before[at..to];
    RunInPieces(s, before[from..at], before[at..to], m);
  }

  /** The bytes of the `n`-th MAC word that are asked for. */
  function MacPart(s: State, n: nat, count: nat): seq<Byte>
    requires count <= 4
  {
    WordBytes(KeyStream(Diffused(Sealed(s), s.konst, n)))[..count]
  }

  lemma MacNone(s: State)
    ensures Mac(s, 0) == []
  {
  }

  lemma {:induction false} MacMore(s: State, n: nat, count: nat)
    requires count <= 4
    ensures Mac(s, 4 * n + count) == Mac(s, 4 * n) + MacPart(s, n + 1, count)
  {
    hide KeyStream; hide Diffused; hide Sealed; hide Lane;
    var part := MacPart(s, n + 1, count);
    forall i | 0 <= i < count
      ensures Mac(s, 4 * n + count)[4 * n + i] == part[i]
    {
      assert (4 * n + i) / 4 == n && (4 * n + i) % 4 == i;
    }
  }

  lemma {:induction false} MacPatched(s: State, before: seq<Byte>, mid: seq<Byte>, after: seq<Byte>, start: nat,
                                      n: nat, count: nat)
    requires count <= 4
    requires Patched(before, mid, start, start + 4 * n, Mac(s, 4 * n))
    requires Patched(mid, after, start + 4 * n, start + 4 * n + count, MacPart(s, n + 1, count))
    ensures Patched(before, after, start, start + 4 * n + count, Mac(s, 4 * n + count))
  {
    hide Patched; hide Mac; hide MacPart;
    PatchedMore(before, mid, after, start, start + 4 * n, start + 4 * n + count, Mac(s, 4 * n),
      MacPart(s, n + 1, count));
    MacMore(s, n, count);
  }

  datatype PartResult = PartResult(ctx: RawState, text: seq<Byte>)

  /** The bytes of one part word, without the hand-over to the MAC. */
  function PartRun(c: RawState, bytes: seq<Byte>, m: Mode): (r: PartResult)
    requires IsByteShift(32 - c.nbuf) && 8 * |bytes| <= c.nbuf
    ensures |r.text| == |bytes| && r.ctx == c.(mbuf := r.ctx.mbuf, nbuf := c.nbuf - 8 * |bytes|)
  {
    hide PartStep;
    if bytes == [] then PartResult(c, [])
    else
      var r := PartRun(c, bytes[..|bytes| - 1], m);
      var (d, b) := PartStep(r.ctx, bytes[|bytes| - 1], m);
      PartResult(d, r.text + [b])
  }

  lemma {:induction false} PartRunLast(c: RawState, bytes: seq<Byte>, b: Byte, m: Mode)
    requires IsByteShift(32 - c.nbuf) && 8 * (|bytes| + 1) <= c.nbuf
    ensures var r := PartRun(c, bytes, m); var (d, out) := PartStep(r.ctx, b, m);
            PartRun(c, bytes + [b], m) == PartResult(d, r.text + [out])
  {
    hide PartStep;
    assert (bytes + [b])[..|bytes|] == bytes;
  }

  lemma {:induction false} PartRunNone(c: RawState, m: Mode)
    requires IsByteShift(32 - c.nbuf)
    ensures PartRun(c, [], m) == PartResult(c, [])
  {
  }

  /** Finishing a part word is running the reference machine on its bytes. */
  lemma {:induction false} PartIsRun(s: State, bytes: seq<Byte>, m: Mode)
    requires 1 <= |bytes| && 8 * |bytes| <= Refilled(s).nbuf
    ensures var r := PartRun(Refilled(s), bytes, m); Run(s, bytes, m) == Result(Completed(r.ctx), r.text)
  {
    hide PartStep; hide MacWord; hide Cycled; hide KeyStream;
    var n := |bytes| - 1;
    assert Run(s, [], m) == Result(s, []);
    if n > 0 {
      PartIsRun(s, bytes[..n], m);
    } else {
      assert bytes[..n] == [];
    }
  }

  /** `after` is `before` with the bytes from `from` to `at` replaced by `done`. */
  ghost predicate Patched(before: seq<Byte>, after: seq<Byte>, from: nat, at: nat, done: seq<Byte>) {
    from <= at <= |before| && |done| == at - from && after == before[..from] + done + before[at..]
  }

  lemma PatchedNone(before: seq<Byte>, from: nat)
    requires from <= |before|
    ensures Patched(before, before, from, from, [])
  {
  }

  lemma PatchedOne(before: seq<Byte>, after: seq<Byte>, from: nat, at: nat, done: seq<Byte>, b: Byte)
    requires Patched(before, after, from, at, done) && at < |before|
    ensures |after| == |before| && after[at] == before[at]
    ensures Patched(before, after[at := b], from, at + 1, done + [b])
  {
  }

  lemma PatchedMore(before: seq<Byte>, mid: seq<Byte>, after: seq<Byte>, from: nat, at: nat, to: nat, done: seq<Byte>,
                    more: seq<Byte>)
    requires Patched(before, mid, from, at, done) && Patched(mid, after, at, to, more)
    ensures |mid| == |before| && to <= |before| && mid[at..to] == before[at..to]
    ensures Patched(before, after, from, to, done + more)
  {
  }
}
