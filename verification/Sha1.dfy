/** The streaming, in-place SHA-1 of libopenspotify/sha1.c. */
module Sha1 {
  import opened Words
  import opened Sha1Spec

  // ---------------------------------------------------------------- the words of a block

  /** The byte swap of blk0 on a little-endian host. */
  function Swap(l: Word): Word {
    (((l << 24) | (l >> 8)) & 0xFF00_FF00) | (((l << 8) | (l >> 24)) & 0x00FF_00FF)
  }

  lemma {:induction false} SwapJoin(b0: Byte, b1: Byte, b2: Byte, b3: Byte)
    ensures Swap(Join(b0, b1, b2, b3)) == Join(b3, b2, b1, b0)
  {
  }

  /** Slot `s` of the circular schedule before round `t` holds the latest word whose number is congruent to `s`. */
  function Latest(t: nat, s: nat): (j: int)
    requires t >= 16 && s < 16
    ensures t - 16 <= j < t && j % 16 == s
  {
    t - 1 - (t - 1 - s) % 16
  }

  /** What the workspace `b` holds before round `t`: up to round 16 the rest of the block is still in host order. */
  ghost predicate Window(b: seq<Word>, m: seq<Word>, t: nat) {
    && |b| == |m| == 16
    && (t < 16 ==> (forall s :: 0 <= s < t ==> b[s] == m[s]) && (forall s :: t <= s < 16 ==> Swap(b[s]) == m[s]))
    && (t >= 16 ==> forall s :: 0 <= s < 16 ==> b[s] == W(m, Latest(t, s)))
  }

  function Blk(b: seq<Word>, i: nat): Word
    requires |b| == 16
  {
    Rotl1(XorW(XorW(XorW(b[(i + 13) % 16], b[(i + 8) % 16]), b[(i + 2) % 16]), b[i % 16]))
  }

  lemma {:induction false} WindowSwaps(b: seq<Word>, m: seq<Word>, t: nat)
    requires Window(b, m, t) && t < 16
    ensures Swap(b[t]) == W(m, t) && Window(b[t := Swap(b[t])], m, t + 1)
  {
    hide Swap;
    if t == 15 {
      var c := b[t := Swap(b[t])];
      forall s: nat | s < 16
        ensures c[s] == W(m, Latest(16, s))
      {
      }
    }
  }

  lemma {:induction false} LatestMoves(t: nat, s: nat)
    requires t >= 16 && s < 16
    ensures Latest(t + 1, s) == if s == t % 16 then t else Latest(t, s)
  {
  }

  lemma {:induction false} LatestOf(t: nat)
    requires t >= 16
    ensures Latest(t, (t + 13) % 16) == t - 3 && Latest(t, (t + 8) % 16) == t - 8
    ensures Latest(t, (t + 2) % 16) == t - 14 && Latest(t, t % 16) == t - 16
  {
    hide Latest;
    LatestIs(t, t - 3);
    LatestIs(t, t - 8);
    LatestIs(t, t - 14);
    LatestIs(t, t - 16);
    SameSlot(t - 3);
    SameSlot(t - 8);
    SameSlot(t - 14);
    SameSlot(t - 16);
  }

  lemma {:induction false} SameSlot(j: nat)
    ensures (j + 16) % 16 == j % 16
  {
  }

  lemma {:induction false} LatestIs(t: nat, j: nat)
    requires 16 <= t && t - 16 <= j < t
    ensures Latest(t, j % 16) == j
  {
  }

  lemma {:induction false} WindowMoves(b: seq<Word>, m: seq<Word>, t: nat)
    requires Window(b, m, t) && t >= 16
    ensures Blk(b, t) == W(m, t) && Window(b[t % 16 := Blk(b, t)], m, t + 1)
  {
    hide Rotl1; hide XorW; hide Latest;
    LatestOf(t);
    assert Blk(b, t) == W(m, t);
    var c := b[t % 16 := Blk(b, t)];
    forall s: nat | s < 16
      ensures c[s] == W(m, Latest(t + 1, s))
    {
      hide W; hide Blk;
      LatestMoves(t, s);
    }
  }

  // ---------------------------------------------------------------- one round, with the names of the registers rotated

  /** The working variables and the workspace before round `t`. */
  ghost predicate At(m: seq<Word>, h: Regs, r: Regs, b: seq<Word>, t: nat) {
    |m| == 16 && Window(b, m, t) && Rounds(m, h, t) == r
  }

  function Choose(w: Word, x: Word, y: Word): Word { (w & (x ^ y)) ^ y }

  function Majority(w: Word, x: Word, y: Word): Word { ((w | x) & y) | (w & x) }

  lemma {:induction false} ChooseBits(w: Word, x: Word, y: Word)
    ensures (w & (x ^ y)) ^ y == (w & x) ^ (!w & y)
  {
  }

  lemma {:induction false} MajorityBits(w: Word, x: Word, y: Word)
    ensures ((w | x) & y) | (w & x) == (w & x) ^ (w & y) ^ (x & y)
  {
  }

  lemma {:induction false} ChooseIsCh(w: Word, x: Word, y: Word)
    ensures Choose(w, x, y) == Ch(w, x, y)
  {
    ChooseBits(w, x, y);
  }

  lemma {:induction false} MajorityIsMaj(w: Word, x: Word, y: Word)
    ensures Majority(w, x, y) == Maj(w, x, y)
  {
    MajorityBits(w, x, y);
  }

  /** `z += f + blk + k + rol(v, 5)`. */
  function Mixed(z: Word, f: Word, blk: Word, k: Word, r: Word): Word {
    z + (f + blk + k + r)
  }

  lemma {:induction false} SumBits(z: Word, f: Word, blk: Word, k: Word, r: Word)
    ensures z + (f + blk + k + r) == r + f + z + k + blk
  {
  }

  lemma {:induction false} MixedIs(z: Word, f: Word, blk: Word, k: Word, r: Word)
    ensures Mixed(z, f, blk, k, r) == Total(r, f, z, k, blk)
  {
    SumBits(z, f, blk, k, r);
  }

  lemma {:induction false} RoundDone(m: seq<Word>, h: Regs, v: Word, w: Word, x: Word, y: Word, z: Word, b: seq<Word>,
                                     c: seq<Word>, t: nat, f: Word)
    requires At(m, h, Regs(v, w, x, y, z), b, t) && f == F(t, w, x, y)
    requires |m| == 16 && Window(c, m, t + 1)
    ensures At(m, h, Regs(Mixed(z, f, W(m, t), K(t), Rotl5(v)), v, Rotl30(w), x, y), c, t + 1)
  {
    hide Window; hide F; hide K; hide W; hide Mixed; hide Rotl5; hide Rotl30; hide Total;
    MixedIs(z, f, W(m, t), K(t), Rotl5(v));
  }

  method R0(v: Word, w: Word, x: Word, y: Word, z: Word, i: nat, block: array<Word>, ghost m: seq<Word>, ghost h: Regs)
    returns (z': Word, w': Word)
    requires i < 16 && block.Length == 16 && At(m, h, Regs(v, w, x, y, z), block[..], i)
    modifies block
    ensures At(m, h, Regs(z', v, w', x, y), block[..], i + 1)
  {
    hide Window; hide W; hide Swap; hide Choose; hide Ch; hide Mixed; hide Rotl5; hide Rotl30;
    ghost var b := block[..];
    WindowSwaps(b, m, i);
    ChooseIsCh(w, x, y);
    block[i] := Swap(block[i]);
    RoundDone(m, h, v, w, x, y, z, b, block[..], i, Choose(w, x, y));
    z', w' := Mixed(z, Choose(w, x, y), block[i], 0x5A82_7999, Rotl5(v)), Rotl30(w);
  }

  method R1(v: Word, w: Word, x: Word, y: Word, z: Word, i: nat, block: array<Word>, ghost m: seq<Word>, ghost h: Regs)
    returns (z': Word, w': Word)
    requires 16 <= i < 20 && block.Length == 16 && At(m, h, Regs(v, w, x, y, z), block[..], i)
    modifies block
    ensures At(m, h, Regs(z', v, w', x, y), block[..], i + 1)
  {
    hide Window; hide W; hide Blk; hide Choose; hide Ch; hide Mixed; hide Rotl5; hide Rotl30;
    ghost var b := block[..];
    WindowMoves(b, m, i);
    ChooseIsCh(w, x, y);
    block[i % 16] := Blk(block[..], i);
    RoundDone(m, h, v, w, x, y, z, b, block[..], i, Choose(w, x, y));
    z', w' := Mixed(z, Choose(w, x, y), block[i % 16], 0x5A82_7999, Rotl5(v)), Rotl30(w);
  }

  method R2(v: Word, w: Word, x: Word, y: Word, z: Word, i: nat, block: array<Word>, ghost m: seq<Word>, ghost h: Regs)
    returns (z': Word, w': Word)
    requires 20 <= i < 40 && block.Length == 16 && At(m, h, Regs(v, w, x, y, z), block[..], i)
    modifies block
    ensures At(m, h, Regs(z', v, w', x, y), block[..], i + 1)
  {
    hide Window; hide W; hide Blk; hide Parity; hide Mixed; hide Rotl5; hide Rotl30;
    ghost var b := block[..];
    WindowMoves(b, m, i);
    block[i % 16] := Blk(block[..], i);
    RoundDone(m, h, v, w, x, y, z, b, block[..], i, Parity(w, x, y));
    z', w' := Mixed(z, Parity(w, x, y), block[i % 16], 0x6ED9_EBA1, Rotl5(v)), Rotl30(w);
  }

  method R3(v: Word, w: Word, x: Word, y: Word, z: Word, i: nat, block: array<Word>, ghost m: seq<Word>, ghost h: Regs)
    returns (z': Word, w': Word)
    requires 40 <= i < 60 && block.Length == 16 && At(m, h, Regs(v, w, x, y, z), block[..], i)
    modifies block
    ensures At(m, h, Regs(z', v, w', x, y), block[..], i + 1)
  {
    hide Window; hide W; hide Blk; hide Majority; hide Maj; hide Mixed; hide Rotl5; hide Rotl30;
    ghost var b := block[..];
    WindowMoves(b, m, i);
    MajorityIsMaj(w, x, y);
    block[i % 16] := Blk(block[..], i);
    RoundDone(m, h, v, w, x, y, z, b, block[..], i, Majority(w, x, y));
    z', w' := Mixed(z, Majority(w, x, y), block[i % 16], 0x8F1B_BCDC, Rotl5(v)), Rotl30(w);
  }

  method R4(v: Word, w: Word, x: Word, y: Word, z: Word, i: nat, block: array<Word>, ghost m: seq<Word>, ghost h: Regs)
    returns (z': Word, w': Word)
    requires 60 <= i < 80 && block.Length == 16 && At(m, h, Regs(v, w, x, y, z), block[..], i)
    modifies block
    ensures At(m, h, Regs(z', v, w', x, y), block[..], i + 1)
  {
    hide Window; hide W; hide Blk; hide Parity; hide Mixed; hide Rotl5; hide Rotl30;
    ghost var b := block[..];
    WindowMoves(b, m, i);
    block[i % 16] := Blk(block[..], i);
    RoundDone(m, h, v, w, x, y, z, b, block[..], i, Parity(w, x, y));
    z', w' := Mixed(z, Parity(w, x, y), block[i % 16], 0xCA62_C1D6, Rotl5(v)), Rotl30(w);
  }

  /** Rounds 0 to 19. */
  method DoR01(a0: Word, b0: Word, c0: Word, d0: Word, e0: Word, block: array<Word>, ghost m: seq<Word>, ghost h: Regs)
    returns (a: Word, b: Word, c: Word, d: Word, e: Word)
    requires block.Length == 16 && At(m, h, Regs(a0, b0, c0, d0, e0), block[..], 0)
    modifies block
    ensures At(m, h, Regs(a, b, c, d, e), block[..], 20)
  {
    hide At;
    a, b, c, d, e := a0, b0, c0, d0, e0;
    e, b := R0(a, b, c, d, e, 0, block, m, h);
    d, a := R0(e, a, b, c, d, 1, block, m, h);
    c, e := R0(d, e, a, b, c, 2, block, m, h);
    b, d := R0(c, d, e, a, b, 3, block, m, h);
    a, c := R0(b, c, d, e, a, 4, block, m, h);
    e, b := R0(a, b, c, d, e, 5, block, m, h);
    d, a := R0(e, a, b, c, d, 6, block, m, h);
    c, e := R0(d, e, a, b, c, 7, block, m, h);
    b, d := R0(c, d, e, a, b, 8, block, m, h);
    a, c := R0(b, c, d, e, a, 9, block, m, h);
    e, b := R0(a, b, c, d, e, 10, block, m, h);
    d, a := R0(e, a, b, c, d, 11, block, m, h);
    c, e := R0(d, e, a, b, c, 12, block, m, h);
    b, d := R0(c, d, e, a, b, 13, block, m, h);
    a, c := R0(b, c, d, e, a, 14, block, m, h);
    e, b := R0(a, b, c, d, e, 15, block, m, h);
    d, a := R1(e, a, b, c, d, 16, block, m, h);
    c, e := R1(d, e, a, b, c, 17, block, m, h);
    b, d := R1(c, d, e, a, b, 18, block, m, h);
    a, c := R1(b, c, d, e, a, 19, block, m, h);
  }

  /** Rounds 20 to 39. */
  method DoR2(a0: Word, b0: Word, c0: Word, d0: Word, e0: Word, block: array<Word>, ghost m: seq<Word>, ghost h: Regs)
    returns (a: Word, b: Word, c: Word, d: Word, e: Word)
    requires block.Length == 16 && At(m, h, Regs(a0, b0, c0, d0, e0), block[..], 20)
    modifies block
    ensures At(m, h, Regs(a, b, c, d, e), block[..], 40)
  {
    hide At;
    a, b, c, d, e := a0, b0, c0, d0, e0;
    e, b := R2(a, b, c, d, e, 20, block, m, h);
    d, a := R2(e, a, b, c, d, 21, block, m, h);
    c, e := R2(d, e, a, b, c, 22, block, m, h);
    b, d := R2(c, d, e, a, b, 23, block, m, h);
    a, c := R2(b, c, d, e, a, 24, block, m, h);
    e, b := R2(a, b, c, d, e, 25, block, m, h);
    d, a := R2(e, a, b, c, d, 26, block, m, h);
    c, e := R2(d, e, a, b, c, 27, block, m, h);
    b, d := R2(c, d, e, a, b, 28, block, m, h);
    a, c := R2(b, c, d, e, a, 29, block, m, h);
    e, b := R2(a, b, c, d, e, 30, block, m, h);
    d, a := R2(e, a, b, c, d, 31, block, m, h);
    c, e := R2(d, e, a, b, c, 32, block, m, h);
    b, d := R2(c, d, e, a, b, 33, block, m, h);
    a, c := R2(b, c, d, e, a, 34, block, m, h);
    e, b := R2(a, b, c, d, e, 35, block, m, h);
    d, a := R2(e, a, b, c, d, 36, block, m, h);
    c, e := R2(d, e, a, b, c, 37, block, m, h);
    b, d := R2(c, d, e, a, b, 38, block, m, h);
    a, c := R2(b, c, d, e, a, 39, block, m, h);
  }

  /** Rounds 40 to 59. */
  method DoR3(a0: Word, b0: Word, c0: Word, d0: Word, e0: Word, block: array<Word>, ghost m: seq<Word>, ghost h: Regs)
    returns (a: Word, b: Word, c: Word, d: Word, e: Word)
    requires block.Length == 16 && At(m, h, Regs(a0, b0, c0, d0, e0), block[..], 40)
    modifies block
    ensures At(m, h, Regs(a, b, c, d, e), block[..], 60)
  {
    hide At;
    a, b, c, d, e := a0, b0, c0, d0, e0;
    e, b := R3(a, b, c, d, e, 40, block, m, h);
    d, a := R3(e, a, b, c, d, 41, block, m, h);
    c, e := R3(d, e, a, b, c, 42, block, m, h);
    b, d := R3(c, d, e, a, b, 43, block, m, h);
    a, c := R3(b, c, d, e, a, 44, block, m, h);
    e, b := R3(a, b, c, d, e, 45, block, m, h);
    d, a := R3(e, a, b, c, d, 46, block, m, h);
    c, e := R3(d, e, a, b, c, 47, block, m, h);
    b, d := R3(c, d, e, a, b, 48, block, m, h);
    a, c := R3(b, c, d, e, a, 49, block, m, h);
    e, b := R3(a, b, c, d, e, 50, block, m, h);
    d, a := R3(e, a, b, c, d, 51, block, m, h);
    c, e := R3(d, e, a, b, c, 52, block, m, h);
    b, d := R3(c, d, e, a, b, 53, block, m, h);
    a, c := R3(b, c, d, e, a, 54, block, m, h);
    e, b := R3(a, b, c, d, e, 55, block, m, h);
    d, a := R3(e, a, b, c, d, 56, block, m, h);
    c, e := R3(d, e, a, b, c, 57, block, m, h);
    b, d := R3(c, d, e, a, b, 58, block, m, h);
    a, c := R3(b, c, d, e, a, 59, block, m, h);
  }

  /** Rounds 60 to 79. */
  method DoR4(a0: Word, b0: Word, c0: Word, d0: Word, e0: Word, block: array<Word>, ghost m: seq<Word>, ghost h: Regs)
    returns (a: Word, b: Word, c: Word, d: Word, e: Word)
    requires block.Length == 16 && At(m, h, Regs(a0, b0, c0, d0, e0), block[..], 60)
    modifies block
    ensures At(m, h, Regs(a, b, c, d, e), block[..], 80)
  {
    hide At;
    a, b, c, d, e := a0, b0, c0, d0, e0;
    e, b := R4(a, b, c, d, e, 60, block, m, h);
    d, a := R4(e, a, b, c, d, 61, block, m, h);
    c, e := R4(d, e, a, b, c, 62, block, m, h);
    b, d := R4(c, d, e, a, b, 63, block, m, h);
    a, c := R4(b, c, d, e, a, 64, block, m, h);
    e, b := R4(a, b, c, d, e, 65, block, m, h);
    d, a := R4(e, a, b, c, d, 66, block, m, h);
    c, e := R4(d, e, a, b, c, 67, block, m, h);
    b, d := R4(c, d, e, a, b, 68, block, m, h);
    a, c := R4(b, c, d, e, a, 69, block, m, h);
    e, b := R4(a, b, c, d, e, 70, block, m, h);
    d, a := R4(e, a, b, c, d, 71, block, m, h);
    c, e := R4(d, e, a, b, c, 72, block, m, h);
    b, d := R4(c, d, e, a, b, 73, block, m, h);
    a, c := R4(b, c, d, e, a, 74, block, m, h);
    e, b := R4(a, b, c, d, e, 75, block, m, h);
    d, a := R4(e, a, b, c, d, 76, block, m, h);
    c, e := R4(d, e, a, b, c, 77, block, m, h);
    b, d := R4(c, d, e, a, b, 78, block, m, h);
    a, c := R4(b, c, d, e, a, 79, block, m, h);
  }

  // ---------------------------------------------------------------- SHA1Transform

  /** The workspace right after the block is copied into it. */
  method HostWords(buffer: seq<Byte>) returns (block: array<Word>)
    requires |buffer| == 64
    ensures fresh(block) && block.Length == 16 && Window(block[..], BlockWords(buffer), 0)
  {
    hide Swap; hide Join;
    block := new Word[16];
    for i := 0 to 16
      invariant forall s :: 0 <= s < i ==> Swap(block[s]) == BlockWords(buffer)[s]
    {
      block[i] := Join(buffer[4 * i], buffer[4 * i + 1], buffer[4 * i + 2], buffer[4 * i + 3]);
      SwapJoin(buffer[4 * i], buffer[4 * i + 1], buffer[4 * i + 2], buffer[4 * i + 3]);
    }
  }

  function RegsOf(s: seq<Word>): Regs
    requires |s| == 5
  {
    Regs(s[0], s[1], s[2], s[3], s[4])
  }

  lemma {:induction false} Starts(m: seq<Word>, h: Regs, b: seq<Word>)
    requires Window(b, m, 0)
    ensures At(m, h, h, b, 0)
  {
    hide Window;
    assert |m| == 16 by { WindowSize(b, m, 0); }
  }

  lemma {:induction false} WindowSize(b: seq<Word>, m: seq<Word>, t: nat)
    requires Window(b, m, t)
    ensures |b| == |m| == 16
  {
  }

  lemma {:induction false} Ends(m: seq<Word>, h: Regs, r: Regs, b: seq<Word>)
    requires At(m, h, r, b, 80)
    ensures |m| == 16 && Compress(h, m) == Regs(Add(h.a, r.a), Add(h.b, r.b), Add(h.c, r.c), Add(h.d, r.d),
            Add(h.e, r.e))
  {
    hide Window; hide Add; hide Rounds;
  }

  /** SHA1Transform compresses one block into the state. */
  method Transform(state: array<Word>, buffer: seq<Byte>)
    requires state.Length == 5 && |buffer| == 64
    modifies state
    ensures RegsOf(state[..]) == Compress(old(RegsOf(state[..])), BlockWords(buffer))
  {
    hide At; hide Window; hide Compress; hide Add; hide BlockWords;
    var block := HostWords(buffer);
    ghost var m, h := BlockWords(buffer), RegsOf(state[..]);
    var a, b, c, d, e := state[0], state[1], state[2], state[3], state[4];
    Starts(m, h, block[..]);
    a, b, c, d, e := DoR01(a, b, c, d, e, block, m, h);
    a, b, c, d, e := DoR2(a, b, c, d, e, block, m, h);
    a, b, c, d, e := DoR3(a, b, c, d, e, block, m, h);
    a, b, c, d, e := DoR4(a, b, c, d, e, block, m, h);
    Ends(m, h, Regs(a, b, c, d, e), block[..]);
    state[0] := Add(state[0], a);
    state[1] := Add(state[1], b);
    state[2] := Add(state[2], c);
    state[3] := Add(state[3], d);
    state[4] := Add(state[4], e);
  }

  // ---------------------------------------------------------------- the bit count

  /** What SHA1Update makes of the two halves of the count; the upper half is touched only when the lower one wraps. */
  function AddLength(low: nat, high: nat, len: nat): (c: (nat, nat))
    requires low < WORD_RANGE && high < WORD_RANGE && len < WORD_RANGE
    ensures c.0 < WORD_RANGE && c.1 < WORD_RANGE
  {
    var sum := (low + len * 8 % WORD_RANGE) % WORD_RANGE;
    (sum, if sum < low then (high + len / 0x2000_0000 + 1) % WORD_RANGE else high)
  }

  /** The count stays right if and only if the piece is short of 2^29 bytes or the lower half happens to wrap. */
  lemma {:induction false} CountRightIff(low: nat, high: nat, len: nat)
    requires low < WORD_RANGE && high < WORD_RANGE && len < WORD_RANGE
    ensures var c := AddLength(low, high, len);
            c.0 + WORD_RANGE * c.1 == (low + WORD_RANGE * high + 8 * len) % COUNT_RANGE
            <==> len < 0x2000_0000 || low + len * 8 % WORD_RANGE >= WORD_RANGE
  {
    hide AddLength;
    var q, r := len / 0x2000_0000, len * 8 % WORD_RANGE;
    LengthParts(low, high, len);
    if low + r >= WORD_RANGE {
      SplitCount(low + r - WORD_RANGE, high + q + 1);
    } else {
      SplitCount(low + r, high + q);
      SameHigh(high, q);
      assert len < 0x2000_0000 <==> q == 0;
    }
  }

  lemma {:induction false} SameHigh(high: nat, q: nat)
    requires high < WORD_RANGE && q < 8
    ensures (high + q) % WORD_RANGE == high <==> q == 0
  {
    if high + q < WORD_RANGE {
    } else {
      assert (high + q) % WORD_RANGE == high + q - WORD_RANGE;
    }
  }

  lemma {:induction false} LengthParts(low: nat, high: nat, len: nat)
    requires low < WORD_RANGE && high < WORD_RANGE && len < WORD_RANGE
    ensures var q, r := len / 0x2000_0000, len * 8 % WORD_RANGE;
            && len * 8 == q * WORD_RANGE + r && q < 8
            && (low + r >= WORD_RANGE ==>
                  AddLength(low, high, len) == (low + r - WORD_RANGE, (high + q + 1) % WORD_RANGE))
            && (low + r < WORD_RANGE ==> AddLength(low, high, len) == (low + r, high))
  {
    var q, r := len / 0x2000_0000, len * 8 % WORD_RANGE;
    if low + r >= WORD_RANGE {
      assert (low + r) % WORD_RANGE == low + r - WORD_RANGE;
    } else {
      assert (low + r) % WORD_RANGE == low + r;
    }
  }

  lemma {:induction false} SplitCount(low: nat, high: nat)
    requires low < WORD_RANGE && high <= 2 * WORD_RANGE
    ensures (low + WORD_RANGE * high) % COUNT_RANGE == low + WORD_RANGE * (high % WORD_RANGE)
  {
    if high < WORD_RANGE {
    } else if high < 2 * WORD_RANGE {
    } else {
    }
  }

  // ---------------------------------------------------------------- the context

  /** State and buffer after the message `msg`: whole blocks are compressed and the rest waits in the buffer. */
  predicate Hashed(regs: Regs, buffer: seq<Byte>, msg: seq<Byte>) {
    && |buffer| == 64
    && regs == Blocks(msg[..|msg| - |msg| % 64])
    && buffer[..|msg| % 64] == msg[|msg| - |msg| % 64..]
  }

  /** Filling up the buffer completes a block of the message. */
  lemma {:induction false} BlockFilled(regs: Regs, buffer: seq<Byte>, msg: seq<Byte>, more: seq<Byte>)
    requires Hashed(regs, buffer, msg) && |msg| % 64 + |more| == 64
    ensures |msg + more| % 64 == 0
    ensures Compress(regs, BlockWords(buffer[..|msg| % 64] + more)) == Blocks(msg + more)
  {
    hide Compress; hide BlockWords; hide Blocks;
    var whole := |msg| - |msg| % 64;
    BlocksNext(msg[..whole], msg[whole..] + more);
    assert msg[..whole] + (msg[whole..] + more) == msg + more;
  }

  /** What is left over after whole blocks goes to the front of the buffer. */
  lemma {:induction false} RestBuffered(regs: Regs, buffer: seq<Byte>, msg: seq<Byte>, rest: seq<Byte>)
    requires |buffer| == 64 && |msg| % 64 == 0 && |rest| < 64 && regs == Blocks(msg) && buffer[..|rest|] == rest
    ensures Hashed(regs, buffer, msg + rest)
  {
    hide Blocks;
    assert |msg + rest| % 64 == |rest|;
    assert (msg + rest)[..|msg|] == msg && (msg + rest)[|msg|..] == rest;
  }

  lemma {:induction false} MoreBuffered(regs: Regs, buffer: seq<Byte>, after: seq<Byte>, msg: seq<Byte>,
                                        more: seq<Byte>)
    requires Hashed(regs, buffer, msg) && |msg| % 64 + |more| < 64
    requires |after| == 64 && after[..|msg| % 64 + |more|] == buffer[..|msg| % 64] + more
    ensures Hashed(regs, after, msg + more)
  {
    hide Blocks;
    var j := |msg| % 64;
    var whole := |msg| - j;
    assert |msg + more| % 64 == j + |more|;
    assert (msg + more)[..whole] == msg[..whole] && (msg + more)[whole..] == msg[whole..] + more;
  }

  class Context {
    const state: array<Word>
    var low: nat
    var high: nat
    const buffer: array<Byte>
    ghost var message: seq<Byte>

    ghost predicate Valid()
      reads this, state, buffer
    {
      && state.Length == 5 && buffer.Length == 64
      && low < WORD_RANGE && high < WORD_RANGE && low % 512 == 8 * |message| % 512
      && Hashed(RegsOf(state[..]), buffer[..], message)
    }

    /** The count is that of the message, modulo 2^64 bits. */
    ghost predicate CountRight()
      reads this
    {
      low + WORD_RANGE * high == 8 * |message| % COUNT_RANGE
    }

    /** SHA1Init. */
    constructor ()
      ensures Valid() && fresh(state) && fresh(buffer) && message == [] && CountRight()
    {
      var words := new Word[5];
      words[0], words[1], words[2], words[3], words[4] :=
        0x6745_2301, 0xEFCD_AB89, 0x98BA_DCFE, 0x1032_5476, 0xC3D2_E1F0;
      state := words;
      buffer := new Byte[64];
      low, high, message := 0, 0, [];
    }

    /** SHA1Update: the message grows by the data, whatever its length and however much was waiting. */
    method Update(data: seq<Byte>)
      requires Valid() && |data| < WORD_RANGE - 128
      modifies this, state, buffer
      ensures Valid() && message == old(message) + data
      ensures (low, high) == AddLength(old(low), old(high), |data|)
      ensures old(CountRight()) && |data| < 0x2000_0000 ==> CountRight()
    {
      hide Compress; hide Hashed; hide BlockWords; hide Blocks; hide AddLength;
      ghost var m := message;
      var j := low;
      Offset(low, |m|);
      AddCount(|data|);
      j := j / 8 % 64;
      Absorb(j, data);
      message := m + data;
    }

    /** The bit count of SHA1Update. */
    method AddCount(len: nat)
      requires low < WORD_RANGE && high < WORD_RANGE && low % 512 == 8 * |message| % 512 && len < WORD_RANGE
      modifies `low, `high
      ensures low < WORD_RANGE && high < WORD_RANGE && low % 512 == 8 * (|message| + len) % 512
      ensures (low, high) == AddLength(old(low), old(high), len)
      ensures old(CountRight()) && len < 0x2000_0000 ==> low + WORD_RANGE * high == 8 * (|message| + len) % COUNT_RANGE
    {
      hide AddLength;
      CountRightIff(low, high, len);
      CountAdds(low + WORD_RANGE * high, 8 * |message|, 8 * len);
      CountLow(low, high, len, |message|);
      AddLengthIs(low, high, len);
      var sum := (low + len * 8 % WORD_RANGE) % WORD_RANGE;
      if sum < low {
        high := (high + len / 0x2000_0000 + 1) % WORD_RANGE;
      }
      low := sum;
    }

    /** The part of SHA1Update that handles the data. */
    method Absorb(j0: nat, data: seq<Byte>)
      requires state.Length == 5 && buffer.Length == 64 && j0 == |message| % 64
      requires Hashed(RegsOf(state[..]), buffer[..], message)
      modifies state, buffer
      ensures Hashed(RegsOf(state[..]), buffer[..], message + data)
    {
      hide Compress; hide Hashed; hide BlockWords; hide Blocks; hide RegsOf;
      ghost var m, regs, was := message, RegsOf(state[..]), buffer[..];
      var i, j := 0, j0;
      if j + |data| > 63 {
        i := 64 - j;
        CopyIn(j, data, 0, i);
        BlockFilled(regs, was, m, data[..i]);
        assert buffer[..] == was[..j] + data[..i];
        Transform(state, buffer[..]);
        while i + 63 < |data|
          invariant 0 <= i <= |data| && |m + data[..i]| % 64 == 0
          invariant RegsOf(state[..]) == Blocks(m + data[..i])
        {
          BlocksNext(m + data[..i], data[i..i + 64]);
          assert m + data[..i] + data[i..i + 64] == m + data[..i + 64];
          Transform(state, data[i..i + 64]);
          i := i + 64;
        }
        j := 0;
        CopyIn(j, data, i, |data| - i);
        RestBuffered(RegsOf(state[..]), buffer[..], m + data[..i], data[i..]);
        assert m + data[..i] + data[i..] == m + data;
      } else {
        CopyIn(j, data, i, |data| - i);
        assert data[0..0 + |data|] == data;
        MoreBuffered(regs, was, buffer[..], m, data);
      }
    }

    /** memcpy into the buffer. */
    method CopyIn(j: nat, data: seq<Byte>, i: nat, n: nat)
      requires buffer.Length == 64 && j + n <= 64 && i + n <= |data|
      modifies buffer
      ensures buffer[..j + n] == old(buffer[..j]) + data[i..i + n] && buffer[j + n..] == old(buffer[j + n..])
    {
      forall k | 0 <= k < n {
        buffer[j + k] := data[i + k];
      }
    }

    /** SHA1Final: pad with the count as it stands, and give out the state. */
    method Final(digest: array?<Byte>)
      requires Valid() && (digest != null ==> digest.Length == 20 && digest != buffer)
      modifies this, state, buffer
      modifies if digest != null then {digest} else {}
      ensures Valid() && message == Pad(old(message), old(low + WORD_RANGE * high))
      ensures digest != null ==> digest[..] == DigestOf(Blocks(Pad(old(message), old(low + WORD_RANGE * high))))
      ensures digest != null && old(CountRight()) ==> digest[..] == Digest(old(message))
    {
      hide Hashed; hide Blocks; hide DigestOf; hide RegsOf; hide Pad; hide Zeros; hide PadZeros; hide CountBytes;
      hide AddLength;
      ghost var m, bits := message, low + WORD_RANGE * high;
      var finalCount := FinalCount();
      AddPadding();
      Update(finalCount);
      PadIs(m, bits);
      WholeMessage(RegsOf(state[..]), buffer[..], message);
      if digest != null {
        PutDigest(digest);
      }
    }

    method AddPadding()
      requires Valid()
      modifies this, state, buffer
      ensures Valid() && message == old(message) + [0x80] + Zeros(PadZeros(old(|message|)))
    {
      hide Hashed; hide Blocks; hide AddLength; hide PadZeros; hide RegsOf; hide Zeros;
      ghost var m := message;
      Update([0x80]);
      ghost var k := 0;
      ZerosGrow(0);
      Offset(low, |message|);
      while low / 8 % 64 != 56
        invariant Valid() && k <= PadZeros(|m|) && message == m + [0x80] + Zeros(k)
        invariant low / 8 % 64 == |message| % 64
        decreases PadZeros(|m|) - k
      {
        PadEnds(|m|, k);
        Update([0]);
        ZerosGrow(k);
        assert m + [0x80] + Zeros(k) + [0] == m + [0x80] + (Zeros(k) + [0]);
        k := k + 1;
        Offset(low, |message|);
      }
      PadEnds(|m|, k);
    }

    method PutDigest(digest: array<Byte>)
      requires state.Length == 5 && digest.Length == 20
      modifies digest
      ensures digest[..] == DigestOf(RegsOf(state[..]))
    {
      hide DigestOf; hide RegsOf;
      for i := 0 to 20
        invariant forall n :: 0 <= n < i ==> digest[n] == DigestOf(RegsOf(state[..]))[n]
      {
        DigestByte(state[..], i);
        var shift := (3 - i % 4) * 8;
        digest[i] := Lane(state[i / 4], shift);
      }
    }

    /** The count as eight bytes, most significant first. */
    method FinalCount() returns (c: seq<Byte>)
      requires low < WORD_RANGE && high < WORD_RANGE
      ensures c == CountBytes(low + WORD_RANGE * high)
    {
      hide WordBytes; hide Shifted;
      c := [];
      for i := 0 to 8
        invariant c == (WordBytes(high) + WordBytes(low))[..i]
      {
        var word := if i >= 4 then low else high;
        CountByte(low, high, i);
        c := c + [Shifted(word, 3 - i % 4)];
      }
      assert (low + WORD_RANGE * high) / WORD_RANGE == high && (low + WORD_RANGE * high) % WORD_RANGE == low;
    }
  }

  /** `(word >> (k * 8)) & 255`. */
  function Shifted(word: nat, k: nat): Byte
    requires k < 4
  {
    ToByte((if k == 0 then word else if k == 1 then word / 0x100 else if k == 2 then word / 0x1_0000
      else word / 0x100_0000) % 0x100)
  }

  lemma {:induction false} WordByte(word: nat, i: nat)
    requires word < WORD_RANGE && i < 4
    ensures WordBytes(word)[i] == Shifted(word, 3 - i)
  {
    hide ToByte;
  }

  lemma {:induction false} CountByte(low: nat, high: nat, i: nat)
    requires low < WORD_RANGE && high < WORD_RANGE && i < 8
    ensures (WordBytes(high) + WordBytes(low))[i] == Shifted(if i >= 4 then low else high, 3 - i % 4)
  {
    hide WordBytes; hide Shifted;
    if i >= 4 {
      WordByte(low, i - 4);
      assert i % 4 == i - 4;
    } else {
      WordByte(high, i);
    }
  }

  lemma {:induction false} PadIs(m: seq<Byte>, bits: nat)
    requires bits < COUNT_RANGE
    ensures m + [0x80] + Zeros(PadZeros(|m|)) + CountBytes(bits) == Pad(m, bits)
  {
  }

  lemma {:induction false} RegByte(w: Word, n: nat)
    requires n < 4
    ensures IsByteShift((3 - n) * 8) && RegBytes(w)[n] == Lane(w, (3 - n) * 8)
  {
    hide Lane;
  }

  lemma {:induction false} DigestByte(s: seq<Word>, i: nat)
    requires |s| == 5 && i < 20
    ensures IsByteShift((3 - i % 4) * 8)
    ensures DigestOf(RegsOf(s))[i] == Lane(s[i / 4], (3 - i % 4) * 8)
  {
    hide Lane; hide RegBytes;
    var q, n := i / 4, i % 4;
    RegByte(s[q], n);
    DigestPart(RegsOf(s), q, n);
    assert i == 4 * q + n;
  }

  lemma {:induction false} DigestPart(h: Regs, q: nat, n: nat)
    requires q < 5 && n < 4
    ensures DigestOf(h)[4 * q + n] == RegBytes(if q == 0 then h.a else if q == 1 then h.b else if q == 2 then h.c
            else if q == 3 then h.d else h.e)[n]
  {
    hide RegBytes;
  }

  lemma {:induction false} ZerosGrow(k: nat)
    ensures Zeros(0) == [] && Zeros(k) + [0] == Zeros(k + 1)
  {
  }

  /** Zeros are added until exactly as many are there as FIPS 180-4 asks for. */
  lemma {:induction false} PadEnds(len: nat, k: nat)
    requires k <= PadZeros(len)
    ensures (len + 1 + k) % 64 == 56 <==> k == PadZeros(len)
  {
  }

  lemma {:induction false} WholeMessage(regs: Regs, buffer: seq<Byte>, msg: seq<Byte>)
    requires Hashed(regs, buffer, msg) && |msg| % 64 == 0
    ensures regs == Blocks(msg)
  {
    assert msg[..|msg|] == msg;
  }

  lemma {:induction false} Offset(low: nat, len: nat)
    requires low % 512 == 8 * len % 512
    ensures low / 8 % 64 == len % 64
  {
    var q, r := len / 64, len % 64;
    assert 8 * len == 512 * q + 8 * r;
    assert 8 * len % 512 == 8 * r;
    var p := low / 512;
    assert low == 512 * p + 8 * r;
    assert low / 8 == 64 * p + r;
  }

  lemma {:induction false} AddLengthIs(low: nat, high: nat, len: nat)
    requires low < WORD_RANGE && high < WORD_RANGE && len < WORD_RANGE
    ensures var sum := (low + len * 8 % WORD_RANGE) % WORD_RANGE;
            AddLength(low, high, len) == (sum, if sum < low then (high + len / 0x2000_0000 + 1) % WORD_RANGE else high)
  {
  }

  lemma {:induction false} CountLow(low: nat, high: nat, len: nat, m: nat)
    requires low < WORD_RANGE && high < WORD_RANGE && len < WORD_RANGE && low % 512 == 8 * m % 512
    ensures (low + len * 8 % WORD_RANGE) % WORD_RANGE % 512 == 8 * (m + len) % 512
  {
    var r := len * 8 % WORD_RANGE;
    var s := (low + r) % WORD_RANGE;
    assert len * 8 == r + WORD_RANGE * (len * 8 / WORD_RANGE);
    assert low + r == s + WORD_RANGE * ((low + r) / WORD_RANGE);
    assert low == low % 512 + 512 * (low / 512) && 8 * m == low % 512 + 512 * (8 * m / 512);
    Congruent(s, 8 * (m + len), (low + r) / WORD_RANGE, len * 8 / WORD_RANGE, low / 512, 8 * m / 512);
  }

  lemma {:induction false} Congruent(s: int, t: int, a: int, b: int, c: int, d: int)
    requires s == t - WORD_RANGE * a - WORD_RANGE * b + 512 * c - 512 * d
    ensures s % 512 == t % 512
  {
    assert s == t + 512 * (c - d - 0x80_0000 * a - 0x80_0000 * b);
  }

  lemma {:induction false} CountAdds(count: nat, bits: nat, more: nat)
    requires count < COUNT_RANGE
    ensures count == bits % COUNT_RANGE ==> (count + more) % COUNT_RANGE == (bits + more) % COUNT_RANGE
  {
    if count == bits % COUNT_RANGE {
      var q := bits / COUNT_RANGE;
      assert bits + more == count + more + COUNT_RANGE * q;
    }
  }

  /** The count after a message that came in pieces. */
  function Counted(pieces: seq<seq<Byte>>): (c: (nat, nat))
    requires forall i :: 0 <= i < |pieces| ==> |pieces[i]| < WORD_RANGE
    ensures c.0 < WORD_RANGE && c.1 < WORD_RANGE
  {
    hide AddLength;
    if pieces == [] then (0, 0)
    else
      var c := Counted(pieces[..|pieces| - 1]);
      AddLength(c.0, c.1, |pieces[|pieces| - 1]|)
  }

  /** However a message is cut into pieces short of 2^29 bytes, the count is that of the whole message. */
  lemma {:induction false} AnySplitCounts(pieces: seq<seq<Byte>>)
    requires forall i :: 0 <= i < |pieces| ==> |pieces[i]| < 0x2000_0000
    ensures var c := Counted(pieces); c.0 + WORD_RANGE * c.1 == 8 * |Concat(pieces)| % COUNT_RANGE
  {
    hide AddLength;
    if pieces != [] {
      var init, last := pieces[..|pieces| - 1], pieces[|pieces| - 1];
      AnySplitCounts(init);
      var c := Counted(init);
      CountRightIff(c.0, c.1, |last|);
      CountAdds(c.0 + WORD_RANGE * c.1, 8 * |Concat(init)|, 8 * |last|);
    }
  }

  /** A first piece of 2^29 bytes is not counted at all. */
  lemma {:induction false} CountWrongExample()
    ensures AddLength(0, 0, 0x2000_0000) == (0, 0)
    ensures 8 * 0x2000_0000 % COUNT_RANGE == 0x1_0000_0000
  {
  }

  /** A message in pieces, hashed from SHA1Init to SHA1Final: its digest, whatever the cuts, if the pieces are short of
      2^29 bytes, and in any case the digest under the count of the pieces. */
  method Hash(pieces: seq<seq<Byte>>) returns (digest: array<Byte>)
    requires forall i :: 0 <= i < |pieces| ==> |pieces[i]| < WORD_RANGE - 128
    ensures fresh(digest) && digest.Length == 20
    ensures var c := Counted(pieces);
            digest[..] == DigestOf(Blocks(Pad(Concat(pieces), c.0 + WORD_RANGE * c.1)))
    ensures (forall i :: 0 <= i < |pieces| ==> |pieces[i]| < 0x2000_0000) ==> digest[..] == Digest(Concat(pieces))
  {
    hide Hashed; hide Blocks; hide DigestOf; hide Pad; hide AddLength;
    var context := new Context();
    for k := 0 to |pieces|
      invariant fresh(context) && fresh(context.state) && fresh(context.buffer) && context.Valid()
      invariant context.message == Concat(pieces[..k]) && (context.low, context.high) == Counted(pieces[..k])
    {
      assert pieces[..k + 1][..k] == pieces[..k];
      context.Update(pieces[k]);
    }
    assert pieces[..|pieces|] == pieces;
    digest := new Byte[20];
    context.Final(digest);
    if forall i :: 0 <= i < |pieces| ==> |pieces[i]| < 0x2000_0000 {
      AnySplitCounts(pieces);
    }
  }
}
