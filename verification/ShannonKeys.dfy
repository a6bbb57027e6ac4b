/** What enters the register of the Shannon cipher: keys, nonces and plaintext words that differ leave traces that
    differ. */
module ShannonKeys {
  import opened Words
  import opened Shannon

  // ---------------------------------------------------------------- a step of the register loses nothing

  lemma {:induction false} XorCancels(a: Word, b: Word, k: Word)
    requires XorW(a, k) == XorW(b, k)
    ensures a == b
  {
  }

  /** The lowest register is recovered from the feedback word. */
  lemma {:induction false} FeedbackCancels(a: Word, b: Word, r12: Word, r13: Word, konst: Word)
    requires Feedback(a, r12, r13, konst) == Feedback(b, r12, r13, konst)
    ensures a == b
  {
    hide Sbox1;
    RotationsCancel(Sbox1(r12 ^ r13 ^ konst), a, b);
  }

  lemma {:induction false} RotationsCancel(s: Word, a: Word, b: Word)
    requires s ^ a.RotateLeft(1) == s ^ b.RotateLeft(1)
    ensures a == b
  {
  }

  lemma {:induction false} CycledAt(R: Reg, konst: Word)
    ensures var C := Cycled(R, konst);
            && C[0] == XorW(R[1], Tap(C[2], C[15])) && C[15] == Feedback(R[0], R[12], R[13], konst)
            && forall i :: 1 <= i < 15 ==> C[i] == R[i + 1]
  {
    hide Feedback; hide Tap; hide XorW;
  }

  /** Different registers step to different registers. */
  lemma {:induction false} CycledInjective(R: Reg, S: Reg, konst: Word)
    requires Cycled(R, konst) == Cycled(S, konst)
    ensures R == S
  {
    hide Cycled; hide Feedback; hide Tap; hide XorW;
    CycledAt(R, konst);
    CycledAt(S, konst);
    var C := Cycled(R, konst);
    assert forall i :: 2 <= i < 16 ==> R[i] == C[i - 1] == S[i];
    XorCancels(R[1], S[1], Tap(C[2], C[15]));
    FeedbackCancels(R[0], S[0], R[12], R[13], konst);
  }

  lemma {:induction false} AddKeyInjective(R: Reg, S: Reg, k: Word)
    requires AddKey(R, k) == AddKey(S, k)
    ensures R == S
  {
    hide XorW;
    assert XorW(R[13], k) == AddKey(R, k)[13] == AddKey(S, k)[13] == XorW(S[13], k);
    XorCancels(R[13], S[13], k);
    assert forall i :: 0 <= i < 16 && i != 13 ==> R[i] == AddKey(R, k)[i] == AddKey(S, k)[i] == S[i];
  }

  /** Different words make different registers of one. */
  lemma {:induction false} AddKeysDiffer(R: Reg, k: Word, l: Word)
    requires k != l
    ensures AddKey(R, k)[13] != AddKey(R, l)[13]
  {
    XorDiffers(R[13], k, l);
  }

  lemma {:induction false} XorDiffers(a: Word, k: Word, l: Word)
    requires k != l
    ensures XorW(a, k) != XorW(a, l)
  {
  }

  lemma {:induction false} CrcsDiffer(CRC: Reg, k: Word, l: Word)
    requires k != l
    ensures Crc(CRC, k)[15] != Crc(CRC, l)[15]
  {
    hide XorW;
    XorDiffers(XorW(XorW(CRC[0], CRC[2]), CRC[15]), k, l);
  }

  // ---------------------------------------------------------------- keys and nonces

  /** The same words folded into different registers. */
  lemma {:induction false} AbsorbedInjective(R: Reg, S: Reg, konst: Word, ws: seq<Word>)
    requires R != S
    ensures Absorbed(R, konst, ws) != Absorbed(S, konst, ws)
  {
    hide Cycled; hide AddKey;
    if ws != [] {
      var init, w := ws[..|ws| - 1], ws[|ws| - 1];
      AbsorbedInjective(R, S, konst, init);
      var A, B := Absorbed(R, konst, init), Absorbed(S, konst, init);
      if Absorbed(R, konst, ws) == Absorbed(S, konst, ws) {
        CycledInjective(AddKey(A, w), AddKey(B, w), konst);
        AddKeyInjective(A, B, w);
      }
    }
  }

  /** Word sequences that differ in exactly one place, folded into one register. */
  lemma {:induction false} AbsorbedDiffer(R: Reg, konst: Word, ws: seq<Word>, vs: seq<Word>, i: nat)
    requires |ws| == |vs| && i < |ws| && ws[i] != vs[i] && forall k :: 0 <= k < |ws| && k != i ==> ws[k] == vs[k]
    ensures Absorbed(R, konst, ws) != Absorbed(R, konst, vs)
  {
    hide Cycled; hide AddKey;
    var n := |ws| - 1;
    var A, B := Absorbed(R, konst, ws[..n]), Absorbed(R, konst, vs[..n]);
    if i < n {
      AbsorbedDiffer(R, konst, ws[..n], vs[..n], i);
      if AddKey(A, ws[n]) == AddKey(B, vs[n]) {
        AddKeyInjective(A, B, ws[n]);
      }
    } else {
      assert ws[..n] == vs[..n];
      AddKeysDiffer(A, ws[n], vs[n]);
    }
    if Absorbed(R, konst, ws) == Absorbed(R, konst, vs) {
      CycledInjective(AddKey(A, ws[n]), AddKey(B, vs[n]), konst);
    }
  }

  /** Keys of one length whose differences lie in one of their words, word `i`. */
  ghost predicate DifferInWord(key: seq<Byte>, other: seq<Byte>, i: nat) {
    && |key| == |other| < 0x8000_0000 && key != other
    && forall k :: 0 <= k < |key| && k / 4 != i ==> key[k] == other[k]
  }

  lemma {:induction false} JoinsDiffer(a: seq<Byte>, b: seq<Byte>)
    requires |a| == |b| == 4 && a != b
    ensures Join(a[0], a[1], a[2], a[3]) != Join(b[0], b[1], b[2], b[3])
  {
    hide Join; hide Lane;
    LanesOfJoin(a[0], a[1], a[2], a[3]);
    LanesOfJoin(b[0], b[1], b[2], b[3]);
  }

  /** The four bytes of word `i`, zero padded. */
  function Four(key: seq<Byte>, i: nat): (b: seq<Byte>)
    ensures |b| == 4
  {
    [Padded(key, 4 * i), Padded(key, 4 * i + 1), Padded(key, 4 * i + 2), Padded(key, 4 * i + 3)]
  }

  lemma {:induction false} FourAt(key: seq<Byte>, i: nat, j: nat)
    requires j / 4 == i
    ensures Four(key, i)[j - 4 * i] == Padded(key, j)
  {
  }

  lemma {:induction false} SameFour(key: seq<Byte>, other: seq<Byte>, i: nat, k: nat)
    requires DifferInWord(key, other, i) && k != i
    ensures Four(key, k) == Four(other, k)
  {
    SamePadded(key, other, i, 4 * k);
    SamePadded(key, other, i, 4 * k + 1);
    SamePadded(key, other, i, 4 * k + 2);
    SamePadded(key, other, i, 4 * k + 3);
  }

  lemma {:induction false} SamePadded(key: seq<Byte>, other: seq<Byte>, i: nat, j: nat)
    requires DifferInWord(key, other, i) && j / 4 != i
    ensures Padded(key, j) == Padded(other, j)
  {
  }

  lemma {:induction false} WordIs(key: seq<Byte>, n: nat, k: nat)
    requires k < n
    ensures var b := Four(key, k); KeyWords(key, n)[k] == Join(b[0], b[1], b[2], b[3])
  {
    hide Join; hide Padded;
  }

  lemma {:induction false} WordsDiffer(key: seq<Byte>, other: seq<Byte>, i: nat)
    requires DifferInWord(key, other, i)
    ensures var n := (|key| + 3) / 4;
            && i < n && KeyWords(key, n)[i] != KeyWords(other, n)[i]
            && forall k :: 0 <= k < n && k != i ==> KeyWords(key, n)[k] == KeyWords(other, n)[k]
  {
    hide Join; hide KeyWords; hide Four; hide Padded;
    var n := (|key| + 3) / 4;
    var j := FirstDifference(key, other);
    assert j / 4 == i < n;
    FourAt(key, i, j);
    FourAt(other, i, j);
    WordIs(key, n, i);
    WordIs(other, n, i);
    JoinsDiffer(Four(key, i), Four(other, i));
    forall k | 0 <= k < n && k != i
      ensures KeyWords(key, n)[k] == KeyWords(other, n)[k]
    {
      WordIs(key, n, k);
      WordIs(other, n, k);
      SameFour(key, other, i, k);
    }
  }

  lemma {:induction false} FirstDifference(key: seq<Byte>, other: seq<Byte>) returns (j: nat)
    requires |key| == |other| && key != other
    ensures j < |key| && Padded(key, j) == key[j] != other[j] == Padded(other, j)
  {
    j :| j < |key| && key[j] != other[j];
  }

  /** Two keys that differ in one word leave different registers: every word of a key enters the register. */
  lemma {:induction false} LoadedDiffer(R: Reg, konst: Word, key: seq<Byte>, other: seq<Byte>, i: nat)
    requires DifferInWord(key, other, i)
    ensures Loaded(R, konst, key) != Loaded(R, konst, other)
  {
    hide KeyWords; hide Absorbed;
    WordsDiffer(key, other, i);
    var n := (|key| + 3) / 4;
    AbsorbedDiffer(R, konst, KeyWords(key, n) + [Length(key)], KeyWords(other, n) + [Length(other)], i);
  }

  /** Keyed from one register, states under such keys differ in the register the MAC starts from. */
  lemma {:induction false} KeyedDiffer(R: Reg, initR: Reg, key: seq<Byte>, other: seq<Byte>, i: nat)
    requires DifferInWord(key, other, i)
    ensures Keyed(R, initR, key).CRC != Keyed(R, initR, other).CRC
  {
    hide Loaded; hide Diffused; hide KeyStream; hide XorReg;
    LoadedDiffer(R, INITKONST, key, other, i);
  }

  // ---------------------------------------------------------------- the plaintext

  /** Different plaintext words make different registers of one state, and different checksums. */
  lemma {:induction false} PlainWordsDiffer(s: State, a: seq<Byte>, b: seq<Byte>)
    requires |a| == |b| == 4 && a != b && s.nbuf == 0
    ensures Run(s, a, Encrypting).ctx.R != Run(s, b, Encrypting).ctx.R
    ensures Run(s, a, Encrypting).ctx.CRC != Run(s, b, Encrypting).ctx.CRC
  {
    hide Run; hide Refilled; hide AddKey; hide Crc; hide Join; hide WordBytes;
    WordStep(s, a, Encrypting);
    WordStep(s, b, Encrypting);
    JoinsDiffer(a, b);
    var c := Refilled(s);
    AddKeysDiffer(c.R, WordAt(a, 0), WordAt(b, 0));
    CrcsDiffer(c.CRC, WordAt(a, 0), WordAt(b, 0));
  }

  /** The same word from different registers. */
  lemma {:induction false} SameWord(s: State, t: State, a: seq<Byte>)
    requires |a| == 4 && s.nbuf == t.nbuf == 0 && s.konst == t.konst && s.R != t.R
    ensures var u, v := Run(s, a, Encrypting).ctx, Run(t, a, Encrypting).ctx;
            u.R != v.R && u.nbuf == v.nbuf == 0 && u.konst == v.konst == s.konst
  {
    hide Run; hide Cycled; hide KeyStream; hide AddKey; hide Crc; hide Join; hide WordBytes;
    WordStep(s, a, Encrypting);
    WordStep(t, a, Encrypting);
    var w := WordAt(a, 0);
    if AddKey(Cycled(s.R, s.konst), w) == AddKey(Cycled(t.R, t.konst), w) {
      AddKeyInjective(Cycled(s.R, s.konst), Cycled(t.R, t.konst), w);
      CycledInjective(s.R, t.R, s.konst);
    }
  }

  lemma {:induction false} SameWords(s: State, t: State, a: seq<Byte>)
    requires |a| % 4 == 0 && s.nbuf == t.nbuf == 0 && s.konst == t.konst && s.R != t.R
    ensures var u, v := Run(s, a, Encrypting).ctx, Run(t, a, Encrypting).ctx;
            u.R != v.R && u.nbuf == v.nbuf == 0 && u.konst == v.konst == s.konst
    decreases |a|
  {
    hide Run;
    if a == [] {
      RunNone(s, Encrypting);
      RunNone(t, Encrypting);
    } else {
      var n := |a| - 4;
      SameWords(s, t, a[..n]);
      SameWord(Run(s, a[..n], Encrypting).ctx, Run(t, a[..n], Encrypting).ctx, a[n..]);
      RunInPieces(s, a[..n], a[n..], Encrypting);
      RunInPieces(t, a[..n], a[n..], Encrypting);
      assert a[..n] + a[n..] == a;
    }
  }

  /** Texts of whole words that differ in one of them leave different registers, from which their MACs are read. */
  lemma {:induction false} TextsDiffer(s: State, before: seq<Byte>, a: seq<Byte>, b: seq<Byte>, behind: seq<Byte>)
    requires s.nbuf == 0 && |before| % 4 == 0 && |a| == |b| == 4 && a != b && |behind| % 4 == 0
    ensures Run(s, before + a + behind, Encrypting).ctx.R != Run(s, before + b + behind, Encrypting).ctx.R
  {
    hide Run;
    WholeWords(s, before);
    var t := Run(s, before, Encrypting).ctx;
    WholeWords(t, a);
    WholeWords(t, b);
    PlainWordsDiffer(t, a, b);
    SameWords(Run(t, a, Encrypting).ctx, Run(t, b, Encrypting).ctx, behind);
    RunInPieces(s, before, a, Encrypting);
    RunInPieces(s, before, b, Encrypting);
    RunInPieces(s, before + a, behind, Encrypting);
    RunInPieces(s, before + b, behind, Encrypting);
  }

  lemma {:induction false} WholeWords(s: State, a: seq<Byte>)
    requires s.nbuf == 0 && |a| % 4 == 0
    ensures Run(s, a, Encrypting).ctx.nbuf == 0 && Run(s, a, Encrypting).ctx.konst == s.konst
    decreases |a|
  {
    hide Run; hide Cycled; hide KeyStream; hide AddKey; hide Crc; hide Join; hide WordBytes;
    if a == [] {
      RunNone(s, Encrypting);
    } else {
      var n := |a| - 4;
      WholeWords(s, a[..n]);
      WordStep(Run(s, a[..n], Encrypting).ctx, a[n..], Encrypting);
      RunInPieces(s, a[..n], a[n..], Encrypting);
      assert a[..n] + a[n..] == a;
    }
  }
}
