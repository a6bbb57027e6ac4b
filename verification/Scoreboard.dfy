/** The requests two threads share: what each locked section does to the list, and every interleaving of the two
    threads. */
module Scoreboard {
  import opened Basics

  datatype State = New | Running | Returned | Processed

  function Rank(s: State): nat {
    match s
    case New => 0
    case Running => 1
    case Returned => 2
    case Processed => 3
  }

  datatype Slot<R> = Slot(req: R, state: State)

  /** The list of requests, in its order. */
  type Board<R> = seq<Slot<R>>

  // ---------------------------------------------------------------- the locked sections

  function Posted<R>(b: Board<R>, r: R, s: State): Board<R> {
    b + [Slot(r, s)]
  }

  function WithState<R(==)>(b: Board<R>, r: R, s: State): (c: Board<R>)
    ensures |c| == |b| && forall i :: 0 <= i < |b| ==> c[i] == if b[i].req == r then Slot(r, s) else b[i]
  {
    seq(|b|, i requires 0 <= i < |b| => if b[i].req == r then Slot(r, s) else b[i])
  }

  /** The requests that are not processed yet, in their order. */
  function Cleaned<R>(b: Board<R>): Board<R> {
    if b == [] then []
    else if b[0].state == Processed then Cleaned(b[1..])
    else [b[0]] + Cleaned(b[1..])
  }

  function FirstReturned<R>(b: Board<R>): Option<R> {
    if b == [] then None
    else if b[0].state == Returned then Some(b[0].req)
    else FirstReturned(b[1..])
  }

  /** The request that follows `r` in the list. */
  function NextOf<R(==)>(b: Board<R>, r: R): Option<R> {
    if b == [] then None
    else if b[0].req == r then (if |b| > 1 then Some(b[1].req) else None)
    else NextOf(b[1..], r)
  }

  ghost predicate Unique<R>(b: Board<R>) {
    forall i, j :: 0 <= i < j < |b| ==> b[i].req != b[j].req
  }

  predicate Listed<R(==)>(b: Board<R>, r: R) {
    exists i :: 0 <= i < |b| && b[i].req == r
  }

  ghost predicate InState<R>(b: Board<R>, r: R, s: State) {
    exists i :: 0 <= i < |b| && b[i] == Slot(r, s)
  }

  // ---------------------------------------------------------------- the two threads

  /** The main thread in sp_session_process_events: it has fetched a result, or has dispatched it too. */
  datatype Main<R> = Idle | Fetched(r: R) | Dispatched(r: R)

  /** The I/O thread: about to clean up, about to load the head of the list, at a request of its scan, handling a
      request, reading packets, or following a pointer that it read from memory nobody has written. */
  datatype Io<R> = Starting | Heading | Scanning(at: Option<R>) | Handling(r: R) | Reading | Astray

  datatype Poster = IoThread | Other

  /** A request that its poster has linked, with the lock held, and not filled yet: its `next` has not been stored, and
      its state only if `stored` holds. */
  datatype Pending<R> = Pending(req: R, state: State, stored: bool, poster: Poster)

  datatype System<R> =
    System(board: Board<R>, pending: Option<Pending<R>>, main: Main<R>, io: Io<R>, dispatched: seq<R>, freed: set<R>)

  /** Posting takes three steps: the node is linked, its state is stored, its `next` is stored and the lock released. */
  datatype Step<R> =
    | Link(r: R, state: State, poster: Poster)
    | FillState
    | Fill
    | MainFetch
    | MainDispatch
    | MainMark
    | IoCleanup
    | IoHead
    | IoLook(due: bool)
    | IoRun
    | IoSetResult(r: R)
    | IoDone
    | IoRead
    | IoAgain

  /** What a walk along the list comes by: the requests and the one that is linked and not filled yet. */
  function Chain<R>(s: System<R>): Board<R> {
    if s.pending.Some? then Posted(s.board, s.pending.value.req, s.pending.value.state) else s.board
  }

  predicate Unfilled<R(==)>(s: System<R>, r: R) {
    s.pending.Some? && s.pending.value.req == r
  }

  /** The I/O thread is not itself posting. */
  predicate IoFree<R>(s: System<R>) {
    s.pending.Some? ==> s.pending.value.poster == Other
  }

  /** The scan reads a state without a result: any value may be read where none was stored. */
  ghost predicate ReadsDue<R>(s: System<R>, r: R) {
    || InState(Chain(s), r, New)
    || InState(Chain(s), r, Running)
    || (Unfilled(s, r) && !s.pending.value.stored)
  }

  /** When a step can be taken: a locked section when the lock is free, anything else at any time. Allocation never
      gives out a request that was given out before, and results are set on requests that have none yet. */
  ghost predicate Enabled<R>(s: System<R>, t: Step<R>) {
    match t
    case Link(r, st, poster) =>
      && s.pending.None? && !Listed(s.board, r) && r !in s.freed && (st == New || st == Returned)
      && (poster == IoThread ==> s.io.Handling? || s.io.Reading?)
    case FillState => s.pending.Some? && !s.pending.value.stored
    case Fill => s.pending.Some? && s.pending.value.stored
    case MainFetch => s.pending.None? && s.main.Idle?
    case MainDispatch => s.main.Fetched?
    case MainMark => s.pending.None? && s.main.Dispatched?
    case IoCleanup => s.pending.None? && s.io.Starting?
    case IoHead => s.io.Heading?
    case IoLook(_) => s.io.Scanning? && s.io.at.Some?
    case IoRun =>
      && s.io.Handling? && IoFree(s)
      && (InState(Chain(s), s.io.r, New) || (Unfilled(s, s.io.r) && !s.pending.value.stored))
    case IoSetResult(r) =>
      && s.pending.None? && (s.io.Handling? || s.io.Reading?)
      && (InState(s.board, r, New) || InState(s.board, r, Running))
    case IoDone => s.io.Handling? && IoFree(s)
    case IoRead => s.io.Scanning? && s.io.at.None?
    case IoAgain => s.io.Reading? && IoFree(s)
  }

  ghost function Freed<R>(b: Board<R>): set<R> {
    set i | 0 <= i < |b| && b[i].state == Processed :: b[i].req
  }

  /** The scan follows the `next` of a request, which is not to be relied on before it was stored. */
  function MoveOn<R(==)>(s: System<R>, r: R): Io<R> {
    if Unfilled(s, r) then Astray else Scanning(NextOf(Chain(s), r))
  }

  /** The handler stores RUNNING in its request; before the poster's own store this leaves nothing. */
  function Started<R(==)>(s: System<R>, r: R): System<R> {
    if !Unfilled(s, r) then s.(board := WithState(s.board, r, Running))
    else if s.pending.value.stored then s.(pending := Some(s.pending.value.(state := Running)))
    else s
  }

  ghost function Apply<R>(s: System<R>, t: Step<R>): System<R>
    requires Enabled(s, t)
  {
    match t
    case Link(r, st, poster) => s.(pending := Some(Pending(r, st, false, poster)))
    case FillState => s.(pending := Some(s.pending.value.(stored := true)))
    case Fill => s.(board := Posted(s.board, s.pending.value.req, s.pending.value.state), pending := None)
    case MainFetch =>
      var f := FirstReturned(s.board);
      if f.Some? then s.(main := Fetched(f.value)) else s
    case MainDispatch => s.(main := Dispatched(s.main.r), dispatched := s.dispatched + [s.main.r])
    case MainMark => s.(main := Idle, board := WithState(s.board, s.main.r, Processed))
    case IoCleanup => s.(board := Cleaned(s.board), freed := s.freed + Freed(s.board), io := Heading)
    case IoHead => s.(io := Scanning(if Chain(s) == [] then None else Some(Chain(s)[0].req)))
    case IoLook(due) =>
      s.(io := if due && ReadsDue(s, s.io.at.value) then Handling(s.io.at.value) else MoveOn(s, s.io.at.value))
    case IoRun => Started(s, s.io.r)
    case IoSetResult(r) => s.(board := WithState(s.board, r, Returned))
    case IoDone => s.(io := MoveOn(s, s.io.r))
    case IoRead => s.(io := Reading)
    case IoAgain => s.(io := Starting)
  }

  ghost predicate Initial<R>(s: System<R>) {
    s == System([], None, Idle, Starting, [], {})
  }

  // ---------------------------------------------------------------- what every interleaving keeps

  /** No request is listed twice or after it was freed; what a thread points at is listed; a result is dispatched
      before it is processed or freed, once, and only the main thread's own request is dispatched and not yet
      processed. */
  ghost predicate Good<R>(s: System<R>) {
    var c := Chain(s);
    && Unique(c)
    && (forall i :: 0 <= i < |c| ==> c[i].req !in s.freed)
    && (s.pending.Some? ==> s.pending.value.state != Processed)
    && (s.main.Fetched? ==> InState(s.board, s.main.r, Returned) && s.main.r !in s.dispatched)
    && (s.main.Dispatched? ==> InState(s.board, s.main.r, Returned) && s.main.r in s.dispatched)
    && (s.io.Scanning? && s.io.at.Some? ==> Listed(c, s.io.at.value))
    && (s.io.Handling? ==> Listed(c, s.io.r))
    && (forall i :: 0 <= i < |c| ==>
          (c[i].req in s.dispatched <==> c[i].state == Processed || s.main == Dispatched(c[i].req)))
    && (forall r :: r in s.freed ==> r in s.dispatched)
    && (forall i, j :: 0 <= i < j < |s.dispatched| ==> s.dispatched[i] != s.dispatched[j])
    && (forall r :: r in s.dispatched ==> r in s.freed || Listed(c, r))
  }

  // ---------------------------------------------------------------- facts about the list

  lemma {:induction false} CleanedSlots<R>(b: Board<R>)
    ensures forall x :: x in Cleaned(b) <==> x in b && x.state != Processed
  {
    if b != [] {
      CleanedSlots(b[1..]);
      assert b == [b[0]] + b[1..];
    }
  }

  /** Where a slot that is left was in the list. */
  lemma {:induction false} CleanedFrom<R>(b: Board<R>, i: nat) returns (j: nat)
    requires i < |Cleaned(b)|
    ensures j < |b| && b[j] == Cleaned(b)[i] && b[j].state != Processed
  {
    if b[0].state == Processed {
      j := CleanedFrom(b[1..], i);
      j := j + 1;
    } else if i == 0 {
      j := 0;
    } else {
      j := CleanedFrom(b[1..], i - 1);
      j := j + 1;
    }
  }

  lemma {:induction false} CleanedUnique<R>(b: Board<R>)
    requires Unique(b)
    ensures Unique(Cleaned(b))
  {
    if b != [] {
      var tail := b[1..];
      CleanedUnique(tail);
      forall i: nat | i < |Cleaned(tail)|
        ensures Cleaned(tail)[i].req != b[0].req
      {
        var j := CleanedFrom(tail, i);
        assert b[j + 1].req == Cleaned(tail)[i].req;
      }
    }
  }

  /** The request that follows is the next one of the list. */
  lemma {:induction false} NextOfIs<R>(b: Board<R>, i: nat)
    requires Unique(b) && i < |b|
    ensures NextOf(b, b[i].req) == if i + 1 < |b| then Some(b[i + 1].req) else None
  {
    if i > 0 {
      NextOfIs(b[1..], i - 1);
      assert b[1..][i - 1] == b[i];
    }
  }

  /** A cleanup takes out what is processed and nothing else, wherever the list is cut. */
  lemma {:induction false} CleanedInPieces<R>(a: Board<R>, b: Board<R>)
    ensures Cleaned(a + b) == Cleaned(a) + Cleaned(b)
  {
    if a == [] {
      assert a + b == b;
    } else {
      CleanedInPieces(a[1..], b);
      assert (a + b)[1..] == a[1..] + b && (a + b)[0] == a[0];
    }
  }

  lemma {:induction false} NextListed<R>(b: Board<R>, r: R)
    ensures NextOf(b, r).Some? ==> Listed(b, NextOf(b, r).value)
  {
    if b != [] {
      NextListed(b[1..], r);
      if NextOf(b, r).Some? {
        if b[0].req == r {
          assert b[1].req == NextOf(b, r).value;
        } else {
          var i :| 0 <= i < |b[1..]| && b[1..][i].req == NextOf(b, r).value;
          assert b[i + 1].req == NextOf(b, r).value;
        }
      }
    }
  }

  lemma {:induction false} FirstReturnedIs<R>(b: Board<R>)
    ensures FirstReturned(b).Some? ==>
              exists i :: 0 <= i < |b| && b[i] == Slot(FirstReturned(b).value, Returned) && forall j :: 0 <= j < i ==>
                b[j].state != Returned
    ensures FirstReturned(b).None? ==> forall i :: 0 <= i < |b| ==> b[i].state != Returned
  {
    if b != [] && b[0].state != Returned {
      FirstReturnedIs(b[1..]);
      if FirstReturned(b).Some? {
        var i :| 0 <= i < |b[1..]| && b[1..][i] == Slot(FirstReturned(b).value, Returned) && forall j :: 0 <= j < i ==>
          b[1..][j].state != Returned;
        assert b[i + 1] == Slot(FirstReturned(b).value, Returned);
        forall j | 0 <= j < i + 1
          ensures b[j].state != Returned
        {
          assert j > 0 ==> b[j] == b[1..][j - 1];
        }
      }
    } else if b != [] {
      assert b[0] == Slot(FirstReturned(b).value, Returned);
    }
  }

  // ---------------------------------------------------------------- every step keeps the invariant

  lemma {:induction false} LinkKeeps<R>(s: System<R>, t: Step<R>)
    requires Good(s) && t.Link? && Enabled(s, t)
    ensures Good(Apply(s, t))
  {
    var b, c, n := s.board, Chain(Apply(s, t)), |s.board|;
    assert forall i :: 0 <= i < n ==> c[i] == b[i];
    assert c[n] == Slot(t.r, t.state);
    assert t.r !in s.dispatched;
    KeepsSlots(b, c);
    if !s.main.Idle? {
      StateListed(b, s.main.r, Returned);
    }
  }

  lemma {:induction false} FillKeeps<R>(s: System<R>, t: Step<R>)
    requires Good(s) && (t.FillState? || t.Fill?) && Enabled(s, t)
    ensures Good(Apply(s, t)) && Chain(Apply(s, t)) == Chain(s)
  {
    KeepsSlots(s.board, Chain(s));
  }

  /** What was listed in some state still is. */
  lemma {:induction false} KeepsSlots<R>(b: Board<R>, c: Board<R>)
    requires |b| <= |c| && forall i :: 0 <= i < |b| ==> c[i] == b[i]
    ensures forall r, st :: InState(b, r, st) ==> InState(c, r, st)
    ensures forall r :: Listed(b, r) ==> Listed(c, r)
  {
    forall r, st | InState(b, r, st)
      ensures InState(c, r, st)
    {
      var i :| 0 <= i < |b| && b[i] == Slot(r, st);
      assert c[i] == Slot(r, st);
    }
    forall r | Listed(b, r)
      ensures Listed(c, r)
    {
      var i :| 0 <= i < |b| && b[i].req == r;
      assert c[i].req == r;
    }
  }

  lemma {:induction false} StateListed<R>(b: Board<R>, r: R, st: State)
    requires InState(b, r, st)
    ensures Listed(b, r)
  {
    var i :| 0 <= i < |b| && b[i] == Slot(r, st);
    assert b[i].req == r;
  }

  lemma {:induction false} WithStateSlots<R>(b: Board<R>, r: R, st: State)
    requires Unique(b)
    ensures Unique(WithState(b, r, st))
    ensures forall q :: Listed(WithState(b, r, st), q) <==> Listed(b, q)
    ensures forall q, x :: q != r ==> (InState(WithState(b, r, st), q, x) <==> InState(b, q, x))
    ensures Listed(b, r) ==> InState(WithState(b, r, st), r, st)
  {
    var c := WithState(b, r, st);
    forall q
      ensures Listed(c, q) <==> Listed(b, q)
    {
      if Listed(b, q) {
        var i :| 0 <= i < |b| && b[i].req == q;
        assert c[i].req == q;
      }
      if Listed(c, q) {
        var i :| 0 <= i < |c| && c[i].req == q;
        assert b[i].req == q;
      }
    }
    forall q, x | q != r
      ensures InState(c, q, x) <==> InState(b, q, x)
    {
      if InState(b, q, x) {
        var i :| 0 <= i < |b| && b[i] == Slot(q, x);
        assert c[i] == Slot(q, x);
      }
      if InState(c, q, x) {
        var i :| 0 <= i < |c| && c[i] == Slot(q, x);
        assert b[i] == Slot(q, x);
      }
    }
    if Listed(b, r) {
      var i :| 0 <= i < |b| && b[i].req == r;
      assert c[i] == Slot(r, st);
    }
  }

  /** Two slots of one request are the same slot. */
  lemma {:induction false} OneState<R>(b: Board<R>, r: R, x: State, y: State)
    requires Unique(b) && InState(b, r, x) && InState(b, r, y)
    ensures x == y
  {
    var i :| 0 <= i < |b| && b[i] == Slot(r, x);
    var j :| 0 <= j < |b| && b[j] == Slot(r, y);
    assert b[i].req == b[j].req;
  }

  lemma {:induction false} SetChain<R>(s: System<R>, r: R, st: State)
    requires !Unfilled(s, r)
    ensures Chain(s.(board := WithState(s.board, r, st))) == WithState(Chain(s), r, st)
  {
  }

  /** The main thread's request has its result, so it is not one whose result is being set. */
  lemma {:induction false} SetMain<R>(s: System<R>, r: R, x: State, st: State)
    requires Good(s) && !s.main.Idle? && InState(s.board, r, x) && (x == New || x == Running)
    ensures s.main.r != r && InState(WithState(s.board, r, st), s.main.r, Returned)
  {
    var b, c := s.board, Chain(s);
    assert forall i :: 0 <= i < |b| ==> c[i] == b[i];
    if s.main.r == r {
      OneState(b, r, x, Returned);
    }
    WithStateSlots(b, r, st);
  }

  /** A request without a result has not been dispatched. */
  lemma {:induction false} DueSlot<R>(s: System<R>, r: R, x: State)
    requires Good(s) && InState(s.board, r, x) && (x == New || x == Running)
    ensures Listed(Chain(s), r) && r !in s.dispatched
  {
    var k :| 0 <= k < |s.board| && s.board[k] == Slot(r, x);
    assert Chain(s)[k] == Slot(r, x);
    assert s.main == Dispatched(r) ==> s.main.r == r;
    if s.main == Dispatched(r) {
      SetMain(s, r, x, x);
    }
  }

  /** Setting a state short of PROCESSED on a request that has no result leaves the main thread's request alone. */
  lemma {:induction false} SetKeeps<R>(s: System<R>, r: R, st: State)
    requires Good(s) && (InState(s.board, r, New) || InState(s.board, r, Running)) && (st == Running || st == Returned)
    requires !Unfilled(s, r)
    ensures Good(s.(board := WithState(s.board, r, st)))
    ensures Chain(s.(board := WithState(s.board, r, st))) == WithState(Chain(s), r, st)
  {
    var x, c, z := if InState(s.board, r, New) then New else Running, Chain(s), s.(board := WithState(s.board, r, st));
    assert InState(s.board, r, x);
    SetChain(s, r, st);
    DueSlot(s, r, x);
    WithStateSlots(c, r, st);
    if !s.main.Idle? {
      SetMain(s, r, x, st);
    }
    hide Chain; hide Listed; hide InState; hide Unique;
    assert Chain(z) == WithState(c, r, st);
  }

  /** The same for a request whose poster has stored its state and not yet its `next`. */
  lemma {:induction false} StartKeeps<R>(s: System<R>, r: R)
    requires Good(s) && Unfilled(s, r) && s.pending.value.stored && s.pending.value.state == New
    ensures Good(Started(s, r)) && Chain(Started(s, r)) == WithState(Chain(s), r, Running)
  {
    var c := Chain(s);
    WithStateSlots(c, r, Running);
    assert c[|s.board|].req == r;
    assert Chain(Started(s, r)) == WithState(c, r, Running);
    assert forall i :: 0 <= i < |s.board| ==> c[i].req != r;
  }

  lemma {:induction false} RunStepKeeps<R>(s: System<R>)
    requires Good(s) && Enabled(s, IoRun)
    ensures Good(Apply(s, IoRun))
    ensures Apply(s, IoRun) == s
         || (InState(Chain(s), s.io.r, New) && Chain(Apply(s, IoRun)) == WithState(Chain(s), s.io.r, Running))
  {
    var r, c := s.io.r, Chain(s);
    if !Unfilled(s, r) {
      NotPending(s, r, New);
      SetKeeps(s, r, Running);
    } else if s.pending.value.stored {
      assert c[|s.board|] == Slot(r, s.pending.value.state);
      assert InState(c, r, s.pending.value.state);
      OneState(c, r, New, s.pending.value.state);
      StartKeeps(s, r);
    }
  }

  lemma {:induction false} NotPending<R>(s: System<R>, r: R, st: State)
    requires InState(Chain(s), r, st) && !Unfilled(s, r)
    ensures InState(s.board, r, st)
  {
    var i :| 0 <= i < |Chain(s)| && Chain(s)[i] == Slot(r, st);
    assert s.board[i] == Slot(r, st);
  }

  lemma {:induction false} MarkKeeps<R>(s: System<R>)
    requires Good(s) && s.pending.None? && s.main.Dispatched?
    ensures Good(s.(main := Idle, board := WithState(s.board, s.main.r, Processed)))
  {
    StateListed(s.board, s.main.r, Returned);
    WithStateSlots(s.board, s.main.r, Processed);
  }

  lemma {:induction false} FetchKeeps<R>(s: System<R>)
    requires Good(s) && Enabled(s, MainFetch)
    ensures Good(Apply(s, MainFetch))
  {
    FirstReturnedIs(s.board);
    if FirstReturned(s.board).Some? {
      var i :| 0 <= i < |s.board| && s.board[i] == Slot(FirstReturned(s.board).value, Returned);
      assert s.board[i].req !in s.dispatched;
    }
  }

  lemma {:induction false} DispatchKeeps<R>(s: System<R>)
    requires Good(s) && s.main.Fetched?
    ensures Good(Apply(s, MainDispatch))
  {
    KeepsSlots(s.board, Chain(s));
    StateListed(Chain(s), s.main.r, Returned);
    var k :| 0 <= k < |s.board| && s.board[k] == Slot(s.main.r, Returned);
    assert Chain(s)[k] == s.board[k];
  }

  lemma {:induction false} CleanedStates<R>(b: Board<R>)
    ensures forall r, st :: InState(Cleaned(b), r, st) <==> InState(b, r, st) && st != Processed
    ensures forall r :: Listed(b, r) ==> Listed(Cleaned(b), r) || r in Freed(b)
    ensures forall r :: r in Freed(b) ==> InState(b, r, Processed)
  {
    CleanedSlots(b);
    var c := Cleaned(b);
    forall r, st
      ensures InState(c, r, st) <==> InState(b, r, st) && st != Processed
    {
      assert InState(c, r, st) <==> Slot(r, st) in c;
      assert InState(b, r, st) <==> Slot(r, st) in b;
    }
    forall r | Listed(b, r) && r !in Freed(b)
      ensures Listed(c, r)
    {
      var j :| 0 <= j < |b| && b[j].req == r;
      assert b[j] in b;
      assert b[j] in c;
      var k :| 0 <= k < |c| && c[k] == b[j];
      assert c[k].req == r;
    }
  }

  /** A cleanup frees processed requests only, which have been dispatched and which no thread points at. */
  lemma {:induction false} CleanupKeeps<R>(s: System<R>)
    requires Good(s) && Enabled(s, IoCleanup)
    ensures Good(Apply(s, IoCleanup))
  {
    var b, f := Cleaned(s.board), Freed(s.board);
    CleanedStates(s.board);
    CleanedUnique(s.board);
    hide Freed; hide Cleaned;
    forall i | 0 <= i < |b|
      ensures b[i].req !in s.freed + f && (b[i].req in s.dispatched <==>
                b[i].state == Processed || s.main == Dispatched(b[i].req))
    {
      assert b[i] == Slot(b[i].req, b[i].state);
      assert InState(b, b[i].req, b[i].state);
      CleanedSlot(s, b[i].req, b[i].state);
    }
    forall r | r in f
      ensures r in s.dispatched
    {
      var j :| 0 <= j < |s.board| && s.board[j] == Slot(r, Processed);
      assert s.board[j].req in s.dispatched;
    }
  }

  lemma {:induction false} CleanedSlot<R>(s: System<R>, r: R, st: State)
    requires Good(s) && s.pending.None? && InState(s.board, r, st) && st != Processed
    ensures r !in s.freed && r !in Freed(s.board) && (r in s.dispatched <==> s.main == Dispatched(r))
  {
    var j :| 0 <= j < |s.board| && s.board[j] == Slot(r, st);
    assert s.board[j].req == r;
    CleanedStates(s.board);
    if r in Freed(s.board) {
      OneState(s.board, r, st, Processed);
    }
  }

  lemma {:induction false} IoKeeps<R>(s: System<R>, t: Step<R>)
    requires Good(s) && Enabled(s, t) && (t.IoHead? || t.IoLook? || t.IoDone? || t.IoRead? || t.IoAgain?)
    ensures Good(Apply(s, t)) && Chain(Apply(s, t)) == Chain(s)
  {
    var c := Chain(s);
    if t.IoHead? && c != [] {
      assert Listed(c, c[0].req);
    } else if t.IoLook? {
      NextListed(c, s.io.at.value);
    } else if t.IoDone? {
      NextListed(c, s.io.r);
    }
  }

  /** Every step of either thread keeps the invariant. */
  lemma {:induction false} StepKeeps<R>(s: System<R>, t: Step<R>)
    requires Good(s) && Enabled(s, t)
    ensures Good(Apply(s, t))
  {
    hide Good; hide InState; hide Listed; hide Chain;
    match t
    case Link(_, _, _) => LinkKeeps(s, t);
    case FillState => FillKeeps(s, t);
    case Fill => FillKeeps(s, t);
    case MainFetch => FetchKeeps(s);
    case MainDispatch => DispatchKeeps(s);
    case MainMark => MarkKeeps(s);
    case IoCleanup => CleanupKeeps(s);
    case IoRun => RunStepKeeps(s);
    case IoSetResult(r) => SetKeeps(s, r, Returned);
    case _ => IoKeeps(s, t);
  }

  // ---------------------------------------------------------------- whole runs

  ghost predicate Allowed<R>(s: System<R>, steps: seq<Step<R>>)
    decreases |steps|
  {
    steps == [] || (Enabled(s, steps[0]) && Allowed(Apply(s, steps[0]), steps[1..]))
  }

  ghost function Run<R>(s: System<R>, steps: seq<Step<R>>): System<R>
    requires Allowed(s, steps)
    decreases |steps|
  {
    if steps == [] then s else Run(Apply(s, steps[0]), steps[1..])
  }

  lemma {:induction false} RunKeeps<R>(s: System<R>, steps: seq<Step<R>>)
    requires Good(s) && Allowed(s, steps)
    ensures Good(Run(s, steps))
    decreases |steps|
  {
    hide Good; hide Enabled; hide Apply;
    if steps != [] {
      StepKeeps(s, steps[0]);
      RunKeeps(Apply(s, steps[0]), steps[1..]);
    }
  }

  /** The step takes the scan past a request that is linked and not filled yet. */
  ghost predicate LeavesUnfilled<R>(s: System<R>, t: Step<R>)
    requires Enabled(s, t)
  {
    || (t.IoLook? && Unfilled(s, s.io.at.value) && !(t.due && ReadsDue(s, s.io.at.value)))
    || (t.IoDone? && Unfilled(s, s.io.r))
  }

  /** Some step of the run does so. */
  ghost predicate Races<R>(s: System<R>, steps: seq<Step<R>>)
    requires Allowed(s, steps)
    decreases |steps|
  {
    steps != [] && (LeavesUnfilled(s, steps[0]) || Races(Apply(s, steps[0]), steps[1..]))
  }

  /** The scan stands at no request or at one that is listed and allocated. */
  ghost predicate ScanSafe<R>(s: System<R>) {
    match s.io
    case Scanning(Some(r)) => Listed(Chain(s), r) && r !in s.freed
    case Handling(r) => Listed(Chain(s), r) && r !in s.freed
    case Astray => false
    case _ => true
  }

  lemma {:induction false} AstrayIff<R>(s: System<R>, steps: seq<Step<R>>)
    requires Allowed(s, steps)
    ensures Run(s, steps).io.Astray? <==> s.io.Astray? || Races(s, steps)
    decreases |steps|
  {
    if steps != [] {
      AstrayStep(s, steps[0]);
      AstrayIff(Apply(s, steps[0]), steps[1..]);
    }
  }

  lemma {:induction false} AstrayStep<R>(s: System<R>, t: Step<R>)
    requires Enabled(s, t)
    ensures Apply(s, t).io.Astray? <==> s.io.Astray? || LeavesUnfilled(s, t)
  {
  }

  /** In every run of the two threads: no result is dispatched twice, nothing is freed before its result is dispatched,
      the request that the main thread holds is still allocated, and so is the one at which the I/O thread's scan
      stands if and only if no step of the run took the scan past a request that was linked and not filled yet. */
  lemma {:induction false} Safety<R>(s: System<R>, steps: seq<Step<R>>)
    requires Initial(s) && Allowed(s, steps)
    ensures var e := Run(s, steps);
            && (forall i, j :: 0 <= i < j < |e.dispatched| ==> e.dispatched[i] != e.dispatched[j])
            && (forall r :: r in e.freed ==> r in e.dispatched && !Listed(Chain(e), r))
            && (!e.main.Idle? ==> e.main.r !in e.freed && InState(e.board, e.main.r, Returned))
    ensures ScanSafe(Run(s, steps)) <==> !Races(s, steps)
  {
    hide Allowed; hide Run; hide Races;
    RunKeeps(s, steps);
    AstrayIff(s, steps);
    var e := Run(s, steps);
    KeepsSlots(e.board, Chain(e));
    if !e.main.Idle? {
      StateListed(Chain(e), e.main.r, Returned);
    }
  }

  /** A run in which it did: the scan starts between the link and the stores of the first request. */
  lemma {:induction false} RaceRun<R>(r: R) returns (s: System<R>, steps: seq<Step<R>>)
    ensures Initial(s) && Allowed(s, steps) && Races(s, steps) && Run(s, steps).io.Astray?
  {
    s := System([], None, Idle, Starting, [], {});
    var s1 := s.(io := Heading);
    var s2 := s1.(pending := Some(Pending(r, New, false, Other)));
    var s3 := s2.(io := Scanning(Some(r)));
    assert Apply(s, IoCleanup) == s1 by {
      assert Freed(s.board) == {};
    }
    assert Apply(s1, Link(r, New, Other)) == s2;
    assert Apply(s2, IoHead) == s3;
    var t0 := [IoLook(false)];
    var t1 := [IoHead] + t0;
    var t2 := [Link(r, New, Other)] + t1;
    steps := [IoCleanup] + t2;
    assert steps[1..] == t2 && t2[1..] == t1 && t1[1..] == t0;
    assert Allowed(s3, t0);
    assert Allowed(s2, t1);
    assert Allowed(s1, t2);
    AstrayIff(s, steps);
    assert Races(s3, t0);
    assert Races(s2, t1);
    assert Races(s1, t2);
  }

  /** Posting with no step of another thread in between is appending a request with its state. */
  lemma {:induction false} PostsWhole<R>(s: System<R>, r: R, st: State, poster: Poster)
    requires Enabled(s, Link(r, st, poster))
    ensures var steps := [Link(r, st, poster), FillState, Fill];
            Allowed(s, steps) && !Races(s, steps) && Run(s, steps) == s.(board := Posted(s.board, r, st))
  {
    var steps := [Link(r, st, poster), FillState, Fill];
    var m := Apply(s, steps[0]);
    var n := Apply(m, FillState);
    assert steps[1..] == [FillState, Fill] && steps[1..][1..] == [Fill];
    assert Allowed(n, [Fill]) && Allowed(m, steps[1..]);
    assert Run(n, [Fill]) == s.(board := Posted(s.board, r, st));
    assert Run(m, steps[1..]) == Run(n, [Fill]);
    assert !Races(n, [Fill]);
    assert !Races(m, steps[1..]);
  }

  /** Every poster goes from its link to its last store before another thread takes a step. */
  ghost predicate PostsAtOnce<R>(s: System<R>, steps: seq<Step<R>>)
    requires Allowed(s, steps)
    decreases |steps|
  {
    steps == [] || ((s.pending.Some? ==> steps[0].FillState? || steps[0].Fill?)
      && PostsAtOnce(Apply(s, steps[0]), steps[1..]))
  }

  /** Then the scan stays on listed requests. */
  lemma {:induction false} AtOnceIsSafe<R>(s: System<R>, steps: seq<Step<R>>)
    requires Allowed(s, steps) && PostsAtOnce(s, steps)
    ensures !Races(s, steps)
    decreases |steps|
  {
    if steps != [] {
      AtOnceIsSafe(Apply(s, steps[0]), steps[1..]);
    }
  }

  /** One step moves a listed request forward or leaves it where it is. */
  lemma {:induction false} StepForward<R>(s: System<R>, t: Step<R>, r: R, a: State, b: State)
    requires Good(s) && Enabled(s, t) && InState(Chain(s), r, a) && InState(Chain(Apply(s, t)), r, b)
    ensures Rank(a) <= Rank(b)
  {
    StepKeeps(s, t);
    StateListed(Chain(s), r, a);
    match t
    case Link(q, st, _) => SlotsKept(s.board, Posted(s.board, q, st), r, a, b);
    case MainMark =>
      if r != s.main.r {
        WithStateSlots(s.board, s.main.r, Processed);
        OneState(s.board, r, a, b);
      } else {
        WithStateSlots(s.board, r, Processed);
        OneState(WithState(s.board, r, Processed), r, b, Processed);
      }
    case IoCleanup =>
      CleanedSlots(s.board);
      var i :| 0 <= i < |Cleaned(s.board)| && Cleaned(s.board)[i] == Slot(r, b);
      assert Cleaned(s.board)[i] in Cleaned(s.board);
      OneState(s.board, r, a, b);
    case IoRun => RunStepForward(s, r, a, b);
    case IoSetResult(q) => SetForward(s.board, q, if InState(s.board, q, New) then New else Running, Returned, r, a, b);
    case _ => OneState(Chain(s), r, a, b);
  }

  lemma {:induction false} RunStepForward<R>(s: System<R>, r: R, a: State, b: State)
    requires Good(s) && Enabled(s, IoRun) && InState(Chain(s), r, a) && InState(Chain(Apply(s, IoRun)), r, b)
    ensures Rank(a) <= Rank(b)
  {
    RunStepKeeps(s);
    if Apply(s, IoRun) == s {
      OneState(Chain(s), r, a, b);
    } else {
      SetForward(Chain(s), s.io.r, New, Running, r, a, b);
    }
  }

  lemma {:induction false} SlotsKept<R>(b: Board<R>, c: Board<R>, r: R, x: State, y: State)
    requires Unique(c) && |b| <= |c| && (forall i :: 0 <= i < |b| ==> c[i] == b[i]) && InState(b, r, x)
             && InState(c, r, y)
    ensures x == y
  {
    KeepsSlots(b, c);
    OneState(c, r, x, y);
  }

  lemma {:induction false} SetForward<R>(b: Board<R>, q: R, was: State, now: State, r: R, x: State, y: State)
    requires Unique(b) && InState(b, q, was) && Rank(was) <= Rank(now) && InState(b, r, x)
             && InState(WithState(b, q, now), r, y)
    ensures Rank(x) <= Rank(y)
  {
    StateListed(b, q, was);
    WithStateSlots(b, q, now);
    if r == q {
      OneState(b, r, x, was);
      OneState(WithState(b, q, now), r, y, now);
    } else {
      OneState(b, r, x, y);
    }
  }

  /** A freed request stays freed. */
  lemma {:induction false} FreedStays<R>(s: System<R>, steps: seq<Step<R>>, r: R)
    requires Good(s) && Allowed(s, steps) && r in s.freed
    ensures r in Run(s, steps).freed
    decreases |steps|
  {
    hide Good; hide Enabled;
    if steps != [] {
      StepKeeps(s, steps[0]);
      FreedStays(Apply(s, steps[0]), steps[1..], r);
    }
  }

  /** A listed request is still listed after a step, or it is freed. */
  lemma {:induction false} ListedOrFreed<R>(s: System<R>, t: Step<R>, r: R)
    requires Good(s) && Enabled(s, t) && Listed(Chain(s), r)
    ensures Listed(Chain(Apply(s, t)), r) || r in Apply(s, t).freed
  {
    match t
    case Link(q, st, _) => KeepsSlots(s.board, Posted(s.board, q, st));
    case MainMark => WithStateSlots(s.board, s.main.r, Processed);
    case IoRun =>
      RunStepKeeps(s);
      WithStateSlots(Chain(s), s.io.r, Running);
    case IoSetResult(q) => WithStateSlots(s.board, q, Returned);
    case IoCleanup =>
      CleanedSlots(s.board);
      var i :| 0 <= i < |s.board| && s.board[i].req == r;
      if s.board[i].state != Processed {
        assert s.board[i] in s.board;
        var j :| 0 <= j < |Cleaned(s.board)| && Cleaned(s.board)[j] == s.board[i];
        assert Cleaned(s.board)[j].req == r;
      }
    case _ =>
  }

  /** Over any run a request only moves forward through NEW, RUNNING, RETURNED and PROCESSED. */
  lemma {:induction false} RunForward<R>(s: System<R>, steps: seq<Step<R>>, r: R, a: State, b: State)
    requires Good(s) && Allowed(s, steps) && InState(Chain(s), r, a) && InState(Chain(Run(s, steps)), r, b)
    ensures Rank(a) <= Rank(b)
    decreases |steps|
  {
    hide Enabled; hide InState; hide Listed; hide Apply; hide Chain;
    if steps == [] {
      GoodUnique(s);
      OneState(Chain(s), r, a, b);
    } else {
      var m, rest := Apply(s, steps[0]), steps[1..];
      StepKeeps(s, steps[0]);
      StateListed(Chain(s), r, a);
      ListedOrFreed(s, steps[0], r);
      RunKeeps(m, rest);
      if r in m.freed {
        FreedStays(m, rest, r);
        StateListed(Chain(Run(m, rest)), r, b);
        GoneForGood(Run(m, rest), r);
      }
      var c := ListedState(Chain(m), r);
      StepForward(s, steps[0], r, a, c);
      RunForward(m, rest, r, c, b);
    }
  }

  lemma {:induction false} GoodUnique<R>(s: System<R>)
    requires Good(s)
    ensures Unique(Chain(s))
  {
  }

  lemma {:induction false} GoneForGood<R>(s: System<R>, r: R)
    requires Good(s) && Listed(Chain(s), r)
    ensures r !in s.freed
  {
  }

  lemma {:induction false} ListedState<R>(b: Board<R>, r: R) returns (st: State)
    requires Listed(b, r)
    ensures InState(b, r, st)
  {
    var i :| 0 <= i < |b| && b[i].req == r;
    st := b[i].state;
    assert b[i] == Slot(r, st);
  }
}
