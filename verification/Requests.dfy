/** The linked list of requests in libopenspotify/request.c, each locked section proved against the scoreboard. */
module Requests {
  import opened Basics
  import opened Scoreboard

  datatype Kind = Login | Logout | Other(code: nat)

  class Request {
    const kind: Kind
    var state: State
    var error: int
    var input: int
    var output: int
    var nextTimeout: int
    var next: Request?

    constructor (kind: Kind, state: State, error: int, input: int, output: int)
      ensures this.kind == kind && this.state == state && this.error == error && this.input == input
              && this.output == output
      ensures nextTimeout == 0 && next == null
    {
      this.kind, this.state, this.error, this.input, this.output := kind, state, error, input, output;
      nextTimeout, next := 0, null;
    }
  }

  function Nth(c: seq<Request>, j: nat): Request? {
    if j < |c| then c[j] else null
  }

  /** `head` starts a list that runs through `c`. */
  ghost predicate Linked(head: Request?, c: seq<Request>)
    reads c`next
  {
    head == Nth(c, 0) && forall j :: 0 <= j < |c| ==> c[j].next == Nth(c, j + 1)
  }

  /** The list as a board. */
  ghost function View(c: seq<Request>): (b: Board<Request>)
    reads c`state
    ensures |b| == |c| && forall i :: 0 <= i < |b| ==> b[i] == Slot(c[i], c[i].state)
  {
    if c == [] then [] else View(c[..|c| - 1]) + [Slot(c[|c| - 1], c[|c| - 1].state)]
  }

  lemma {:induction false} ViewWithout(c: seq<Request>, j: nat)
    requires j < |c|
    ensures View(Without(c, j)) == Without(View(c), j)
  {
  }

  lemma {:induction false} ShorterWithout<T>(c: seq<T>, j: nat)
    requires j < |c|
    ensures |Without(c, j)| == |c| - 1
  {
  }

  lemma {:induction false} CleanedWithout<R>(b: Board<R>, j: nat)
    requires j < |b| && b[j].state == Processed
    ensures Cleaned(Without(b, j)) == Cleaned(b)
  {
    if j == 0 {
      assert Without(b, 0) == b[1..];
    } else {
      CleanedWithout(b[1..], j - 1);
      assert Without(b, j)[0] == b[0] && Without(b, j)[1..] == Without(b[1..], j - 1);
    }
  }

  lemma {:induction false} CleanedAll<R>(b: Board<R>)
    requires forall i :: 0 <= i < |b| ==> b[i].state != Processed
    ensures Cleaned(b) == b
  {
    if b != [] {
      CleanedAll(b[1..]);
    }
  }

  lemma {:induction false} FirstReturnedAt<R>(b: Board<R>, i: nat)
    requires i <= |b| && (forall j :: 0 <= j < i ==> b[j].state != Returned) && (i < |b| ==> b[i].state == Returned)
    ensures FirstReturned(b) == if i < |b| then Some(b[i].req) else None
  {
    if 0 < i {
      FirstReturnedAt(b[1..], i - 1);
    }
  }

  /** How long the main thread may sleep for the sake of one request. */
  function Sleep(timeout: int, now: int): int {
    if timeout - now < 1000 then 1000 else timeout - now
  }

  /** `t` is the shortest sleep that any pending timeout asks for, at most five seconds. */
  ghost predicate Soonest(c: seq<Request>, now: int, t: int)
    reads c`nextTimeout
  {
    && t <= 5000 && (forall i :: 0 <= i < |c| && c[i].nextTimeout != 0 ==> t <= Sleep(c[i].nextTimeout, now))
    && (t == 5000 || exists i :: 0 <= i < |c| && c[i].nextTimeout != 0 && t == Sleep(c[i].nextTimeout, now))
  }

  lemma {:induction false} SoonestNone(now: int)
    ensures Soonest([], now, 5000)
  {
  }

  lemma {:induction false} SoonestMore(c: seq<Request>, r: Request, now: int, t: int)
    requires Soonest(c, now, t)
    ensures var s := if r.nextTimeout == 0 then 5000 else Sleep(r.nextTimeout, now);
            Soonest(c + [r], now, if s < t then s else t)
  {
    var d := c + [r];
    assert d[|c|] == r;
    if t != 5000 {
      var i :| 0 <= i < |c| && c[i].nextTimeout != 0 && t == Sleep(c[i].nextTimeout, now);
      assert d[i] == c[i];
    }
  }

  lemma {:induction false} InMembers(c: seq<Request>, j: nat)
    requires j < |c|
    ensures c[j] in Members(c)
  {
  }

  class Session {
    var requests: Request?
    ghost var list: seq<Request>
    ghost var live: set<Request>

    ghost predicate Valid()
      reads this, list`next
    {
      Distinct(list) && Linked(requests, list) && live == Members(list)
    }

    constructor ()
      ensures Valid() && list == []
    {
      requests, list, live := null, [], {};
    }

    /** Walk to the end of the list and hang the new request there. */
    method Append(req: Request)
      requires Valid() && req !in list && req.next == null
      modifies this, list`next
      ensures Valid() && list == old(list) + [req]
    {
      if requests == null {
        requests := req;
      } else {
        var walker := requests;
        ghost var j := 0;
        while walker.next != null
          invariant 0 <= j < |list| && walker == list[j]
          decreases |list| - j
        {
          walker := walker.next;
          j := j + 1;
        }
        walker.next := req;
      }
      list := list + [req];
      live := live + {req};
    }

    /** request_post. */
    method Post(kind: Kind, input: int) returns (req: Request)
      requires Valid()
      modifies this, list`next
      ensures Valid() && fresh(req) && list == old(list) + [req] && View(list) == Posted(old(View(list)), req, New)
      ensures req.kind == kind && req.error == 0 && req.input == input && req.output == 0 && req.nextTimeout == 0
    {
      hide Linked; hide Distinct; hide Members;
      req := new Request(kind, New, 0, input, 0);
      assert list == (list + [req])[..|list|];
      Append(req);
    }

    /** request_post_result. */
    method PostResult(kind: Kind, error: int, output: int) returns (req: Request)
      requires Valid()
      modifies this, list`next
      ensures Valid() && fresh(req) && list == old(list) + [req] && View(list) == Posted(old(View(list)), req, Returned)
      ensures req.kind == kind && req.error == error && req.input == 0 && req.output == output && req.nextTimeout == 0
    {
      hide Linked; hide Distinct; hide Members;
      req := new Request(kind, Returned, error, 0, output);
      assert list == (list + [req])[..|list|];
      Append(req);
    }

    /** request_set_result. */
    method SetResult(req: Request, error: int, output: int)
      requires Valid() && req in list
      modifies req`error, req`output, req`state
      ensures Valid() && View(list) == WithState(old(View(list)), req, Returned) && req.error == error
              && req.output == output
    {
      assert req in live;
      req.error, req.output := error, output;
      req.state := Returned;
    }

    /** A handler starts on a request. */
    method Begin(req: Request)
      requires Valid() && req in list
      modifies req`state
      ensures Valid() && View(list) == WithState(old(View(list)), req, Running)
    {
      req.state := Running;
    }

    /** request_mark_processed. */
    method MarkProcessed(req: Request)
      requires Valid() && req in list
      modifies req`state
      ensures Valid() && View(list) == WithState(old(View(list)), req, Processed)
    {
      assert req in live;
      req.state := Processed;
    }

    /** request_fetch_next_result: the first request with a result, and how long the main thread may sleep. */
    method FetchNextResult(now: int) returns (request: Request?, nextTimeout: int)
      requires Valid()
      ensures match FirstReturned(View(list)) case Some(r) => request == r case None => request == null
      ensures Soonest(list, now, nextTimeout)
    {
      hide Distinct; hide Members; hide Soonest; hide View;
      nextTimeout := 5000;
      request := null;
      var walker := requests;
      ghost var j, k := 0, 0;
      SoonestNone(now);
      while walker != null
        invariant 0 <= j <= |list| && walker == Nth(list, j)
        invariant 0 <= k <= j && (forall i :: 0 <= i < k ==> list[i].state != Returned)
        invariant if request == null then k == j else k < j && request == list[k] && list[k].state == Returned
        invariant Soonest(list[..j], now, nextTimeout)
        decreases |list| - j
      {
        assert walker in Members(list) by { InMembers(list, j); }
        if request == null && walker.state == Returned {
          request := walker;
        } else if request == null {
          k := k + 1;
        }
        SoonestMore(list[..j], walker, now, nextTimeout);
        assert list[..j] + [walker] == list[..j + 1];
        if walker.nextTimeout != 0 {
          var timeout := walker.nextTimeout - now;
          if timeout < 1000 {
            timeout := 1000;
          }
          if timeout < nextTimeout {
            nextTimeout := timeout;
          }
        }
        walker := walker.next;
        j := j + 1;
      }
      assert list[..j] == list;
      FirstReturnedAt(View(list), k);
    }

    /** Take request `j` out of the list. */
    method Unlink(prev: Request?, walker: Request, ghost j: nat)
      requires Valid() && j < |list| && walker == list[j] && prev == if j == 0 then null else list[j - 1]
      modifies this, list`next
      ensures Valid() && list == Without(old(list), j) && live == old(live) - {walker}
    {
      ghost var c := list;
      if prev != null {
        prev.next := walker.next;
      } else {
        requests := walker.next;
      }
      list := Without(c, j);
      live := live - {walker};
      forall l | 0 <= l < |list|
        ensures list[l].next == Nth(list, l + 1)
      {
        if l < j - 1 {
          assert list[l] == c[l];
        } else if l > j - 1 {
          assert list[l] == c[l + 1];
        }
      }
      MembersWithout(c, j);
    }

    /** The first processed request and the one before it. */
    method FindProcessed() returns (prev: Request?, walker: Request?, ghost j: nat)
      requires Valid()
      ensures j <= |list| && walker == Nth(list, j) && prev == (if j == 0 then null else list[j - 1])
      ensures (forall i :: 0 <= i < j ==> list[i].state != Processed) && (walker != null ==> walker.state == Processed)
    {
      hide Distinct; hide Members;
      prev, walker, j := null, requests, 0;
      while walker != null
        invariant 0 <= j <= |list| && walker == Nth(list, j) && prev == (if j == 0 then null else list[j - 1])
        invariant forall i :: 0 <= i < j ==> list[i].state != Processed
        decreases |list| - j
      {
        assert walker in Members(list) by { InMembers(list, j); }
        if walker.state == Processed {
          break;
        }
        prev := walker;
        walker := walker.next;
        j := j + 1;
      }
    }

    /** One round of the cleanup: free the first processed request. */
    method RemoveOne() returns (more: bool)
      requires Valid()
      modifies this, list`next
      ensures Valid() && Members(list) <= old(Members(list)) && Cleaned(View(list)) == Cleaned(old(View(list)))
      ensures if more then |list| < |old(list)| else forall i :: 0 <= i < |list| ==> list[i].state != Processed
      ensures forall r :: r in old(live) && r.state != Processed ==> r in live
    {
      hide Linked; hide Distinct; hide Cleaned; hide View; hide Members;
      var prev, walker: Request?;
      ghost var j;
      prev, walker, j := FindProcessed();
      if walker == null {
        return false;
      }
      CleanedWithout(View(list), j);
      ViewWithout(list, j);
      ShorterWithout(list, j);
      Unlink(prev, walker, j);
      return true;
    }

    /** request_cleanup: the processed requests are freed, each once, and the others keep their order. */
    method Cleanup()
      requires Valid()
      modifies this, list`next
      ensures Valid() && View(list) == Cleaned(old(View(list)))
      ensures live == set r | r in old(live) && r.state != Processed
    {
      hide Linked; hide Distinct; hide Cleaned; hide View;
      ghost var was, all := View(list), live;
      while true
        invariant Valid() && Cleaned(View(list)) == Cleaned(was) && Members(list) <= all
        invariant forall r :: r in all && r.state != Processed ==> r in live
        decreases |list|
      {
        MembersOf(list);
        var more := RemoveOne();
        if !more {
          break;
        }
      }
      CleanedAll(View(list));
      NoneProcessed(list);
    }

    /** The scan of iothread from a request of the list on: the next one that has no result yet and whose time has
        come. */
    method NextDue(from: Request?, ghost j: nat, now: int) returns (due: Request?, ghost k: nat)
      requires Valid() && j <= |list| && from == Nth(list, j)
      ensures j <= k <= |list| && due == Nth(list, k)
      ensures (forall i :: j <= i < k ==> !IsDue(list[i], now)) && (due != null ==> IsDue(due, now) && due in live)
    {
      hide Distinct; hide Members;
      due, k := from, j;
      while due != null
        invariant j <= k <= |list| && due == Nth(list, k)
        invariant forall i :: j <= i < k ==> !IsDue(list[i], now)
        decreases |list| - k
      {
        assert due in Members(list) by { InMembers(list, k); }
        if (due.state == New || due.state == Running) && due.nextTimeout <= now {
          break;
        }
        due := due.next;
        k := k + 1;
      }
    }

    /** The gate of process_request: who is put off, who fails and who gets to a handler. */
    method Gate(req: Request, loggedIn: bool, numChannels: int, now: int) returns (verdict: Verdict)
      requires Valid() && req in list && (req.state == New || req.state == Running)
      modifies req`nextTimeout, req`error, req`output, req`state
      ensures Valid()
      ensures verdict == Routed <==> (loggedIn || req.kind in {Login, Logout})
                                     && !(old(req.state) == New && numChannels >= 16)
      ensures verdict == Failed <==> !loggedIn && req.kind !in {Login, Logout} && old(req.state) == Running
      ensures View(list) == if verdict == Failed then WithState(old(View(list)), req, Returned) else old(View(list))
      ensures verdict == Failed ==> req.error == OTHER_TRANSIENT && req.output == 0
      ensures verdict == Postponed ==>
                req.nextTimeout == (if !loggedIn && req.kind !in {Login, Logout} then now + 10_000
                                    else if old(req.nextTimeout) < now + 100 then now + 100
                                    else old(req.nextTimeout))
                && !IsDue(req, now)
      ensures verdict == Routed ==> req.nextTimeout == old(req.nextTimeout)
    {
      if !loggedIn && req.kind != Login && req.kind != Logout {
        if req.state == New {
          req.nextTimeout := now + 10 * 1000;
          return Postponed;
        } else if req.state == Running {
          SetResult(req, OTHER_TRANSIENT, 0);
          return Failed;
        }
      } else if req.state == New && numChannels >= 16 {
        if req.nextTimeout < now + 100 {
          req.nextTimeout := now + 100;
        }
        return Postponed;
      }
      return Routed;
    }
  }

  /** SP_ERROR_OTHER_TRANSIENT. */
  const OTHER_TRANSIENT := 16

  datatype Verdict = Postponed | Failed | Routed

  /** What the scan passes on to process_request. */
  predicate IsDue(r: Request, now: int)
    reads r
  {
    (r.state == New || r.state == Running) && r.nextTimeout <= now
  }

  lemma {:induction false} MembersOf(c: seq<Request>)
    ensures forall i :: 0 <= i < |c| ==> c[i] in Members(c)
  {
  }

  lemma {:induction false} NoneProcessed(c: seq<Request>)
    requires forall i :: 0 <= i < |c| ==> c[i].state != Processed
    ensures forall r :: r in Members(c) ==> r.state != Processed
  {
  }

  lemma {:induction false} MembersWithout(c: seq<Request>, j: nat)
    requires Distinct(c) && j < |c|
    ensures Members(Without(c, j)) == Members(c) - {c[j]}
  {
    var d := Without(c, j);
    forall r | r in Members(c) - {c[j]}
      ensures r in d
    {
      var i :| 0 <= i < |c| && c[i] == r;
      assert d[if i < j then i else i - 1] == r;
    }
    forall r | r in d
      ensures r in Members(c) - {c[j]}
    {
      var i :| 0 <= i < |d| && d[i] == r;
      assert c[if i < j then i else i + 1] == r;
    }
  }
}
