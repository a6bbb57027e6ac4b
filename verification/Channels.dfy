/** The channels of a connection: libopenspotify/channel.c. */
module Channels {
  import opened Basics
  import opened Words

  datatype State = Header | Data | End | Error

  /** A call of a channel's callback: the state it saw, the bytes it was given and the data length counted before it. */
  datatype Event = Event(state: State, bytes: seq<Byte>, before: nat)

  // ---------------------------------------------------------------- what a callback hears

  /** All the data a callback was given. */
  function Payload(heard: seq<Event>): seq<Byte> {
    if heard == [] then []
    else if heard[|heard| - 1].state == Data then Payload(heard[..|heard| - 1]) + heard[|heard| - 1].bytes
    else Payload(heard[..|heard| - 1])
  }

  /** Headers, then data, then at most one end or error; `state` is how far it got. */
  ghost predicate Told(heard: seq<Event>, state: State) {
    if heard == [] then state == Header || state == Data
    else
      var e, init := heard[|heard| - 1], heard[..|heard| - 1];
      e.before == |Payload(init)| &&
      match e.state
      case Header => Told(init, Header) && (state == Header || state == Data)
      case Data => Told(init, Data) && state == Data
      case End => state == End && (Told(init, Header) || Told(init, Data))
      case Error => state == Error && (Told(init, Header) || Told(init, Data))
  }

  /** The order the events come in, seen from any two of them. */
  lemma {:induction false} ToldInOrder(heard: seq<Event>, state: State, i: nat, j: nat)
    requires Told(heard, state) && i < j < |heard|
    ensures heard[i].state == Header || (heard[i].state == Data && heard[j].state != Header)
  {
    var init := heard[..|heard| - 1];
    assert heard[i] == init[i];
    if j == |heard| - 1 {
      if heard[j].state == Header {
        OnlyHeaders(init, i);
      } else {
        NothingAfter(init, i);
      }
    } else {
      var st :| Told(init, st);
      ToldInOrder(init, st, i, j);
      assert heard[j] == init[j];
    }
  }

  lemma {:induction false} OnlyHeaders(heard: seq<Event>, i: nat)
    requires Told(heard, Header) && i < |heard|
    ensures heard[i].state == Header
  {
    if i < |heard| - 1 {
      OnlyHeaders(heard[..|heard| - 1], i);
    }
  }

  lemma {:induction false} NothingAfter(heard: seq<Event>, i: nat)
    requires (Told(heard, Header) || Told(heard, Data)) && i < |heard|
    ensures heard[i].state == Header || heard[i].state == Data
  {
    if i < |heard| - 1 {
      NothingAfter(heard[..|heard| - 1], i);
    }
  }

  // ---------------------------------------------------------------- ids, on values

  /** The ids of the open channels, newest first, and the id the next one gets. */
  datatype Ids = Ids(open: seq<int>, next: int)

  function Above(open: seq<int>, next: int): (n: int)
    ensures next <= n && (forall i :: 0 <= i < |open| ==> open[i] < n)
            && (n == next || exists i :: 0 <= i < |open| && n == open[i] + 1)
  {
    if open == [] then next
    else
      var n := if open[0] >= next then open[0] + 1 else next;
      assert n != next ==> n == open[0] + 1;
      assert forall i :: 0 <= i < |open| - 1 ==> open[i + 1] == open[1..][i];
      Above(open[1..], n)
  }

  function Registered(s: Ids): Ids {
    Ids([s.next] + s.open, Above(s.open, s.next + 1))
  }

  function Unregistered(s: Ids, i: nat): Ids
    requires i < |s.open|
  {
    Ids(s.open[..i] + s.open[i + 1..], if s.open[i] < s.next then s.open[i] else s.next)
  }

  /** Open channels have different ids and the next id is not in use. */
  ghost predicate IdsGood(s: Ids) {
    (forall i, j :: 0 <= i < j < |s.open| ==> s.open[i] != s.open[j]) && s.next !in s.open
  }

  lemma {:induction false} RegisterKeeps(s: Ids)
    requires IdsGood(s)
    ensures IdsGood(Registered(s))
  {
    var t := Registered(s);
    forall i | 0 <= i < |t.open|
      ensures t.open[i] != t.next
    {
      assert i > 0 ==> t.open[i] == s.open[i - 1];
    }
  }

  lemma {:induction false} UnregisterKeeps(s: Ids, i: nat)
    requires IdsGood(s) && i < |s.open|
    ensures IdsGood(Unregistered(s, i))
  {
    var t := Unregistered(s, i);
    forall k | 0 <= k < |t.open|
      ensures t.open[k] != t.next
    {
      assert t.open[k] == s.open[if k < i then k else k + 1];
    }
  }

  /** Open two, close the older ones: one channel is left and its id is one more than that of the one before. */
  function Cycle(s: Ids): (t: Ids)
    requires |s.open| == 1
    ensures |t.open| == 1
  {
    Unregistered(Unregistered(Registered(Registered(s)), 2), 1)
  }

  function Cycles(s: Ids, n: nat): (t: Ids)
    requires |s.open| == 1
    ensures |t.open| == 1
  {
    if n == 0 then s else Cycle(Cycles(s, n - 1))
  }

  lemma {:induction false} CycleOnce(m: int, k: int)
    requires k < m
    ensures Cycle(Ids([m], k)) == Ids([m + 1], k)
  {
    var a := Registered(Ids([m], k));
    assert a == Ids([k, m], m + 1);
    var b := Registered(a);
    assert b == Ids([m + 1, k, m], m + 2);
    assert Unregistered(b, 2) == Ids([m + 1, k], m);
  }

  lemma {:induction false} CyclesFirst(s: Ids, n: nat)
    requires |s.open| == 1
    ensures Cycles(s, n) == if n == 0 then s else Cycle(Cycles(s, n - 1))
  {
  }

  /** With never more than three channels open, ids grow without bound; they do not fit sixteen bits for ever. */
  lemma {:induction false} IdsGrow(m: int, k: int, n: nat)
    requires k < m
    ensures Cycles(Ids([m], k), n) == Ids([m + n], k)
  {
    hide Cycle; hide Registered; hide Unregistered; hide Above; hide Cycles;
    CyclesFirst(Ids([m], k), n);
    if n > 0 {
      IdsGrow(m, k, n - 1);
      CycleOnce(m + n - 1, k);
    }
  }

  /** Such states are reached: after two channels were opened and the older one closed, every cycle adds one. */
  lemma {:induction false} IdsGrowFromStart(n: nat)
    ensures Unregistered(Registered(Registered(Ids([], 0))), 1) == Ids([1], 0)
    ensures Cycles(Unregistered(Registered(Registered(Ids([], 0))), 1), n) == Ids([1 + n], 0)
  {
    assert Registered(Ids([], 0)) == Ids([0], 1);
    assert Registered(Ids([0], 1)) == Ids([1, 0], 2);
    IdsGrow(1, 0, n);
  }

  // ---------------------------------------------------------------- ids and the sixteen bits of the wire

  /** A channel is opened, or the channel at a place in the list is closed. */
  datatype Change = Open | Close(i: nat)

  predicate CanChange(s: Ids, c: Change) {
    c.Close? ==> c.i < |s.open|
  }

  function Changed(s: Ids, c: Change): Ids
    requires CanChange(s, c)
  {
    match c
    case Open => Registered(s)
    case Close(i) => Unregistered(s, i)
  }

  predicate CanRun(s: Ids, cs: seq<Change>)
    decreases |cs|
  {
    cs == [] || (CanChange(s, cs[0]) && CanRun(Changed(s, cs[0]), cs[1..]))
  }

  function After(s: Ids, cs: seq<Change>): Ids
    requires CanRun(s, cs)
    decreases |cs|
  {
    if cs == [] then s else After(Changed(s, cs[0]), cs[1..])
  }

  /** The ids given out and the next one are below `b`. */
  predicate Fits(s: Ids, b: int) {
    s.next < b && forall i :: 0 <= i < |s.open| ==> s.open[i] < b
  }

  /** They are in every state of a run. */
  predicate AlwaysFits(s: Ids, cs: seq<Change>, b: int)
    requires CanRun(s, cs)
    decreases |cs|
  {
    Fits(s, b) && (cs == [] || AlwaysFits(Changed(s, cs[0]), cs[1..], b))
  }

  /** The largest id below `b` is in use or is the next one. */
  predicate AtLimit(s: Ids, b: int) {
    s.next == b - 1 || b - 1 in s.open
  }

  /** Some channel of the run is opened at the limit. */
  predicate OpensAtLimit(s: Ids, cs: seq<Change>, b: int)
    requires CanRun(s, cs)
    decreases |cs|
  {
    cs != [] && ((cs[0].Open? && AtLimit(s, b)) || OpensAtLimit(Changed(s, cs[0]), cs[1..], b))
  }

  /** Opening a channel keeps the ids below `b` if and only if they are not at the limit. */
  lemma {:induction false} OpenFits(s: Ids, b: int)
    requires Fits(s, b)
    ensures Fits(Registered(s), b) <==> !AtLimit(s, b)
  {
    var t := Registered(s);
    assert forall i :: 0 <= i < |t.open| ==> t.open[i] == if i == 0 then s.next else s.open[i - 1];
  }

  lemma {:induction false} CloseFits(s: Ids, i: nat, b: int)
    requires Fits(s, b) && i < |s.open|
    ensures Fits(Unregistered(s, i), b)
  {
    var t := Unregistered(s, i);
    assert forall k :: 0 <= k < |t.open| ==> t.open[k] == s.open[if k < i then k else k + 1];
  }

  /** Ids that fit do so in every state of a run if and only if no channel of it is opened at the limit. */
  lemma {:induction false} AlwaysFitsIff(s: Ids, cs: seq<Change>, b: int)
    requires CanRun(s, cs) && Fits(s, b)
    ensures AlwaysFits(s, cs, b) <==> !OpensAtLimit(s, cs, b)
    decreases |cs|
  {
    hide Fits; hide AtLimit; hide Registered; hide Unregistered;
    if cs != [] {
      var t := Changed(s, cs[0]);
      match cs[0] {
        case Open => OpenFits(s, b);
        case Close(i) => CloseFits(s, i, b);
      }
      if Fits(t, b) {
        AlwaysFitsIff(t, cs[1..], b);
      }
    }
  }

  /** What holds of the ids in every run: they differ, none is negative, and id 0 is in use or is the next one, so that
      ids start at 0 again whenever no channel is open. */
  ghost predicate IdsSane(s: Ids) {
    IdsGood(s) && s.next >= 0 && (forall i :: 0 <= i < |s.open| ==> s.open[i] >= 0) && (s.next == 0 || 0 in s.open)
  }

  lemma {:induction false} ChangeSane(s: Ids, c: Change)
    requires IdsSane(s) && CanChange(s, c)
    ensures IdsSane(Changed(s, c))
  {
    hide IdsGood;
    var t := Changed(s, c);
    match c {
      case Open =>
        RegisterKeeps(s);
        assert forall i :: 0 <= i < |t.open| ==> t.open[i] == if i == 0 then s.next else s.open[i - 1];
        if s.next == 0 {
          assert t.open[0] == 0;
        } else {
          var j :| 0 <= j < |s.open| && s.open[j] == 0;
          assert t.open[j + 1] == 0;
        }
      case Close(i) =>
        UnregisterKeeps(s, i);
        assert forall k :: 0 <= k < |t.open| ==> t.open[k] == s.open[if k < i then k else k + 1];
        if t.next != 0 {
          var j :| 0 <= j < |s.open| && s.open[j] == 0;
          assert t.open[if j < i then j else j - 1] == 0;
        }
    }
  }

  lemma {:induction false} RunSane(s: Ids, cs: seq<Change>)
    requires IdsSane(s) && CanRun(s, cs)
    ensures IdsSane(After(s, cs)) && (After(s, cs).open == [] ==> After(s, cs).next == 0)
    decreases |cs|
  {
    hide IdsGood; hide Changed;
    if cs != [] {
      ChangeSane(s, cs[0]);
      RunSane(Changed(s, cs[0]), cs[1..]);
    }
  }

  lemma {:induction false} StartSane()
    ensures IdsSane(Ids([], 0))
  {
  }

  const WIRE_IDS := 0x1_0000

  /** The id that requests carry, sixteen bits of the channel's own, and that the answers come back with. */
  function WireId(id: int): int {
    id % WIRE_IDS
  }

  /** The place in the list of the channel that a packet with this id reaches, if any. */
  function Reached(open: seq<int>, id: int): Option<nat> {
    if open == [] then None
    else if open[0] == id then Some(0)
    else
      match Reached(open[1..], id)
      case None => None
      case Some(i) => Some(i + 1)
  }

  lemma {:induction false} ReachedIs(open: seq<int>, id: int)
    ensures match Reached(open, id)
            case None => id !in open
            case Some(i) => i < |open| && open[i] == id
  {
    if open != [] {
      ReachedIs(open[1..], id);
    }
  }

  lemma {:induction false} ReachedAt(open: seq<int>, id: int, j: nat)
    requires j < |open| && open[j] == id && forall i :: 0 <= i < j ==> open[i] != id
    ensures Reached(open, id) == Some(j)
  {
    if j > 0 {
      ReachedAt(open[1..], id, j - 1);
    }
  }

  /** The answers to a channel's requests reach it if and only if its id fits the sixteen bits. */
  lemma {:induction false} AnswersReachIff(s: Ids, i: nat)
    requires IdsSane(s) && i < |s.open|
    ensures Reached(s.open, WireId(s.open[i])) == Some(i) <==> s.open[i] < WIRE_IDS
  {
    ReachedIs(s.open, WireId(s.open[i]));
  }

  /** So they reach it in every run that opens no channel at the limit. */
  lemma {:induction false} AnswersReach(cs: seq<Change>, i: nat)
    requires CanRun(Ids([], 0), cs) && !OpensAtLimit(Ids([], 0), cs, WIRE_IDS) && i < |After(Ids([], 0), cs).open|
    ensures var open := After(Ids([], 0), cs).open; Reached(open, WireId(open[i])) == Some(i)
  {
    hide IdsSane; hide AlwaysFits; hide OpensAtLimit; hide Reached;
    var s := Ids([], 0);
    StartSane();
    AlwaysFitsIff(s, cs, WIRE_IDS);
    LastFits(s, cs, WIRE_IDS);
    RunSane(s, cs);
    AnswersReachIff(After(s, cs), i);
  }

  lemma {:induction false} LastFits(s: Ids, cs: seq<Change>, b: int)
    requires CanRun(s, cs) && AlwaysFits(s, cs, b)
    ensures Fits(After(s, cs), b)
    decreases |cs|
  {
    hide Fits;
    if cs != [] {
      LastFits(Changed(s, cs[0]), cs[1..], b);
    }
  }

  lemma {:induction false} RunThen(s: Ids, cs: seq<Change>, ds: seq<Change>)
    requires CanRun(s, cs) && CanRun(After(s, cs), ds)
    ensures CanRun(s, cs + ds) && After(s, cs + ds) == After(After(s, cs), ds)
    decreases |cs|
  {
    hide Changed;
    if cs == [] {
      assert cs + ds == ds;
    } else {
      RunThen(Changed(s, cs[0]), cs[1..], ds);
      assert (cs + ds)[1..] == cs[1..] + ds;
    }
  }

  const CYCLE := [Open, Open, Close(2), Close(1)]

  function CycleChanges(n: nat): seq<Change> {
    if n == 0 then [] else CycleChanges(n - 1) + CYCLE
  }

  /** The cycles are a run. */
  lemma {:induction false} CyclesRun(s: Ids, n: nat)
    requires |s.open| == 1
    ensures CanRun(s, CycleChanges(n)) && After(s, CycleChanges(n)) == Cycles(s, n)
  {
    hide CanRun; hide After; hide Cycle; hide Registered; hide Unregistered; hide Above;
    if n == 0 {
      RunsNothing(s);
    } else {
      CyclesRun(s, n - 1);
      CycleRun(Cycles(s, n - 1), CYCLE);
      RunThen(s, CycleChanges(n - 1), CYCLE);
    }
  }

  lemma {:induction false} RunsNothing(s: Ids)
    ensures CanRun(s, []) && After(s, []) == s
  {
  }

  lemma {:induction false} CycleRun(s: Ids, c: seq<Change>)
    requires |s.open| == 1 && c == [Open, Open, Close(2), Close(1)]
    ensures CanRun(s, c) && After(s, c) == Cycle(s)
  {
    hide Above;
    var s1 := Registered(s);
    var s2 := Registered(s1);
    var s3 := Unregistered(s2, 2);
    assert c[1..] == [Open, Close(2), Close(1)] && c[1..][1..] == [Close(2), Close(1)];
    assert c[1..][1..][1..] == [Close(1)];
    assert CanRun(s3, [Close(1)]) && After(s3, [Close(1)]) == Unregistered(s3, 1);
    assert CanRun(s2, [Close(2), Close(1)]) && After(s2, [Close(2), Close(1)]) == Unregistered(s3, 1);
    assert CanRun(s1, c[1..]) && After(s1, c[1..]) == Unregistered(s3, 1);
  }

  /** With two channels open the answers to one are heard by the other. */
  lemma {:induction false} AnswersStray() returns (cs: seq<Change>)
    ensures CanRun(Ids([], 0), cs) && After(Ids([], 0), cs).open == [0, WIRE_IDS]
    ensures Reached([0, WIRE_IDS], WireId(WIRE_IDS)) == Some(0)
  {
    hide Cycles;
    var start := [Open, Open, Close(1)];
    var s := Ids([], 0);
    IdsGrowFromStart(WIRE_IDS - 1);
    assert start[1..] == [Open, Close(1)] && start[1..][1..] == [Close(1)];
    var s1 := Registered(s);
    var s2 := Registered(s1);
    assert CanRun(s2, [Close(1)]) && After(s2, [Close(1)]) == Unregistered(s2, 1);
    assert CanRun(s1, start[1..]) && After(s1, start[1..]) == Unregistered(s2, 1);
    assert CanRun(s, start) && After(s, start) == Unregistered(s2, 1) == Ids([1], 0);
    var grow := CycleChanges(WIRE_IDS - 1);
    CyclesRun(Ids([1], 0), WIRE_IDS - 1);
    hide CycleChanges;
    RunThen(s, start, grow);
    var last := Ids([WIRE_IDS], 0);
    assert CanRun(last, [Open]) && After(last, [Open]) == Registered(last);
    RunThen(s, start + grow, [Open]);
    cs := start + grow + [Open];
  }

  // ---------------------------------------------------------------- the headers in a packet

  /** How a packet of headers ends: more are to come, the empty header was there, the last is cut off, or an assertion
      fails. */
  datatype Ending = More | Last | Short | Abort

  datatype Parsed = Parsed(headers: seq<seq<Byte>>, ending: Ending)

  /** A big-endian short; the byte after the packet is whatever memory holds there. */
  function Length(data: seq<Byte>, at: nat, beyond: Byte): (n: nat)
    requires at < |data|
    ensures n < 0x1_0000
  {
    ShortOf(data[at], if at + 1 < |data| then data[at + 1] else beyond)
  }

  function Parse(data: seq<Byte>, at: nat, beyond: Byte): Parsed
    requires at <= |data|
    decreases |data| - at
  {
    if at == |data| then Parsed([], More)
    else
      var n := Length(data, at, beyond);
      if n == 0 then Parsed([], if at + 2 == |data| then Last else Abort)
      else if at + 2 + n > |data| then Parsed([], Short)
      else
        var rest := Parse(data, at + 2 + n, beyond);
        Parsed([data[at + 2..at + 2 + n]] + rest.headers, rest.ending)
  }

  /** A short in network order is read back wherever it stands in a packet. */
  lemma {:induction false} LengthReads(data: seq<Byte>, at: nat, beyond: Byte, n: nat)
    requires n < 0x1_0000 && at + 2 <= |data| && data[at..at + 2] == [ToByte(n / 0x100), ToByte(n % 0x100)]
    ensures Length(data, at, beyond) == n
  {
    hide ToByte; hide Value;
    assert data[at] == data[at..at + 2][0] && data[at + 1] == data[at..at + 2][1];
    var b := ShortBytes(n);
  }

  /** A packet starts with the id of a channel, in network order. */
  predicate Names(buf: seq<Byte>, id: int) {
    |buf| >= 2 && 0 <= id < WIRE_IDS && buf[..2] == [ToByte(id / 0x100), ToByte(id % 0x100)]
  }

  lemma {:induction false} NamesRead(buf: seq<Byte>)
    requires |buf| >= 2
    ensures forall id :: Names(buf, id) ==> Length(buf, 0, 0) == id
  {
    hide ToByte; hide Length;
    forall id | Names(buf, id)
      ensures Length(buf, 0, 0) == id
    {
      assert buf[0..0 + 2] == buf[..2];
      LengthReads(buf, 0, 0, id);
    }
  }

  /** Headers as a server sends them, each behind its length. */
  function Prefixed(headers: seq<seq<Byte>>): seq<Byte>
    requires forall i :: 0 <= i < |headers| ==> |headers[i]| < 0x1_0000
  {
    if headers == [] then []
    else [ToByte(|headers[0]| / 0x100), ToByte(|headers[0]| % 0x100)] + headers[0] + Prefixed(headers[1..])
  }

  /** Any headers that are not empty, sent so and followed by an empty one, are parsed as those headers and the last. */
  lemma {:induction false} ParseReads(headers: seq<seq<Byte>>, beyond: Byte)
    requires forall i :: 0 <= i < |headers| ==> 0 < |headers[i]| < 0x1_0000
    ensures Parse(Prefixed(headers) + [0, 0], 0, beyond) == Parsed(headers, Last)
  {
    ParseReadsAt([], headers, beyond);
    assert [] + Prefixed(headers) + [0, 0] == Prefixed(headers) + [0, 0];
  }

  lemma {:induction false} ParseReadsAt(before: seq<Byte>, headers: seq<seq<Byte>>, beyond: Byte)
    requires forall i :: 0 <= i < |headers| ==> 0 < |headers[i]| < 0x1_0000
    ensures Parse(before + Prefixed(headers) + [0, 0], |before|, beyond) == Parsed(headers, Last)
    decreases |headers|
  {
    hide ToByte; hide Length; hide Parse;
    var data, at := before + Prefixed(headers) + [0, 0], |before|;
    ParseUnfolds(data, at, beyond);
    if headers == [] {
      ZeroBytes();
      assert data[at..at + 2] == [0, 0];
      LengthReads(data, at, beyond, 0);
    } else {
      var h := headers[0];
      var size := [ToByte(|h| / 0x100), ToByte(|h| % 0x100)];
      var rest := Prefixed(headers[1..]) + [0, 0];
      assert data == before + (size + h + rest);
      assert data[at..at + 2] == size && data[at + 2..at + 2 + |h|] == h;
      LengthReads(data, at, beyond, |h|);
      ParseReadsAt(before + size + h, headers[1..], beyond);
      assert before + size + h + Prefixed(headers[1..]) + [0, 0] == data;
      assert [h] + headers[1..] == headers;
    }
  }

  lemma {:induction false} ZeroBytes()
    ensures ToByte(0) == 0
  {
  }

  /** A packet that carries the sixteen bits of an open channel's id, which fits them, is for that channel. */
  lemma {:induction false} PacketReaches(s: Ids, i: nat, buf: seq<Byte>)
    requires IdsSane(s) && i < |s.open| && s.open[i] < WIRE_IDS && |buf| >= 2
    requires buf[..2] == [ToByte(s.open[i] / 0x100), ToByte(s.open[i] % 0x100)]
    ensures Length(buf, 0, 0) == s.open[i] && Reached(s.open, Length(buf, 0, 0)) == Some(i)
  {
    hide ToByte; hide Length; hide IdsGood;
    assert buf[0..0 + 2] == buf[..2];
    LengthReads(buf, 0, 0, s.open[i]);
    AnswersReachIff(s, i);
  }

  /** The calls that announce headers. */
  function HeaderEvents(headers: seq<seq<Byte>>): (e: seq<Event>)
    ensures |e| == |headers| && forall i :: 0 <= i < |e| ==> e[i] == Event(Header, headers[i], 0)
  {
    seq(|headers|, i requires 0 <= i < |headers| => Event(Header, headers[i], 0))
  }

  lemma {:induction false} ToldMore(heard: seq<Event>, e: Event)
    requires e.before == |Payload(heard)|
    ensures e.state == Header && Told(heard, Header) ==> Told(heard + [e], Header) && Told(heard + [e], Data)
    ensures e.state == Data && Told(heard, Data) ==> Told(heard + [e], Data)
    ensures (e.state == End || e.state == Error) && (Told(heard, Header) || Told(heard, Data)) ==>
              Told(heard + [e], e.state)
    ensures Payload(heard + [e]) == if e.state == Data then Payload(heard) + e.bytes else Payload(heard)
  {
    assert (heard + [e])[..|heard|] == heard;
  }

  lemma {:induction false} HeadersOnly(heard: seq<Event>)
    requires Told(heard, Header)
    ensures Payload(heard) == [] && Told(heard, Data)
  {
    if heard != [] {
      HeadersOnly(heard[..|heard| - 1]);
    }
  }

  // ---------------------------------------------------------------- the list of channels

  class Channel {
    const id: int
    var headerId: nat
    var state: State
    var totalHeaderLen: nat
    var totalDataLen: nat
    var next: Channel?

    /** The calls its callback has had. */
    ghost var heard: seq<Event>

    constructor (id: int)
      ensures this.id == id && state == Header && headerId == totalHeaderLen == totalDataLen == 0 && next == null
              && heard == []
    {
      this.id, state, headerId, totalHeaderLen, totalDataLen, next := id, Header, 0, 0, 0, null;
      heard := [];
    }

    /** What a channel that is open has told its callback. */
    ghost predicate Fine()
      reads `state, `heard, `totalDataLen
    {
      (state == Header || state == Data) && Told(heard, state) && totalDataLen == |Payload(heard)|
    }

    /** ch->callback(ch, buf, len). */
    method Callback(bytes: seq<Byte>)
      modifies this`heard
      ensures heard == old(heard) + [Event(state, bytes, totalDataLen)]
    {
      heard := heard + [Event(state, bytes, totalDataLen)];
    }

    /** The part of channel_process that hands over data, the end or an error. */
    method Deliver(data: seq<Byte>, error: bool)
      requires Fine() && (error || state == Data)
      modifies this`state, this`heard, this`totalDataLen
      ensures state == Final(data, error) && Told(heard, state) && (state == Data ==> Fine())
      ensures heard == old(heard) + [Event(Final(data, error), data, |Payload(old(heard))|)]
    {
      hide Told; hide Payload;
      if state == Header {
        HeadersOnly(heard);
      }
      if error {
        state := Error;
      }
      if data == [] {
        state := End;
      }
      ToldMore(heard, Event(state, data, totalDataLen));
      Callback(data);
      totalDataLen := totalDataLen + |data|;
    }

    /** A failure is forced, whatever the state. */
    method Fail()
      requires Fine()
      modifies `state, `heard
      ensures state == Error && Told(heard, Error) && heard == old(heard) + [Event(Error, [], |Payload(old(heard))|)]
    {
      hide Told; hide Payload;
      state := Error;
      ToldMore(heard, Event(Error, [], totalDataLen));
      Callback([]);
    }

    /** The part of channel_process that handles headers. */
    method Headers(data: seq<Byte>, beyond: Byte) returns (ending: Ending)
      requires Fine() && state == Header
      modifies `state, `heard, `headerId, `totalHeaderLen
      ensures Fine() && totalDataLen == 0
      ensures |data| < 2 ==> ending == Abort && heard == old(heard) && state == Header
      ensures |data| >= 2 ==>
                var p := Parse(data, 0, beyond);
                && ending == p.ending && heard == old(heard) + HeaderEvents(p.headers)
                && headerId == old(headerId) + |p.headers| && state == if ending == Last then Data else Header
    {
      hide Told; hide Payload; hide Length; hide Parse; hide Reaches; hide HeaderEvents;
      HeadersOnly(heard);
      if |data| < 2 {
        return Abort;
      }
      var consumed := 0;
      ghost var p := Parse(data, 0, beyond);
      ghost var done: seq<seq<Byte>> := [];
      ParseNothing(data, beyond);
      while consumed < |data|
        invariant consumed <= |data| && state == Header && Fine() && totalDataLen == 0
        invariant Reaches(data, beyond, p, done, consumed)
        invariant heard == old(heard) + HeaderEvents(done) && headerId == old(headerId) + |done|
      {
        ReachesOn(data, beyond, p, done, consumed);
        var headerLen := Length(data, consumed, beyond);
        consumed := consumed + 2;
        if headerLen == 0 {
          if consumed != |data| {
            return Abort;
          }
          HeadersOnly(heard);
          state := Data;
          return Last;
        }
        if consumed + headerLen > |data| {
          return Short;
        }
        EventsMore(done, data[consumed..consumed + headerLen]);
        Announce(data[consumed..consumed + headerLen]);
        done := done + [data[consumed..consumed + headerLen]];
        consumed := consumed + headerLen;
      }
      ReachesEnd(data, beyond, p, done);
      return More;
    }

    method Announce(header: seq<Byte>)
      requires Fine() && state == Header && totalDataLen == 0
      modifies `heard, `headerId, `totalHeaderLen
      ensures Fine() && state == Header && totalDataLen == 0
      ensures heard == old(heard) + [Event(Header, header, 0)] && headerId == old(headerId) + 1
    {
      hide Told; hide Payload;
      headerId := headerId + 1;
      ToldMore(heard, Event(Header, header, totalDataLen));
      Callback(header);
      totalHeaderLen := totalHeaderLen + |header|;
    }
  }

  /** The state in which a callback gets data: no data means the end, even in a packet flagged as an error. */
  function Final(data: seq<Byte>, error: bool): (s: State)
    ensures (s == End <==> data == []) && (s == Data <==> data != [] && !error) && s != Header
  {
    if data == [] then End else if error then Error else Data
  }

  /** Having announced `done`, the parse of a packet stands at `at`. */
  ghost predicate Reaches(data: seq<Byte>, beyond: Byte, p: Parsed, done: seq<seq<Byte>>, at: nat) {
    at <= |data| && var rest := Parse(data, at, beyond); p == Parsed(done + rest.headers, rest.ending)
  }

  lemma {:induction false} ParseNothing(data: seq<Byte>, beyond: Byte)
    ensures Reaches(data, beyond, Parse(data, 0, beyond), [], 0) && HeaderEvents([]) == []
  {
    hide Parse;
    assert [] + Parse(data, 0, beyond).headers == Parse(data, 0, beyond).headers;
  }

  lemma {:induction false} ReachesOn(data: seq<Byte>, beyond: Byte, p: Parsed, done: seq<seq<Byte>>, at: nat)
    requires Reaches(data, beyond, p, done, at) && at < |data|
    ensures var n := Length(data, at, beyond);
            if n == 0 then p == Parsed(done, if at + 2 == |data| then Last else Abort)
            else if at + 2 + n > |data| then p == Parsed(done, Short)
            else Reaches(data, beyond, p, done + [data[at + 2..at + 2 + n]], at + 2 + n)
  {
    hide Length;
    ParseUnfolds(data, at, beyond);
    hide Parse;
    var n := Length(data, at, beyond);
    assert done + [] == done;
    if n != 0 && at + 2 + n <= |data| {
      var h, rest := data[at + 2..at + 2 + n], Parse(data, at + 2 + n, beyond);
      assert done + ([h] + rest.headers) == done + [h] + rest.headers;
    }
  }

  lemma {:induction false} ReachesEnd(data: seq<Byte>, beyond: Byte, p: Parsed, done: seq<seq<Byte>>)
    requires Reaches(data, beyond, p, done, |data|)
    ensures p == Parsed(done, More)
  {
    ParseUnfolds(data, |data|, beyond);
    assert done + [] == done;
  }

  lemma {:induction false} ParseUnfolds(data: seq<Byte>, at: nat, beyond: Byte)
    requires at <= |data|
    ensures Parse(data, at, beyond) ==
            if at == |data| then Parsed([], More)
            else
              var n := Length(data, at, beyond);
              if n == 0 then Parsed([], if at + 2 == |data| then Last else Abort)
              else if at + 2 + n > |data| then Parsed([], Short)
              else
                var rest := Parse(data, at + 2 + n, beyond);
                Parsed([data[at + 2..at + 2 + n]] + rest.headers, rest.ending)
  {
    hide Length;
  }

  lemma {:induction false} EventsMore(headers: seq<seq<Byte>>, h: seq<Byte>)
    ensures HeaderEvents(headers + [h]) == HeaderEvents(headers) + [Event(Header, h, 0)]
  {
  }

  function Nth(c: seq<Channel>, j: nat): Channel? {
    if j < |c| then c[j] else null
  }

  ghost predicate Linked(head: Channel?, c: seq<Channel>)
    reads c`next
  {
    head == Nth(c, 0) && forall j :: 0 <= j < |c| ==> c[j].next == Nth(c, j + 1)
  }

  function IdsOf(c: seq<Channel>): (s: seq<int>)
    ensures |s| == |c| && forall i :: 0 <= i < |c| ==> s[i] == c[i].id
  {
    seq(|c|, i requires 0 <= i < |c| => c[i].id)
  }

  ghost predicate AllFine(c: seq<Channel>)
    reads c`state, c`heard, c`totalDataLen
  {
    forall i :: 0 <= i < |c| ==> c[i].Fine()
  }

  lemma {:induction false} IdsWithout(c: seq<Channel>, j: nat)
    requires j < |c|
    ensures IdsOf(Without(c, j)) == IdsOf(c)[..j] + IdsOf(c)[j + 1..] && |Without(c, j)| == |c| - 1
  {
  }

  lemma {:induction false} DistinctWithout(c: seq<Channel>, j: nat)
    requires Distinct(c) && j < |c|
    ensures Distinct(Without(c, j))
  {
  }

  lemma {:induction false} SkipFirst(c: seq<Channel>)
    requires c != [] && Linked(c[0], c)
    ensures Linked(c[0].next, Without(c, 0))
  {
  }

  method SkipOne(prev: Channel, ch: Channel, ghost c: seq<Channel>, ghost j: nat, ghost head: Channel?)
    requires Distinct(c) && 0 < j < |c| && Linked(head, c) && prev == c[j - 1] && ch == c[j]
    modifies prev`next
    ensures Linked(head, Without(c, j))
  {
    prev.next := ch.next;
    ghost var d := Without(c, j);
    forall l | 0 <= l < |d|
      ensures d[l].next == Nth(d, l + 1)
    {
      if l < j - 1 {
        assert d[l] == c[l] && c[l].next == Nth(c, l + 1);
      } else if l > j - 1 {
        assert d[l] == c[l + 1] && c[l + 1].next == Nth(c, l + 2);
      }
    }
  }

  class Session {
    var channels: Channel?
    var nextChannelId: int
    var numChannels: int
    ghost var list: seq<Channel>

    ghost function View(): Ids
      reads this
    {
      Ids(IdsOf(list), nextChannelId)
    }

    ghost predicate Valid()
      reads this, list`next
    {
      Distinct(list) && Linked(channels, list) && IdsGood(View()) && numChannels == |list|
    }

    constructor ()
      ensures Valid() && list == [] && nextChannelId == 0
    {
      channels, nextChannelId, numChannels := null, 0, 0;
      list := [];
    }

    /** channel_register. */
    method Register() returns (ch: Channel)
      requires Valid()
      modifies this
      ensures Valid() && fresh(ch) && list == [ch] + old(list) && View() == Registered(old(View()))
              && ch.id == old(nextChannelId)
      ensures ch.Fine() && ch.heard == []
    {
      hide IdsGood; hide Above; hide Linked; hide Distinct;
      RegisterKeeps(View());
      var id := nextChannelId;
      nextChannelId := NewNext();
      ch := new Channel(id);
      Push(ch);
      numChannels := numChannels + 1;
    }

    method Push(ch: Channel)
      requires Distinct(list) && Linked(channels, list) && ch !in list
      modifies `channels, `list, ch`next
      ensures list == [ch] + old(list) && Distinct(list) && Linked(channels, list)
              && IdsOf(list) == [ch.id] + old(IdsOf(list))
    {
      ghost var c := list;
      ch.next := channels;
      channels := ch;
      list := [ch] + list;
      forall l | 0 <= l < |list|
        ensures list[l].next == Nth(list, l + 1)
      {
        if l > 0 {
          assert list[l] == c[l - 1];
        }
      }
    }

    /** The scan that moves the next id past all open ones. */
    method NewNext() returns (n: int)
      requires Valid()
      ensures n == Above(IdsOf(list), nextChannelId + 1)
    {
      n := nextChannelId + 1;
      var ch := channels;
      ghost var j := 0;
      ghost var ids := IdsOf(list);
      while ch != null
        invariant 0 <= j <= |list| && ch == Nth(list, j) && Above(ids[j..], n) == Above(ids, nextChannelId + 1)
        decreases |list| - j
      {
        assert ids[j..][1..] == ids[j + 1..];
        if ch.id >= n {
          n := ch.id + 1;
        }
        ch := ch.next;
        j := j + 1;
      }
    }

    /** channel_unregister. */
    method Unregister(ch: Channel, ghost j: nat)
      requires Valid() && j < |list| && ch == list[j]
      modifies this, list`next
      ensures Valid() && list == Without(old(list), j) && View() == Unregistered(old(View()), j)
    {
      hide IdsGood; hide Linked; hide Distinct; hide Without;
      UnregisterKeeps(View(), j);
      Unlink(ch, j);
      if ch.id < nextChannelId {
        nextChannelId := ch.id;
      }
      numChannels := numChannels - 1;
    }

    method Unlink(ch: Channel, ghost j: nat)
      requires Distinct(list) && Linked(channels, list) && j < |list| && ch == list[j]
      modifies `channels, `list, list`next
      ensures list == Without(old(list), j) && |list| == |old(list)| - 1 && Distinct(list) && Linked(channels, list)
      ensures IdsOf(list) == old(IdsOf(list))[..j] + old(IdsOf(list))[j + 1..]
    {
      IdsWithout(list, j);
      ghost var c := list;
      if ch == channels {
        assert j == 0;
        channels := ch.next;
        SkipFirst(c);
      } else {
        var tmp := Before(ch, j);
        SkipOne(tmp, ch, c, j, channels);
      }
      list := Without(c, j);
      DistinctWithout(c, j);
    }

    method Before(ch: Channel, ghost j: nat) returns (tmp: Channel)
      requires Distinct(list) && Linked(channels, list) && 0 < j < |list| && ch == list[j]
      ensures tmp == list[j - 1]
    {
      tmp := channels;
      ghost var k := 0;
      while tmp.next != ch
        invariant 0 <= k < j && tmp == list[k]
        decreases j - k
      {
        tmp := tmp.next;
        k := k + 1;
      }
      assert k == j - 1;
    }

    /** The channel a packet names. */
    method Lookup(id: int) returns (ch: Channel?, ghost j: nat)
      requires Valid()
      ensures j <= |list| && ch == Nth(list, j) && (ch != null ==> ch.id == id)
      ensures Reached(IdsOf(list), id) == if ch == null then None else Some(j)
      ensures ch == null ==> forall i :: 0 <= i < |list| ==> list[i].id != id
      ensures ch != null ==> forall i :: 0 <= i < |list| && i != j ==> list[i].id != id
    {
      hide Reached; hide IdsGood; hide Distinct; hide IdsOf;
      ch, j := channels, 0;
      while ch != null
        invariant 0 <= j <= |list| && ch == Nth(list, j) && forall i :: 0 <= i < j ==> list[i].id != id
        decreases |list| - j
      {
        if ch.id == id {
          ReachedHere(list, nextChannelId, id, j);
          return;
        }
        ch := ch.next;
        j := j + 1;
      }
      ReachedNone(list, id);
    }

    /** channel_process: a packet reaches the channel it names and no other. */
    method Process(buf: seq<Byte>, error: bool, beyond: Byte) returns (ch: Channel?, ending: Ending, ghost j: nat)
      requires Valid() && AllFine(list) && |buf| >= 2
      modifies this, list
      ensures Valid() && AllFine(list)
      ensures ch == Nth(old(list), j)
      ensures forall i :: 0 <= i < |old(list)| && i != j ==>
                old(list)[i].heard == old(list[i].heard) && old(list)[i].state == old(list[i].state)
      ensures if ch == null then list == old(list) && NoId(list, Length(buf, 0, 0)) else ch.id == Length(buf, 0, 0)
      ensures old(Reached(IdsOf(list), Length(buf, 0, 0))) == if ch == null then None else Some(j)
      ensures forall i :: 0 <= i < |old(list)| && Names(buf, old(list)[i].id) ==> ch == old(list)[i]
      ensures ch != null && !error && old(list[j].state) == Header ==>
                list == old(list) && HeadersHeard(old(list[j].heard), ch.heard, ch.state, buf[2..], beyond, ending)
      ensures ch != null && (error || old(list[j].state) == Data) ==>
                && ch.heard == old(list[j].heard) + [Event(Final(buf[2..], error), buf[2..],
                |Payload(old(list[j].heard))|)]
                && ch.state == Final(buf[2..], error) && Told(ch.heard, ch.state)
                && list == if ch.state == Data then old(list) else Without(old(list), j)
    {
      hide Linked; hide Length; hide Parse; hide Told; hide Payload; hide IdsGood; hide HeaderEvents; hide Without;
      var id := Length(buf, 0, 0);
      ending := More;
      NamesRead(buf);
      hide Names;
      ch, j := Lookup(id);
      if ch == null {
        return;
      }
      var data := buf[2..];
      if !error && ch.state == Header {
        ending := ch.Headers(data, beyond);
        return;
      }
      DeliverTo(ch, data, error, j);
    }

    /** Data, the end or an error for channel `j`, which is closed unless more may come. */
    method DeliverTo(ch: Channel, data: seq<Byte>, error: bool, ghost j: nat)
      requires Valid() && AllFine(list) && j < |list| && ch == list[j] && (error || ch.state == Data)
      modifies this, list
      ensures Valid() && AllFine(list)
      ensures forall i :: 0 <= i < |old(list)| && i != j ==>
                old(list)[i].heard == old(list[i].heard) && old(list)[i].state == old(list[i].state)
      ensures ch.heard == old(ch.heard) + [Event(Final(data, error), data, |Payload(old(ch.heard))|)]
      ensures ch.state == Final(data, error) && Told(ch.heard, ch.state)
      ensures list == if ch.state == Data then old(list) else Without(old(list), j)
    {
      hide Linked; hide Told; hide Payload; hide IdsGood;
      ch.Deliver(data, error);
      if ch.state == End || ch.state == Error {
        AllButOne(list, j);
        Unregister(ch, j);
      }
    }

    /** The newest channel hears an error and is closed. */
    method FailFirst()
      requires Valid() && AllFine(list) && channels != null
      modifies this, list
      ensures Valid() && AllFine(list) && |old(list)| > 0 && list == old(list)[1..]
      ensures Failed(old(list[0].heard), old(list)[0])
      ensures forall i :: 0 < i < |old(list)| ==> old(list)[i].heard == old(list[i].heard)
    {
      hide Linked; hide Told; hide Payload; hide IdsGood; hide Without;
      FirstOf(channels, list);
      channels.Fail();
      FirstGone(list);
      Unregister(channels, 0);
    }

    /** channel_fail_and_unregister_all: every open channel hears one error, and none is left. */
    method FailAll()
      requires Valid() && AllFine(list)
      modifies this, list
      ensures Valid() && list == []
      ensures forall i :: 0 <= i < |old(list)| ==> Failed(old(list[i].heard), old(list)[i])
    {
      hide Linked; hide IdsGood; hide AllFine; hide Failed; hide Payload; hide Told; hide IdsOf;
      ghost var was := list;
      ghost var k := 0;
      while channels != null
        invariant Valid() && k <= |was| && list == was[k..] && AllFine(list)
        invariant forall i :: k <= i < |was| ==> was[i].heard == old(list[i].heard)
        invariant forall i :: 0 <= i < k ==> Failed(old(list[i].heard), was[i])
        decreases |list|
      {
        FailFirst();
        k := k + 1;
      }
      EmptyList(channels, list);
    }
  }

  /** A channel that had heard `was` has heard an error since, and nothing else. */
  ghost predicate Failed(was: seq<Event>, c: Channel)
    reads c
  {
    c.heard == was + [Event(Error, [], |Payload(was)|)] && Told(c.heard, Error)
  }

  predicate NoId(c: seq<Channel>, id: int) {
    forall i :: 0 <= i < |c| ==> c[i].id != id
  }

  /** What a channel in the header state makes of a packet. */
  ghost predicate HeadersHeard(was: seq<Event>, now: seq<Event>, state: State, data: seq<Byte>, beyond: Byte,
                               ending: Ending) {
    if |data| < 2 then ending == Abort && now == was && state == Header
    else
      var p := Parse(data, 0, beyond);
      ending == p.ending && now == was + HeaderEvents(p.headers) && state == if ending == Last then Data else Header
  }

  lemma {:induction false} AllButOne(c: seq<Channel>, j: nat)
    requires j < |c| && forall i :: 0 <= i < |c| && i != j ==> c[i].Fine()
    ensures AllFine(Without(c, j))
  {
    hide Told; hide Payload;
    var d := Without(c, j);
    forall i | 0 <= i < |d|
      ensures d[i].Fine()
    {
      assert d[i] == c[if i < j then i else i + 1];
    }
  }

  lemma {:induction false} FirstOf(head: Channel?, c: seq<Channel>)
    requires Linked(head, c)
    ensures head == Nth(c, 0)
  {
  }

  lemma {:induction false} EmptyList(head: Channel?, c: seq<Channel>)
    requires Linked(head, c) && head == null
    ensures c == []
  {
  }

  lemma {:induction false} FirstGone(c: seq<Channel>)
    requires c != []
    ensures Without(c, 0) == c[1..]
  {
  }

  lemma {:induction false} ReachedHere(c: seq<Channel>, next: int, id: int, j: nat)
    requires IdsGood(Ids(IdsOf(c), next)) && j < |c| && c[j].id == id
    ensures Reached(IdsOf(c), id) == Some(j) && forall i :: 0 <= i < |c| && i != j ==> c[i].id != id
  {
    hide Reached; hide IdsGood;
    IdsDiffer(c, next, j);
    ReachedAt(IdsOf(c), id, j);
  }

  lemma {:induction false} ReachedNone(c: seq<Channel>, id: int)
    requires forall i :: 0 <= i < |c| ==> c[i].id != id
    ensures Reached(IdsOf(c), id) == None
  {
    hide Reached;
    ReachedIs(IdsOf(c), id);
  }

  lemma {:induction false} IdsDiffer(c: seq<Channel>, next: int, j: nat)
    requires IdsGood(Ids(IdsOf(c), next)) && j < |c|
    ensures forall i :: 0 <= i < |c| && i != j ==> c[i].id != c[j].id
  {
    forall i | 0 <= i < |c| && i != j
      ensures c[i].id != c[j].id
    {
      assert IdsOf(c)[i] != IdsOf(c)[j];
    }
  }
}
