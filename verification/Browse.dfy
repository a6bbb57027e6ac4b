/** Batched metadata retrieval: libopenspotify/browse.c. */
module Browse {
  import opened Basics
  import opened Words
  import opened Channels

  datatype Kind = AlbumBrowse | ArtistBrowse | BrowseAlbum | BrowseArtist | BrowseTrack | BrowsePlaylistTracks

  const MAX_TRACKS_PER_REQUEST := 244
  const INT_MAX := 0x7FFF_FFFF
  const GZIP_HEADER := 10
  const BROWSE_RETRY_TIMEOUT := 30

  /** How many items one request of this kind may ask for. */
  function Limit(kind: Kind): (n: nat)
    ensures 1 <= n <= MAX_TRACKS_PER_REQUEST
  {
    if kind.BrowseTrack? || kind.BrowsePlaylistTracks? then MAX_TRACKS_PER_REQUEST else 1
  }

  /** Items `first` to `first + count` of a browse. */
  datatype Batch = Batch(first: nat, count: nat)

  /** A batch that was answered: by data, or for an artist browse by an error. */
  datatype Answer = Answer(batch: Batch, data: Option<seq<Byte>>)

  /** The payload without the gzip header. */
  function Stripped(data: seq<Byte>): seq<Byte> {
    if |data| <= GZIP_HEADER then [] else data[GZIP_HEADER..]
  }

  /** The answered batches are `0..n` cut up in order, each within the limit. */
  ghost predicate Partition(answers: seq<Answer>, n: nat, kind: Kind) {
    if answers == [] then n == 0
    else
      var b := answers[|answers| - 1].batch;
      1 <= b.count <= Limit(kind) && b.first + b.count == n && Partition(answers[..|answers| - 1], b.first, kind)
  }

  /** Every item below `n` is in exactly one batch. */
  lemma {:induction false} PartitionCovers(answers: seq<Answer>, n: nat, kind: Kind, k: nat) returns (i: nat)
    requires Partition(answers, n, kind) && k < n
    ensures i < |answers| && answers[i].batch.first <= k < answers[i].batch.first + answers[i].batch.count
    ensures forall j :: 0 <= j < |answers| && j != i ==>
              !(answers[j].batch.first <= k < answers[j].batch.first + answers[j].batch.count)
  {
    var last := |answers| - 1;
    var b := answers[last].batch;
    PartitionBelow(answers[..last], b.first, kind);
    if k >= b.first {
      i := last;
      forall j | 0 <= j < |answers| && j != i
        ensures answers[j].batch.first + answers[j].batch.count <= b.first
      {
        assert answers[j] == answers[..last][j];
      }
    } else {
      i := PartitionCovers(answers[..last], b.first, kind, k);
      forall j | 0 <= j < |answers| && j != i
        ensures !(answers[j].batch.first <= k < answers[j].batch.first + answers[j].batch.count)
      {
        assert j < last ==> answers[j] == answers[..last][j];
      }
    }
  }

  lemma {:induction false} PartitionBelow(answers: seq<Answer>, n: nat, kind: Kind)
    requires Partition(answers, n, kind)
    ensures forall j :: 0 <= j < |answers| ==> answers[j].batch.first + answers[j].batch.count <= n
  {
    if answers != [] {
      var last := |answers| - 1;
      PartitionBelow(answers[..last], answers[last].batch.first, kind);
      forall j | 0 <= j < last
        ensures answers[j].batch.first + answers[j].batch.count <= n
      {
        assert answers[j] == answers[..last][j];
      }
    }
  }

  /** The batches without the repeats that follow a request of the same batch. */
  function Once(requests: seq<Batch>): seq<Batch> {
    if requests == [] then []
    else
      var init, last := Once(requests[..|requests| - 1]), requests[|requests| - 1];
      if init != [] && init[|init| - 1] == last then init else init + [last]
  }

  function BatchesOf(answers: seq<Answer>): (b: seq<Batch>)
    ensures |b| == |answers|
  {
    seq(|answers|, i requires 0 <= i < |answers| => answers[i].batch)
  }

  /** How far a browse is: no request is out, one is, or the result is set and the context freed. */
  datatype Phase = Ready | Waiting | Finished

  // ---------------------------------------------------------------- a browse, on values

  /** What a browse has come to: the items browsed, the timeout of its request, the batches requested and answered so
      far, and the calls the channel of the last request has made. */
  datatype Browsing = Browsing(kind: Kind, total: nat, numBrowsed: nat, phase: Phase, nextTimeout: int,
                               requests: seq<Batch>, answers: seq<Answer>, heard: seq<Event>)

  function Start(kind: Kind, total: nat): Browsing {
    Browsing(kind, total, 0, Ready, 0, [], [], [])
  }

  /** The batch that is due: from the first item not browsed yet, as many as the limit allows. */
  function NextBatch(v: Browsing): (b: Batch)
    requires v.numBrowsed <= v.total
    ensures b.first + b.count <= v.total && b.count <= Limit(v.kind) && (v.numBrowsed < v.total ==> b.count >= 1)
  {
    Batch(v.numBrowsed, if v.total - v.numBrowsed < Limit(v.kind) then v.total - v.numBrowsed else Limit(v.kind))
  }

  /** The clock has not reached the timeout that stands while a request is out and after the result. */
  predicate InTime(v: Browsing, now: int) {
    now < INT_MAX || v.phase == Ready || v.nextTimeout > now
  }

  /** The request is processed: before its timeout nothing happens, then the next batch is requested or the result
      set. */
  function Scanned(v: Browsing, now: int): Browsing
    requires v.numBrowsed <= v.total
  {
    if v.nextTimeout > now then v
    else if v.numBrowsed == v.total then v.(phase := Finished, nextTimeout := INT_MAX)
    else v.(phase := Waiting, nextTimeout := INT_MAX, requests := v.requests + [NextBatch(v)], heard := [])
  }

  /** The last batch requested is answered. */
  function Answered(v: Browsing, data: Option<seq<Byte>>): Browsing
    requires v.requests != []
  {
    var b := v.requests[|v.requests| - 1];
    v.(phase := Ready, nextTimeout := 0, numBrowsed := v.numBrowsed + b.count, answers := v.answers + [Answer(b, data)])
  }

  /** The channel calls: the end answers with the payload less ten bytes, an error answers an artist browse with nothing
      and has any other retried. */
  function Called(v: Browsing, e: Event, now: int): Browsing
    requires v.requests != []
  {
    var w := v.(heard := v.heard + [e]);
    match e.state
    case Header => w
    case Data => w
    case End => Answered(w, Some(Stripped(Payload(w.heard))))
    case Error =>
      if v.kind == ArtistBrowse then Answered(w, None)
      else w.(phase := Ready, nextTimeout := now + BROWSE_RETRY_TIMEOUT)
  }

  /** The next batch has been requested and not been answered. */
  ghost predicate Asking(v: Browsing) {
    |Once(v.requests)| > |v.answers|
  }

  /** The answered batches cut up the items browsed, in order; the batches requested, repeats of the last one aside, are
      those answered, in that order, and behind them at most the next one, for which a waiting browse waits. */
  ghost predicate Sound(v: Browsing) {
    && v.numBrowsed <= v.total && Partition(v.answers, v.numBrowsed, v.kind)
    && Once(v.requests) == BatchesOf(v.answers) + (if Asking(v) then [NextBatch(v)] else [])
    && (Asking(v) ==> v.numBrowsed < v.total)
    && (v.phase == Waiting ==>
          Asking(v) && v.requests != [] && v.requests[|v.requests| - 1] == NextBatch(v) && v.nextTimeout == INT_MAX)
    && (v.phase == Finished ==> v.numBrowsed == v.total && v.nextTimeout == INT_MAX)
  }

  lemma {:induction false} OnceMore(requests: seq<Batch>, next: Batch)
    ensures var init := Once(requests);
            Once(requests + [next]) == if init != [] && init[|init| - 1] == next then init else init + [next]
  {
    assert (requests + [next])[..|requests|] == requests;
  }

  lemma {:induction false} ScannedSound(v: Browsing, now: int)
    requires Sound(v) && InTime(v, now)
    ensures Sound(Scanned(v, now))
  {
    hide Once;
    if v.nextTimeout <= now && v.numBrowsed < v.total {
      var init := Once(v.requests);
      OnceMore(v.requests, NextBatch(v));
      if !Asking(v) && v.answers != [] {
        assert init[|init| - 1] == v.answers[|v.answers| - 1].batch != NextBatch(v);
      }
    }
  }

  lemma {:induction false} AnsweredSound(v: Browsing, data: Option<seq<Byte>>)
    requires Sound(v) && v.phase == Waiting
    ensures Sound(Answered(v, data))
  {
    hide Once;
    var w := Answered(v, data);
    assert w.answers[..|w.answers| - 1] == v.answers;
    assert BatchesOf(w.answers) == BatchesOf(v.answers) + [NextBatch(v)];
  }

  lemma {:induction false} CalledSound(v: Browsing, e: Event, now: int)
    requires Sound(v) && v.phase == Waiting
    ensures Sound(Called(v, e, now))
  {
    hide Once; hide Partition; hide BatchesOf; hide Stripped;
    var w := v.(heard := v.heard + [e]);
    if e.state == End {
      AnsweredSound(w, Some(Stripped(Payload(w.heard))));
    } else if e.state == Error && v.kind == ArtistBrowse {
      AnsweredSound(w, None);
    }
  }

  // ---------------------------------------------------------------- whole browses, on values

  /** The request is processed, or its channel calls back. */
  datatype Move = Scan(now: int) | Call(e: Event, now: int)

  ghost predicate CanMove(v: Browsing, m: Move) {
    match m
    case Scan(now) => InTime(v, now)
    case Call(e, _) => v.phase == Waiting && Told(v.heard + [e], e.state)
  }

  ghost function Moved(v: Browsing, m: Move): Browsing
    requires Sound(v) && CanMove(v, m)
    ensures Sound(Moved(v, m))
  {
    match m
    case Scan(now) => ScannedSound(v, now); Scanned(v, now)
    case Call(e, now) => CalledSound(v, e, now); Called(v, e, now)
  }

  ghost predicate CanRun(v: Browsing, moves: seq<Move>)
    requires Sound(v)
    decreases |moves|, 0
  {
    moves == [] || (CanRun(v, moves[..|moves| - 1]) && CanMove(After(v, moves[..|moves| - 1]), moves[|moves| - 1]))
  }

  ghost function After(v: Browsing, moves: seq<Move>): (w: Browsing)
    requires Sound(v) && CanRun(v, moves)
    ensures Sound(w)
    decreases |moves|, 1
  {
    if moves == [] then v else Moved(After(v, moves[..|moves| - 1]), moves[|moves| - 1])
  }

  /** How often the result is set. */
  ghost function Results(v: Browsing, moves: seq<Move>): nat
    requires Sound(v) && CanRun(v, moves)
  {
    if moves == [] then 0
    else
      var init := moves[..|moves| - 1];
      Results(v, init) + if After(v, init).phase != Finished && After(v, moves).phase == Finished then 1 else 0
  }

  lemma {:induction false} StartSound(kind: Kind, total: nat)
    ensures Sound(Start(kind, total))
  {
  }

  /** In every run of scans and calls: the result is set once if the browse is finished and not before; then every item
      has been in exactly one batch (`PartitionCovers`), and the batches requested, repeats of the last one aside, are
      the batches answered, in the same order. */
  lemma {:induction false} WholeBrowse(kind: Kind, total: nat, moves: seq<Move>)
    requires Sound(Start(kind, total)) && CanRun(Start(kind, total), moves)
    ensures var v := After(Start(kind, total), moves);
            && v.kind == kind && v.total == total
            && Results(Start(kind, total), moves) == (if v.phase == Finished then 1 else 0)
            && (v.phase == Finished ==> Partition(v.answers, total, kind) && Once(v.requests) == BatchesOf(v.answers))
  {
    hide Once; hide Partition; hide BatchesOf; hide Told; hide Stripped; hide Payload;
    var v := Start(kind, total);
    if moves != [] {
      WholeBrowse(kind, total, moves[..|moves| - 1]);
    }
  }

  // ---------------------------------------------------------------- what the answers hold

  /** The data that the channel of the last request has given out since its request: that since the last end or
      error. */
  function Gathered(moves: seq<Move>): seq<Byte> {
    if moves == [] then []
    else
      match moves[|moves| - 1]
      case Scan(_) => Gathered(moves[..|moves| - 1])
      case Call(e, _) =>
        if e.state == Data then Gathered(moves[..|moves| - 1]) + e.bytes
        else if e.state == Header then Gathered(moves[..|moves| - 1])
        else []
  }

  /** What the channels that ended gave out, less its first ten bytes, in order; an artist browse also counts the
      channels that failed, with nothing. */
  function Outcomes(moves: seq<Move>, artist: bool): seq<Option<seq<Byte>>> {
    if moves == [] then []
    else
      var init, before := moves[..|moves| - 1], Outcomes(moves[..|moves| - 1], artist);
      match moves[|moves| - 1]
      case Scan(_) => before
      case Call(e, _) =>
        if e.state == End then
          before + [Some(if |Gathered(init)| <= 10 then [] else Gathered(init)[10..])]
        else if e.state == Error && artist then before + [None]
        else before
  }

  function DataOf(answers: seq<Answer>): (d: seq<Option<seq<Byte>>>)
    ensures |d| == |answers|
  {
    seq(|answers|, i requires 0 <= i < |answers| => answers[i].data)
  }

  /** The bytes that the open channel has given out are those gathered. */
  ghost predicate Follows(v: Browsing, moves: seq<Move>) {
    && DataOf(v.answers) == Outcomes(moves, v.kind == ArtistBrowse)
    && Gathered(moves) == (if v.phase == Waiting then Payload(v.heard) else [])
  }

  lemma {:induction false} WaitsForTimeout(v: Browsing, now: int)
    requires Sound(v) && InTime(v, now) && v.phase != Ready
    ensures v.nextTimeout > now && Scanned(v, now) == v
  {
  }

  lemma {:induction false} MoveFollows(v: Browsing, moves: seq<Move>, m: Move)
    requires Sound(v) && CanMove(v, m) && Follows(v, moves)
    ensures Follows(Moved(v, m), moves + [m])
  {
    hide Sound; hide Once; hide Told; hide Partition; hide InTime;
    assert (moves + [m])[..|moves|] == moves;
    Timeouts(v);
    var w := Moved(v, m);
    match m {
      case Scan(now) =>
        if v.phase != Ready {
          WaitsForTimeout(v, now);
        }
      case Call(e, now) =>
        WaitsForNext(v);
        PayloadMore(v.heard, e);
        if |w.answers| > |v.answers| {
          assert w.answers == v.answers + [w.answers[|v.answers|]];
          assert DataOf(w.answers) == DataOf(v.answers) + [w.answers[|v.answers|].data];
        }
    }
  }

  /** In every run the answers hold exactly what the channels that ended gave out, less the first ten bytes. */
  lemma {:induction false} AnswersHold(kind: Kind, total: nat, moves: seq<Move>)
    requires Sound(Start(kind, total)) && CanRun(Start(kind, total), moves)
    ensures DataOf(After(Start(kind, total), moves).answers) == Outcomes(moves, kind == ArtistBrowse)
    ensures kind != ArtistBrowse ==>
              forall i :: 0 <= i < |After(Start(kind, total), moves).answers| ==>
                After(Start(kind, total), moves).answers[i].data.Some?
  {
    RunFollows(kind, total, moves);
    OutcomesSome(moves);
    var v := After(Start(kind, total), moves);
    assert forall i :: 0 <= i < |v.answers| ==> v.answers[i].data == DataOf(v.answers)[i];
  }

  lemma {:induction false} RunFollows(kind: Kind, total: nat, moves: seq<Move>)
    requires Sound(Start(kind, total)) && CanRun(Start(kind, total), moves)
    ensures Follows(After(Start(kind, total), moves), moves) && After(Start(kind, total), moves).kind == kind
  {
    hide Sound; hide Follows; hide CanMove; hide Scanned; hide Called; hide Moved;
    var v := Start(kind, total);
    if moves == [] {
      StartFollows(kind, total);
    } else {
      var init, m := moves[..|moves| - 1], moves[|moves| - 1];
      RunFollows(kind, total, init);
      MoveFollows(After(v, init), init, m);
      KindStays(After(v, init), m);
      assert init + [m] == moves;
    }
  }

  lemma {:induction false} StartFollows(kind: Kind, total: nat)
    ensures Follows(Start(kind, total), [])
  {
  }

  lemma {:induction false} KindStays(v: Browsing, m: Move)
    requires Sound(v) && CanMove(v, m)
    ensures Moved(v, m).kind == v.kind && Moved(v, m).total == v.total
  {
  }

  lemma {:induction false} OutcomesSome(moves: seq<Move>)
    ensures forall i :: 0 <= i < |Outcomes(moves, false)| ==> Outcomes(moves, false)[i].Some?
  {
    if moves != [] {
      OutcomesSome(moves[..|moves| - 1]);
    }
  }

  /** An error of a channel costs nothing but time, artist browses aside: the items browsed and the answers stay,
      nothing happens for the retry timeout, and the first scan after it requests the same batch again. */
  lemma {:induction false} ErrorRetries(kind: Kind, total: nat, moves: seq<Move>, e: Event, now: int, soon: int,
                                        later: int)
    requires Sound(Start(kind, total)) && CanRun(Start(kind, total), moves) && kind != ArtistBrowse
    requires e.state == Error && CanMove(After(Start(kind, total), moves), Call(e, now))
    requires soon < now + 30 <= later
    ensures var v := After(Start(kind, total), moves);
            var w := Moved(v, Call(e, now));
            && w.numBrowsed == v.numBrowsed && w.answers == v.answers && w.requests == v.requests != []
            && CanMove(w, Scan(soon)) && Moved(w, Scan(soon)) == w
            && CanMove(w, Scan(later)) && Moved(w, Scan(later)).phase == Waiting
            && Moved(w, Scan(later)).requests == v.requests + [v.requests[|v.requests| - 1]]
  {
    hide Sound; hide Told; hide CanRun; hide After;
    RunFollows(kind, total, moves);
    var v := After(Start(kind, total), moves);
    WaitsForNext(v);
    StillBrowsing(v);
  }

  lemma {:induction false} StillBrowsing(v: Browsing)
    requires Sound(v) && v.phase == Waiting
    ensures v.numBrowsed < v.total
  {
  }

  /** Every batch requested in a run is as large as it may be: one item, or 244 for the two track kinds, or what is
      left. */
  ghost predicate FullBatches(v: Browsing) {
    var limit := if v.kind == BrowseTrack || v.kind == BrowsePlaylistTracks then 244 else 1;
    forall i :: 0 <= i < |v.requests| ==>
      var b := v.requests[i];
      b.first < v.total && b.count == if v.total - b.first < limit then v.total - b.first else limit
  }

  lemma {:induction false} RequestsFull(kind: Kind, total: nat, moves: seq<Move>)
    requires Sound(Start(kind, total)) && CanRun(Start(kind, total), moves)
    ensures FullBatches(After(Start(kind, total), moves))
  {
    hide Sound; hide Told; hide Payload; hide Stripped; hide InTime;
    if moves != [] {
      RequestsFull(kind, total, moves[..|moves| - 1]);
      var v, w := After(Start(kind, total), moves[..|moves| - 1]), After(Start(kind, total), moves);
      if |w.requests| > |v.requests| {
        assert w.requests == v.requests + [NextBatch(v)];
      }
    }
  }

  // ---------------------------------------------------------------- the browser

  class Browser {
    const kind: Kind
    const total: nat
    var numBrowsed: nat
    var numInRequest: nat
    var buf: Option<seq<Byte>>
    var nextTimeout: int
    var phase: Phase

    /** What was requested and what was answered, and the calls the open channel has made so far. */
    ghost var requests: seq<Batch>
    ghost var answers: seq<Answer>
    ghost var heard: seq<Event>

    ghost function View(): Browsing
      reads this
    {
      Browsing(kind, total, numBrowsed, phase, nextTimeout, requests, answers, heard)
    }

    ghost predicate Valid()
      reads this
    {
      && Sound(View())
      && buf == (if phase == Waiting then Some(Stripped(Payload(heard))) else None)
      && (phase == Waiting ==> numInRequest == NextBatch(View()).count)
    }

    constructor (kind: Kind, total: nat)
      ensures Valid() && View() == Start(kind, total)
    {
      this.kind, this.total := kind, total;
      numBrowsed, numInRequest, buf, nextTimeout, phase := 0, 0, None, 0, Ready;
      requests, answers, heard := [], [], [];
    }

    /** browse_process. A clock that has reached INT_MAX meets the assertion that no buffer is there, or the freed
        context, and the model stops. */
    method Process(now: int) returns (ok: bool)
      requires Valid()
      modifies this
      ensures Valid() && (ok <==> InTime(old(View()), now))
      ensures View() == if ok then Scanned(old(View()), now) else old(View())
      ensures ok && old(nextTimeout) <= now && numBrowsed == total ==> phase == Finished && requests == old(requests)
      ensures ok && old(nextTimeout) <= now && numBrowsed < total ==>
                phase == Waiting && |requests| == |old(requests)| + 1 && requests[..|old(requests)|] == old(requests)
    {
      hide Sound;
      assert Sound(View()) ==> phase != Ready ==> nextTimeout == INT_MAX by {
        Timeouts(View());
      }
      if nextTimeout > now {
        return true;
      }
      nextTimeout := INT_MAX;
      if phase != Ready {
        return false;
      }
      ScannedSound(old(View()), now);
      Send();
      return true;
    }

    /** browse_send_generic_request. */
    method Send()
      requires phase == Ready && numBrowsed <= total && nextTimeout == INT_MAX && buf == None
      modifies this
      ensures View() == Scanned(old(View()), INT_MAX)
      ensures buf == (if phase == Waiting then Some(Stripped(Payload(heard))) else None)
      ensures phase == Waiting ==> numInRequest == NextBatch(old(View())).count
    {
      if numBrowsed == total {
        phase := Finished;
        return;
      }
      numInRequest := total - numBrowsed;
      if !kind.BrowseTrack? && !kind.BrowsePlaylistTracks? {
        if numInRequest > 1 {
          numInRequest := 1;
        }
      } else {
        if numInRequest > MAX_TRACKS_PER_REQUEST {
          numInRequest := MAX_TRACKS_PER_REQUEST;
        }
      }
      assert buf == None;
      buf := Some([]);
      heard := [];
      requests := requests + [Batch(numBrowsed, numInRequest)];
      phase := Waiting;
    }

    /** browse_generic_callback, for the calls a channel makes while the request is out. */
    method Callback(e: Event, now: int)
      requires Valid() && phase == Waiting && Told(heard + [e], e.state)
      modifies this
      ensures Valid() && View() == Called(old(View()), e, now)
      ensures requests == old(requests) != [] && heard == old(heard) + [e]
      ensures e.state == Header || e.state == Data ==> phase == Waiting && answers == old(answers)
      ensures e.state == End || (e.state == Error && kind == ArtistBrowse) ==>
                && phase == Ready && nextTimeout == 0
                && numBrowsed == old(numBrowsed) + requests[|requests| - 1].count
                && |answers| == |old(answers)| + 1 && answers[..|old(answers)|] == old(answers)
      ensures e.state == Error && kind != ArtistBrowse ==>
                && phase == Ready && nextTimeout == now + 30
                && numBrowsed == old(numBrowsed) && answers == old(answers)
    {
      hide Sound; hide Told; hide Payload; hide Stripped;
      ghost var received := Payload(heard);
      PayloadMore(heard, e);
      WaitsForNext(View());
      CalledSound(View(), e, now);
      heard := heard + [e];
      match e.state
      case Header =>
      case Data =>
        var payload := e.bytes;
        if e.before < GZIP_HEADER {
          payload := Skip(payload, GZIP_HEADER - e.before);
        }
        StrippedMore(received, e.bytes);
        if payload != [] {
          buf := Some(buf.value + payload);
        }
        assert buf.value == Stripped(received + e.bytes);
      case Error =>
        buf := None;
        phase := Ready;
        if kind == ArtistBrowse {
          Advance(None);
        } else {
          nextTimeout := now + BROWSE_RETRY_TIMEOUT;
        }
      case End =>
        var data := buf;
        buf := None;
        phase := Ready;
        Advance(data);
    }

    /** The parser runs on what was received, and the browse moves on. */
    method Advance(data: Option<seq<Byte>>)
      requires requests != [] && numInRequest == requests[|requests| - 1].count && phase == Ready
      modifies `answers, `numBrowsed, `nextTimeout
      ensures View() == Answered(old(View()), data)
    {
      answers := answers + [Answer(requests[|requests| - 1], data)];
      numBrowsed := numBrowsed + numInRequest;
      nextTimeout := 0;
    }
  }

  /** While a request is out and after the result the timeout is INT_MAX. */
  lemma {:induction false} Timeouts(v: Browsing)
    requires Sound(v)
    ensures v.phase != Ready ==> v.nextTimeout == INT_MAX
  {
  }

  lemma {:induction false} WaitsForNext(v: Browsing)
    requires Sound(v) && v.phase == Waiting
    ensures v.numBrowsed <= v.total && v.requests != [] && v.requests[|v.requests| - 1] == NextBatch(v)
  {
  }

  lemma {:induction false} PayloadMore(heard: seq<Event>, e: Event)
    requires Told(heard + [e], e.state)
    ensures e.before == |Payload(heard)|
    ensures Payload(heard + [e]) == if e.state == Data then Payload(heard) + e.bytes else Payload(heard)
  {
    assert (heard + [e])[..|heard|] == heard;
  }

  /** The loop that skips what is left of the header. */
  method Skip(bytes: seq<Byte>, skip: nat) returns (payload: seq<Byte>)
    ensures payload == if skip <= |bytes| then bytes[skip..] else []
  {
    payload := bytes;
    var n := skip;
    while n > 0 && payload != []
      invariant 0 <= n <= skip && skip - n <= |bytes| && payload == bytes[skip - n..]
    {
      n := n - 1;
      payload := payload[1..];
    }
  }

  /** The header is skipped once, wherever the packets cut it. */
  lemma {:induction false} StrippedMore(received: seq<Byte>, bytes: seq<Byte>)
    ensures Stripped(received + bytes) ==
            Stripped(received) + if |received| >= GZIP_HEADER then bytes
                                 else if GZIP_HEADER - |received| <= |bytes| then bytes[GZIP_HEADER - |received|..]
                                   else []
  {
  }

  // ---------------------------------------------------------------- a browse and its channels

  /** What reaches a browse: the I/O thread's scan, a packet for the channel of its request, or the loss of it. */
  datatype Step = Tick(now: int) | Arrival(data: seq<Byte>, error: bool, beyond: Byte, now: int) | Loss(now: int)

  /** The browse hears what its channel announces. */
  method Announced(b: Browser, headers: seq<seq<Byte>>, now: int)
    requires b.Valid() && b.phase == Waiting && Told(b.heard, Header)
    modifies b
    ensures b.Valid() && b.View() == old(b.View()).(heard := old(b.heard) + HeaderEvents(headers))
  {
    hide Told; hide Sound; hide Stripped; hide Payload;
    for k := 0 to |headers|
      invariant b.Valid() && b.phase == Waiting && Told(b.heard, Header)
      invariant b.View() == old(b.View()).(heard := old(b.heard) + HeaderEvents(headers[..k]))
    {
      var e := Event(Header, headers[k], 0);
      HeadersOnly(b.heard);
      ToldMore(b.heard, e);
      WaitsForNext(b.View());
      b.Callback(e, now);
      EventsMore(headers[..k], headers[k]);
      assert headers[..k + 1] == headers[..k] + [headers[k]];
    }
    assert headers[..|headers|] == headers;
  }

  /** A packet reaches the channel and its callback the browse; `false` if an assertion about the headers fails. */
  method Arrive(ch: Channel, b: Browser, data: seq<Byte>, error: bool, beyond: Byte, now: int) returns (ok: bool)
    requires ch.Fine() && b.Valid() && b.phase == Waiting && b.heard == ch.heard && b.requests != []
    modifies ch, b
    ensures b.Valid() && b.heard == ch.heard && (b.phase == Waiting ==> ch.Fine()) && b.phase != Finished
    ensures !error && old(ch.state) == Header ==>
              && ch.heard == old(ch.heard) + (if |data| < 2 then [] else HeaderEvents(Parse(data, 0, beyond).headers))
              && (ok <==> |data| >= 2 && Parse(data, 0, beyond).ending != Abort)
              && b.View() == old(b.View()).(heard := ch.heard)
    ensures error || old(ch.state) == Data ==>
              b.View() == Called(old(b.View()), Event(Final(data, error), data, |Payload(old(ch.heard))|), now)
  {
    hide Told; hide Sound; hide Stripped; hide Payload; hide Parse;
    if !error && ch.state == Header {
      var ending := ch.Headers(data, beyond);
      if |data| >= 2 {
        Announced(b, Parse(data, 0, beyond).headers, now);
      }
      ok := ending != Abort;
    } else {
      var counted := ch.totalDataLen;
      ch.Deliver(data, error);
      b.Callback(Event(ch.state, data, counted), now);
      ok := true;
    }
  }
}
