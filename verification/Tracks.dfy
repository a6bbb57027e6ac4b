/** The track cache of libopenspotify/sp_track.c and its garbage collection. */
module Tracks {
  import opened Basics
  import opened Hashtables

  const ID_SIZE := 16

  class Track {
    const id: Key
    var refCount: nat

    constructor (id: Key)
      ensures this.id == id && refCount == 0
    {
      this.id, refCount := id, 0;
    }
  }

  // ---------------------------------------------------------------- what a collection leaves of a chain

  /** The entries of `c` that are in `keep`, in their order. */
  ghost function Filter<T>(c: seq<T>, keep: set<T>): seq<T>
  {
    if c == [] then []
    else if c[0] in keep then [c[0]] + Filter(c[1..], keep)
    else Filter(c[1..], keep)
  }

  lemma {:induction false} FilterMembers<T>(c: seq<T>, keep: set<T>)
    ensures forall x :: x in Filter(c, keep) <==> x in c && x in keep
  {
    if c != [] {
      FilterMembers(c[1..], keep);
      assert c == [c[0]] + c[1..];
    }
  }

  lemma {:induction false} FilterAll<T>(c: seq<T>, keep: set<T>)
    requires forall x :: x in c ==> x in keep
    ensures Filter(c, keep) == c
  {
    if c != [] {
      FilterAll(c[1..], keep);
    }
  }

  lemma {:induction false} FilterSame<T>(c: seq<T>, keep: set<T>, less: set<T>)
    requires forall x :: x in c ==> (x in keep <==> x in less)
    ensures Filter(c, keep) == Filter(c, less)
  {
    if c != [] {
      FilterSame(c[1..], keep, less);
    }
  }

  /** Keeping one entry less takes it out of the filtered chain. */
  lemma {:induction false} FilterLess<T>(c: seq<T>, keep: set<T>, e: T, j: nat)
    requires Distinct(c) && j < |Filter(c, keep)| && Filter(c, keep)[j] == e
    ensures Filter(c, keep - {e}) == Without(Filter(c, keep), j)
  {
    FilterFirst(c, keep);
    FilterFirst(c, keep - {e});
    var tail := c[1..];
    var f := Filter(tail, keep);
    HeadElsewhere(c);
    hide Filter; hide Without; hide Distinct;
    if c[0] in keep {
      if j == 0 {
        FilterSame(tail, keep, keep - {e});
        WithoutFirst(c[0], f);
      } else {
        assert f[j - 1] == e;
        FilterLess(tail, keep, e, j - 1);
        FilterMembers(tail, keep);
        assert e in tail;
        WithoutLater(c[0], f, j);
      }
    } else {
      FilterLess(tail, keep, e, j);
    }
  }

  lemma {:induction false} HeadElsewhere<T>(c: seq<T>)
    requires Distinct(c)
    ensures c != [] ==> Distinct(c[1..]) && c[0] !in c[1..]
  {
  }

  lemma {:induction false} FilterFirst<T>(c: seq<T>, keep: set<T>)
    ensures c == [] ==> Filter(c, keep) == []
    ensures c != [] ==> Filter(c, keep) == if c[0] in keep then [c[0]] + Filter(c[1..], keep) else Filter(c[1..], keep)
  {
  }

  lemma {:induction false} WithoutFirst<T>(x: T, f: seq<T>)
    ensures Without([x] + f, 0) == f
  {
  }

  lemma {:induction false} WithoutLater<T>(x: T, f: seq<T>, j: nat)
    requires 0 < j <= |f|
    ensures Without([x] + f, j) == [x] + Without(f, j - 1)
  {
  }

  // ---------------------------------------------------------------- the cache

  ghost predicate Cached(table: map<Key, Track>, tracks: set<Track>) {
    && (forall id :: id in table ==> table[id].id == id && table[id] in tracks)
    && (forall t :: t in tracks ==> t.id in table && table[t.id] == t)
  }

  lemma {:induction false} CachedMore(table: map<Key, Track>, tracks: set<Track>, t: Track)
    requires Cached(table, tracks) && t.id !in table
    ensures Cached(table[t.id := t], tracks + {t})
  {
  }

  lemma {:induction false} CachedLess(table: map<Key, Track>, tracks: set<Track>, t: Track)
    requires Cached(table, tracks) && t in tracks
    ensures t.id in table && table[t.id] == t && Cached(table - {t.id}, tracks - {t})
  {
  }

  lemma {:induction false} CachedId(table: map<Key, Track>, tracks: set<Track>, id: Key)
    requires Cached(table, tracks) && id in table
    ensures table[id].id == id && table[id] in tracks
  {
  }

  class TrackCache {
    const hashtable: HashTable<Track>
    ghost var tracks: set<Track>

    /** The table maps the id of every allocated track to that track. */
    ghost predicate Valid()
      reads this, hashtable, hashtable.entries, hashtable.live`next
    {
      && hashtable.Valid() && hashtable.keysize == ID_SIZE
      && Cached(hashtable.table, tracks)
    }

    constructor ()
      ensures Valid() && tracks == {} && fresh(hashtable) && fresh(hashtable.entries) && hashtable.live == {}
              && hashtable.freelist == []
    {
      hashtable := new HashTable<Track>(ID_SIZE);
      tracks := {};
    }

    /** osfy_track_add: the track of this id, made if there is none. */
    method Add(id: Key, garbage: bool) returns (track: Track)
      requires Valid() && |id| == ID_SIZE
      modifies this, hashtable, hashtable.entries, hashtable.live`next
      ensures Valid() && track.id == id
      ensures id in old(hashtable.table) ==> track == old(hashtable.table[id])
                                             && hashtable.table == old(hashtable.table) && tracks == old(tracks)
      ensures id !in old(hashtable.table) ==>
                fresh(track) && track.refCount == 0 && hashtable.table == old(hashtable.table)[id := track]
                  && tracks == old(tracks) + {track}
      ensures fresh(hashtable.live - old(hashtable.live)) && hashtable.freelist == old(hashtable.freelist)
    {
      hide Holds; hide Allocated; hide Links; hide Cached;
      var found := hashtable.Find(id);
      if found.Some? {
        CachedId(hashtable.table, tracks, id);
        return found.value;
      }
      track := new Track(id);
      CachedMore(hashtable.table, tracks, track);
      ghost var e := hashtable.Insert(id, track, garbage);
      tracks := tracks + {track};
    }

    /** osfy_track_free: the entry leaves the table and the track is freed. */
    method FreeTrack(track: Track) returns (ghost e: Entry<Track>, ghost j: nat)
      requires Valid() && track in tracks && track.refCount == 0
      modifies this, hashtable, hashtable.entries, hashtable.live`next
      ensures Valid() && tracks == old(tracks) - {track} && hashtable.table == old(hashtable.table) - {track.id}
      ensures |track.id| >= 4 && |old(hashtable.chains)| == SIZE
      ensures j < |old(hashtable.chains)[Index(track.id)]| && e == old(hashtable.chains)[Index(track.id)][j]
              && e.key == track.id
      ensures hashtable.chains == old(hashtable.chains)[Index(track.id) :=
                Without(old(hashtable.chains)[Index(track.id)], j)]
      ensures e.next == old(e.next)
      ensures e.dontFree ==> hashtable.freelist == old(hashtable.freelist) + [e]
                             && hashtable.live == old(hashtable.live)
      ensures !e.dontFree ==> hashtable.freelist == old(hashtable.freelist)
                              && hashtable.live == old(hashtable.live) - {e}
    {
      hide Holds; hide Allocated; hide Links; hide Cached; hide Without;
      CachedLess(hashtable.table, tracks, track);
      KeySize(hashtable.chains, hashtable.keysize, hashtable.table, track.id);
      var held;
      ghost var x;
      held, x, j := hashtable.Remove(track.id);
      e := x;
      tracks := tracks - {track};
    }

    /** sp_track_release: the last reference frees the track. */
    method Release(track: Track)
      requires Valid() && track in tracks && track.refCount > 0
      modifies this, hashtable, hashtable.entries, hashtable.live`next, track
      ensures Valid() && track.refCount == old(track.refCount) - 1
      ensures track.refCount > 0 ==> tracks == old(tracks) && hashtable.table == old(hashtable.table)
      ensures track.refCount == 0 ==> tracks == old(tracks) - {track}
                                      && hashtable.table == old(hashtable.table) - {track.id}
    {
      hide Holds; hide Allocated; hide Links; hide Cached; hide Without;
      track.refCount := track.refCount - 1;
      if track.refCount > 0 {
        return;
      }
      ghost var e, j := FreeTrack(track);
    }

    /** One step of the collection: the current entry's track is freed if nothing refers to it. */
    method Collect(iter: HashIterator<Track>, entry: Entry<Track>, ghost was: seq<seq<Entry<Track>>>,
                   ghost kept: set<Entry<Track>>)
      requires Valid() && iter.InStep() && iter.hashtable == hashtable && iter.entry == entry
      requires entry.value.refCount == 0 && entry !in kept && entry !in iter.Todo() && entry in Flatten(was)
      requires Filtered(was, hashtable.chains, kept + Members([entry] + iter.Todo())) && AllDistinct(was)
      modifies this, hashtable, hashtable.entries, hashtable.live`next
      ensures Valid() && iter.InStep() && iter.Todo() == old(iter.Todo())
      ensures Filtered(was, hashtable.chains, kept + Members(iter.Todo())) && hashtable.live == old(hashtable.live)
      ensures hashtable.table == old(hashtable.table) - {entry.key} && tracks == old(tracks) - {entry.value}
      ensures entry.key in old(hashtable.table) && old(hashtable.table)[entry.key] == entry.value
      ensures entry.value in old(tracks)
    {
      hide Holds; hide Allocated; hide Links; hide Cached; hide Filtered; hide AllDistinct; hide Behind; hide Index;
      hide Apart;
      ghost var chains, keep, todo := hashtable.chains, kept + Members([entry] + iter.Todo()), iter.Todo();
      HoldsSize(chains, hashtable.keysize, hashtable.table);
      ghost var b, n := StillThere(was, chains, keep, entry);
      BucketKey(chains, hashtable.keysize, hashtable.table, b, n);
      CachedId(hashtable.table, tracks, entry.key);
      ghost var e, j := FreeTrack(entry.value);
      SameEntry(chains, hashtable.keysize, old(hashtable.table), b, j, n);
      FilteredLess(was, chains, keep, entry, b, j);
      assert keep - {entry} == kept + Members(todo);
      EndKept(iter.rest, chains[b], j);
      BehindKept(chains, hashtable.chains, iter.offset, b);
    }

    /** The body of the collecting loop. */
    method Visit(iter: HashIterator<Track>, ghost was: seq<seq<Entry<Track>>>, ghost kept: set<Entry<Track>>,
                 ghost before: map<Key, Track>,
                 ghost visited: seq<Entry<Track>>) returns (more: bool, ghost after: seq<Entry<Track>>)
      requires Valid() && iter.InStep() && iter.hashtable == hashtable
      requires Collecting(iter.Todo(), hashtable.chains, hashtable.table, was, kept, before, visited)
      requires InLive(was, hashtable.live) && kept == ReferredEntries(hashtable.live)
      modifies this, iter, hashtable, hashtable.entries, hashtable.live
      ensures Valid() && iter.InStep() && hashtable.live == old(hashtable.live)
      ensures if more then |iter.Todo()| < |old(iter.Todo())| else iter.Todo() == []
      ensures Collecting(iter.Todo(), hashtable.chains, hashtable.table, was, kept, before, after)
    {
      hide Holds; hide Allocated; hide Links; hide Cached; hide Filtered; hide AllDistinct; hide Collecting;
      hide Index; hide Flatten; hide InLive;
      hide HashIterator.InStep; hide HashIterator.Todo; hide Valid;
      ghost var todo, live := iter.Todo(), hashtable.live;
      var entry := iter.Next();
      if entry == null {
        return false, visited;
      }
      NextVisited(todo, hashtable.chains, hashtable.table, was, kept, before, visited, entry, iter.Todo(), live);
      more, after := true, visited + [entry];
      if entry.value.refCount != 0 {
        return;
      }
      ghost var prior, table := hashtable.chains, hashtable.table;
      Collect(iter, entry, was, kept);
      NextCollected(iter.Todo(), prior, hashtable.chains, table, was, kept, before, visited, entry);
    }

    /** osfy_track_garbage_collect: every entry is visited once, in the order of the table; what is left are the tracks
        that something refers to, and no entry is left whose release was put off. */
    method GarbageCollect() returns (ghost visited: seq<Entry<Track>>)
      requires Valid()
      modifies this, hashtable, hashtable.entries, hashtable.live
      ensures Valid() && hashtable.freelist == []
      ensures visited == Flatten(old(hashtable.chains))
      ensures tracks == set t | t in old(tracks) && t.refCount > 0
      ensures hashtable.table == map id | id in old(hashtable.table) && old(hashtable.table)[id].refCount > 0
                                     :: old(hashtable.table)[id]
      ensures hashtable.live == set e | e in visited && e.value.refCount > 0
      ensures Filtered(old(hashtable.chains), hashtable.chains, hashtable.live)
    {
      hide Holds; hide Allocated; hide Links; hide Cached; hide Filtered; hide AllDistinct; hide Collecting;
      hide Index; hide Flatten; hide InLive;
      hide HashIterator.Todo; hide ReferredEntries;
      ghost var was, before, kept := hashtable.chains, hashtable.table, ReferredEntries(hashtable.live);
      Begins(was, hashtable.keysize, before, hashtable.freelist, hashtable.live, kept);
      var iter := new HashIterator<Track>(hashtable);
      visited := [];
      while true
        invariant Valid() && iter.InStep() && iter.hashtable == hashtable && fresh(iter)
                  && hashtable.live == old(hashtable.live)
        invariant Collecting(iter.Todo(), hashtable.chains, hashtable.table, was, kept, before, visited)
        decreases |iter.Todo()|
      {
        var more;
        more, visited := Visit(iter, was, kept, before, visited);
        if !more {
          break;
        }
      }
      Finished(was, hashtable.chains, hashtable.keysize, before, hashtable.table, old(tracks), tracks, kept, visited,
        hashtable.live);
      iter.Free();
      LiveAre(was, hashtable.chains, kept, old(hashtable.live), hashtable.live);
    }
  }

  // ---------------------------------------------------------------- the state of a collection

  /** The entries that something refers to. */
  ghost function ReferredEntries(entries: set<Entry<Track>>): set<Entry<Track>>
    reads set e | e in entries :: e.value
  {
    set e | e in entries && e.value.refCount > 0
  }

  /** The entries that are allocated are those of the table that something refers to. */
  lemma {:induction false} LiveAre(was: seq<seq<Entry<Track>>>, now: seq<seq<Entry<Track>>>, kept: set<Entry<Track>>,
                                   before: set<Entry<Track>>, live: set<Entry<Track>>)
    requires Filtered(was, now, kept) && kept == ReferredEntries(before) && InLive(was, before)
    requires Allocated(now, [], live)
    ensures live == (set e | e in Flatten(was) && e.value.refCount > 0) && Filtered(was, now, live)
  {
    hide Filter; hide Flatten;
    forall e | e in live
      ensures e in Flatten(was) && e.value.refCount > 0
    {
      var i, j :| 0 <= i < |now| && 0 <= j < |now[i]| && now[i][j] == e;
      FilterMembers(was[i], kept);
      assert e in now[i];
      var k :| 0 <= k < |was[i]| && was[i][k] == e;
      InFlatten(was, i, k);
    }
    forall e | e in Flatten(was) && e.value.refCount > 0
      ensures e in live
    {
      var i, j := FromFlatten(was, e);
      assert was[i][j] in before;
      FilterMembers(was[i], kept);
      assert e in now[i];
    }
    forall i | 0 <= i < SIZE
      ensures Filter(was[i], kept) == Filter(was[i], live)
    {
      forall e | e in was[i]
        ensures e in kept <==> e in live
      {
        var k :| 0 <= k < |was[i]| && was[i][k] == e;
        InFlatten(was, i, k);
      }
      FilterSame(was[i], kept, live);
    }
  }

  /** Every chain of `now` is the corresponding one of `was` without the entries that are not in `keep`. */
  ghost predicate Filtered<V>(was: seq<seq<Entry<V>>>, now: seq<seq<Entry<V>>>, keep: set<Entry<V>>) {
    |was| == |now| == SIZE && forall i :: 0 <= i < SIZE ==> now[i] == Filter(was[i], keep)
  }

  /** No entry occurs twice in the whole table. */
  ghost predicate AllDistinct<V>(chains: seq<seq<Entry<V>>>) {
    Apart(chains) && Distinct(Flatten(chains))
  }

  /** Nothing has gone from the table that has references. */
  ghost predicate Collected(was: map<Key, Track>, now: map<Key, Track>)
    reads was.Values
  {
    && (forall id :: id in now ==> id in was && now[id] == was[id])
    && (forall id :: id in was && was[id].refCount > 0 ==> id in now)
  }

  lemma {:induction false} CollectedMore(was: map<Key, Track>, now: map<Key, Track>, id: Key)
    requires Collected(was, now) && id in now && now[id].refCount == 0
    ensures Collected(was, now - {id})
  {
  }

  /** When only tracks with references are left, exactly those are. */
  lemma {:induction false} CollectedAll(was: map<Key, Track>, now: map<Key, Track>, tracks: set<Track>,
                                        left: set<Track>)
    requires Collected(was, now) && Cached(was, tracks) && Cached(now, left) && forall id :: id in now ==>
               now[id].refCount > 0
    ensures now == map id | id in was && was[id].refCount > 0 :: was[id]
    ensures left == set t | t in tracks && t.refCount > 0
  {
    forall t | t in tracks && t.refCount > 0
      ensures t in left
    {
      assert was[t.id] == t && t.id in now;
    }
    forall t | t in left
      ensures t in tracks && t.refCount > 0
    {
      assert now[t.id] == t == was[t.id];
    }
  }

  lemma {:induction false} NothingPending<T>(kept: set<T>)
    ensures kept + Members([]) == kept
  {
  }

  lemma {:induction false} PendingKept<T>(kept: set<T>, e: T, todo: seq<T>)
    requires e in kept
    ensures kept + Members([e] + todo) == kept + Members(todo)
  {
  }

  lemma {:induction false} Finished(was: seq<seq<Entry<Track>>>, now: seq<seq<Entry<Track>>>, keysize: nat,
                                    before: map<Key, Track>, table: map<Key, Track>,
                                    tracks: set<Track>, left: set<Track>, kept: set<Entry<Track>>,
                                      visited: seq<Entry<Track>>, live: set<Entry<Track>>)
    requires Holds(now, keysize, table) && Collecting([], now, table, was, kept, before, visited)
             && kept == ReferredEntries(live)
    requires Cached(before, tracks) && Cached(table, left)
    ensures visited == Flatten(was) && Filtered(was, now, kept)
    ensures table == map id | id in before && before[id].refCount > 0 :: before[id]
    ensures left == set t | t in tracks && t.refCount > 0
  {
    hide Holds; hide Filtered; hide Collected; hide Cached; hide AllDistinct; hide Flatten;
    NothingPending(kept);
    assert visited + [] == visited;
    OnlyKept(now, keysize, table, was, kept);
    CollectedAll(before, table, tracks, left);
  }

  lemma {:induction false} InFlatten<T>(s: seq<seq<T>>, i: nat, j: nat)
    requires i < |s| && j < |s[i]|
    ensures s[i][j] in Flatten(s)
  {
    if i > 0 {
      InFlatten(s[1..], i - 1, j);
    }
  }

  lemma {:induction false} FromFlatten<T>(s: seq<seq<T>>, x: T) returns (i: nat, j: nat)
    requires x in Flatten(s)
    ensures i < |s| && j < |s[i]| && s[i][j] == x
  {
    if x in s[0] {
      i := 0;
      j :| 0 <= j < |s[0]| && s[0][j] == x;
    } else {
      i, j := FromFlatten(s[1..], x);
      i := i + 1;
    }
  }

  lemma {:induction false} FlattenDistinct<V>(s: seq<seq<Entry<V>>>)
    requires Apart(s)
    ensures Distinct(Flatten(s))
  {
    if s != [] {
      var tail := s[1..];
      ApartTail(s);
      FlattenDistinct(tail);
      BucketApart(s, 0);
      forall j, k | 0 <= j < |s[0]| && 0 <= k < |Flatten(tail)|
        ensures s[0][j] != Flatten(tail)[k]
      {
        var b, n := FromFlatten(tail, Flatten(tail)[k]);
        assert tail[b][n] == s[b + 1][n];
      }
    }
  }

  lemma {:induction false} ApartTail<V>(s: seq<seq<Entry<V>>>)
    requires Apart(s) && s != []
    ensures Apart(s[1..])
  {
    var tail := s[1..];
    forall i, j, k, l | 0 <= i < |tail| && 0 <= j < |tail[i]| && 0 <= k < |tail| && 0 <= l < |tail[k]|
      && (k != i || l != j)
      ensures tail[k][l] != tail[i][j]
    {
      assert tail[i] == s[i + 1] && tail[k] == s[k + 1];
    }
  }

  /** The state of a collection that has visited `visited` of the table `was` and has `todo` before it. */
  ghost predicate Collecting(todo: seq<Entry<Track>>, now: seq<seq<Entry<Track>>>, table: map<Key, Track>,
                             was: seq<seq<Entry<Track>>>,
                             kept: set<Entry<Track>>, before: map<Key, Track>, visited: seq<Entry<Track>>)
    reads before.Values
  {
    && visited + todo == Flatten(was) && AllDistinct(was)
    && Filtered(was, now, kept + Members(todo))
    && Collected(before, table)
  }

  /** The next entry: if it is kept nothing else changes, otherwise it can be collected. */
  lemma {:induction false} NextVisited(was0: seq<Entry<Track>>, now: seq<seq<Entry<Track>>>, table: map<Key, Track>,
                                       was: seq<seq<Entry<Track>>>,
                                       kept: set<Entry<Track>>, before: map<Key, Track>, visited: seq<Entry<Track>>,
                                       entry: Entry<Track>, todo: seq<Entry<Track>>, live: set<Entry<Track>>)
    requires Collecting(was0, now, table, was, kept, before, visited) && was0 == [entry] + todo && InLive(was, live)
    ensures AllDistinct(was) && entry in Flatten(was) && entry !in todo && entry in live
    ensures Filtered(was, now, kept + Members([entry] + todo))
    ensures entry in kept ==> Collecting(todo, now, table, was, kept, before, visited + [entry])
  {
    hide Filtered; hide AllDistinct; hide Collected; hide Members; hide InLive; hide Flatten;
    TodoStep(was, visited, entry, todo, live);
    if entry in kept {
      PendingKept(kept, entry, todo);
    }
  }

  lemma {:induction false} NextCollected(todo: seq<Entry<Track>>, prior: seq<seq<Entry<Track>>>,
                                         now: seq<seq<Entry<Track>>>, table: map<Key, Track>,
                                         was: seq<seq<Entry<Track>>>,
                                         kept: set<Entry<Track>>, before: map<Key, Track>, visited: seq<Entry<Track>>,
                                           entry: Entry<Track>)
    requires Collecting([entry] + todo, prior, table, was, kept, before, visited)
    requires Filtered(was, now, kept + Members(todo)) && entry.key in table && table[entry.key] == entry.value
             && entry.value.refCount == 0
    ensures Collecting(todo, now, table - {entry.key}, was, kept, before, visited + [entry])
  {
    hide Filtered; hide AllDistinct; hide Collected; hide Members; hide Flatten;
    CollectedMore(before, table, entry.key);
    assert visited + [entry] + todo == visited + ([entry] + todo);
  }

  /** Before the first step everything is still to be visited. */
  lemma {:induction false} Begins(chains: seq<seq<Entry<Track>>>, keysize: nat, table: map<Key, Track>,
                                  freelist: seq<Entry<Track>>, live: set<Entry<Track>>,
                                  kept: set<Entry<Track>>)
    requires Holds(chains, keysize, table) && Allocated(chains, freelist, live)
    ensures InLive(chains, live) && Collecting(Flatten(chains), chains, table, chains, kept, table, [])
  {
    hide Holds; hide Allocated; hide Flatten; hide Filter;
    HoldsSize(chains, keysize, table);
    HoldsApart(chains, keysize, table);
    FlattenDistinct(chains);
    AllocatedLive(chains, freelist, live);
    forall i: nat | i < SIZE
      ensures chains[i] == Filter(chains[i], kept + Members(Flatten(chains)))
    {
      forall x | x in chains[i]
        ensures x in Flatten(chains)
      {
        var j :| 0 <= j < |chains[i]| && chains[i][j] == x;
        InFlatten(chains, i, j);
      }
      FilterAll(chains[i], kept + Members(Flatten(chains)));
    }
  }

  lemma {:induction false} TodoStep<V>(was: seq<seq<Entry<V>>>, visited: seq<Entry<V>>, entry: Entry<V>,
                                       todo: seq<Entry<V>>, live: set<Entry<V>>)
    requires AllDistinct(was) && InLive(was, live) && visited + ([entry] + todo) == Flatten(was)
    ensures visited + [entry] + todo == Flatten(was)
    ensures entry in Flatten(was) && entry !in todo && entry in live
  {
    hide Flatten; hide Apart;
    var all, n := Flatten(was), |visited|;
    assert all[n] == entry;
    forall k | 0 <= k < |todo|
      ensures todo[k] != entry
    {
      assert all[n + 1 + k] == todo[k];
    }
    var i, j := FromFlatten(was, entry);
  }

  /** An entry that is to be kept is in its chain. */
  lemma {:induction false} StillThere<V>(was: seq<seq<Entry<V>>>, now: seq<seq<Entry<V>>>, keep: set<Entry<V>>,
                                         entry: Entry<V>) returns (b: nat, n: nat)
    requires Filtered(was, now, keep) && entry in Flatten(was) && entry in keep
    ensures |now| == SIZE && b < SIZE && n < |now[b]| && now[b][n] == entry && entry in was[b]
  {
    hide Filter; hide Flatten;
    var j;
    b, j := FromFlatten(was, entry);
    FilterMembers(was[b], keep);
    assert was[b][j] in now[b];
    n :| 0 <= n < |now[b]| && now[b][n] == entry;
  }

  lemma {:induction false} SameEntry<V>(chains: seq<seq<Entry<V>>>, keysize: nat, table: map<Key, V>, b: nat, j: nat,
                                        n: nat)
    requires Holds(chains, keysize, table) && b < SIZE && j < |chains[b]| && n < |chains[b]|
             && chains[b][j].key == chains[b][n].key
    ensures j == n
  {
    assert IsBucket(chains[b], b, keysize);
  }

  lemma {:induction false} FilteredLess<V>(was: seq<seq<Entry<V>>>, now: seq<seq<Entry<V>>>, keep: set<Entry<V>>,
                                           entry: Entry<V>, b: nat, j: nat)
    requires Filtered(was, now, keep) && AllDistinct(was) && b < SIZE && entry in was[b] && j < |now[b]|
             && now[b][j] == entry
    ensures Filtered(was, now[b := Without(now[b], j)], keep - {entry})
  {
    hide Filter; hide Without; hide Flatten; hide Apart;
    BucketApart(was, b);
    FilterLess(was[b], keep, entry, j);
    var k :| 0 <= k < |was[b]| && was[b][k] == entry;
    PrevElsewhere(was, b, k);
    forall i: nat | i < SIZE && i != b
      ensures Filter(was[i], keep - {entry}) == now[i]
    {
      FilterSame(was[i], keep, keep - {entry});
    }
  }

  lemma {:induction false} EndKept<T>(rest: seq<T>, c: seq<T>, j: nat)
    requires IsEnd(rest, c) && j < |c| && c[j] !in rest
    ensures IsEnd(rest, Without(c, j))
  {
    var n := |c| - |rest|;
    forall k | 0 <= k < |rest|
      ensures rest[k] == c[n + k] && k + n != j
    {
    }
  }

  lemma {:induction false} BehindKept<V>(chains: seq<seq<Entry<V>>>, now: seq<seq<Entry<V>>>, offset: int, b: nat)
    requires -1 <= offset && |chains| == |now| && b <= offset && b < |chains|
    requires forall i :: 0 <= i < |chains| && i != b ==> now[i] == chains[i]
    ensures Behind(now, offset) == Behind(chains, offset)
  {
    if offset + 1 < |chains| {
      assert now[offset + 1..] == chains[offset + 1..];
    }
  }

  lemma {:induction false} OnlyKept(now: seq<seq<Entry<Track>>>, keysize: nat, table: map<Key, Track>,
                                    was: seq<seq<Entry<Track>>>, kept: set<Entry<Track>>)
    requires Holds(now, keysize, table) && Filtered(was, now, kept) && forall e :: e in kept ==> e.value.refCount > 0
    ensures forall id :: id in table ==> table[id].refCount > 0
  {
    hide Filter; hide Index; hide IsBucket;
    forall id | id in table
      ensures table[id].refCount > 0
    {
      var b := Index(id);
      var j :| 0 <= j < |now[b]| && now[b][j].key == id;
      FilterMembers(was[b], kept);
      assert now[b][j] in now[b];
    }
  }

  lemma {:induction false} KeySize<V>(chains: seq<seq<Entry<V>>>, keysize: nat, table: map<Key, V>, key: Key)
    requires Holds(chains, keysize, table) && key in table
    ensures |key| == keysize >= 4
  {
  }
}
