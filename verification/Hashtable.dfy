/** The metadata cache of libopenspotify/hashtable.c. */
module Hashtables {
  import opened Basics
  import opened Words

  type Key = seq<Byte>

  const SIZE := 2048

  /** The first four bytes of a key as a little-endian word, masked with the table's size less one. */
  function Index(key: Key): (i: nat)
    requires |key| >= 4
    ensures i < SIZE
  {
    hide Value;
    (Value(key[0]) + 0x100 * Value(key[1]) + 0x1_0000 * Value(key[2]) + 0x100_0000 * Value(key[3])) % SIZE
  }

  /** The bucket is named by the first byte and the three low bits of the second. */
  lemma {:induction false} IndexIs(key: Key)
    requires |key| >= 4
    ensures Index(key) == Value(key[0]) + 0x100 * (Value(key[1]) % 8)
  {
    hide Value;
    LowBits(Value(key[0]), Value(key[1]), 32 * Value(key[2]) + 0x2000 * Value(key[3]));
  }

  lemma {:induction false} LowBits(a: nat, b: nat, rest: nat)
    requires a < 0x100
    ensures (a + 0x100 * b + SIZE * rest) % SIZE == a + 0x100 * (b % 8)
  {
    var low, high := a + 0x100 * (b % 8), b / 8 + rest;
    assert b == 8 * (b / 8) + b % 8;
    assert a + 0x100 * b + SIZE * rest == SIZE * high + low;
    LowPart(high, low);
  }

  lemma {:induction false} LowPart(high: nat, low: nat)
    requires low < SIZE
    ensures (SIZE * high + low) % SIZE == low
  {
  }

  class Entry<V> {
    const key: Key
    const value: V
    var dontFree: bool
    var next: Entry?<V>

    /** hashtable_insert leaves `dont_free` as malloc found it. */
    constructor (key: Key, value: V, garbage: bool)
      ensures this.key == key && this.value == value && dontFree == garbage && next == null
    {
      this.key, this.value, dontFree, next := key, value, garbage, null;
    }
  }

  // ---------------------------------------------------------------- chains

  function Nth<V>(c: seq<Entry<V>>, j: nat): Entry?<V> {
    if j < |c| then c[j] else null
  }

  /** `head` starts a list that runs through `c`. */
  ghost predicate Linked<V>(head: Entry?<V>, c: seq<Entry<V>>)
    reads c`next
  {
    head == Nth(c, 0) && forall j :: 0 <= j < |c| ==> c[j].next == Nth(c, j + 1)
  }

  /** The entries of bucket `i`: they belong there, and no key occurs twice. */
  ghost predicate IsBucket<V>(c: seq<Entry<V>>, i: nat, keysize: nat) {
    && (forall j :: 0 <= j < |c| ==> |c[j].key| == keysize >= 4 && Index(c[j].key) == i)
    && (forall j, k :: 0 <= j < k < |c| ==> c[j].key != c[k].key)
  }

  ghost predicate HasKey<V>(c: seq<Entry<V>>, key: Key) {
    exists j :: 0 <= j < |c| && c[j].key == key
  }

  /** The chains hold the key-value pairs of `table` and nothing else. */
  ghost predicate Holds<V>(chains: seq<seq<Entry<V>>>, keysize: nat, table: map<Key, V>) {
    && |chains| == SIZE
    && (forall i :: 0 <= i < SIZE ==> IsBucket(chains[i], i, keysize))
    && (forall i, j :: 0 <= i < SIZE && 0 <= j < |chains[i]| ==>
    chains[i][j].key in table && table[chains[i][j].key] == chains[i][j].value)
    && (forall key :: key in table ==> |key| == keysize >= 4 && HasKey(chains[Index(key)], key))
  }

  /** The entries that are allocated: those in a chain, and those whose release is put off. */
  ghost predicate Allocated<V>(chains: seq<seq<Entry<V>>>, freelist: seq<Entry<V>>, live: set<Entry<V>>) {
    && (forall i, j :: 0 <= i < |chains| && 0 <= j < |chains[i]| ==> chains[i][j] in live && chains[i][j] !in freelist)
    && (forall k :: 0 <= k < |freelist| ==> freelist[k] in live)
    && (forall k, l :: 0 <= k < l < |freelist| ==> freelist[k] != freelist[l])
    && (forall e :: e in live ==>
          e in freelist || exists i, j :: 0 <= i < |chains| && 0 <= j < |chains[i]| && chains[i][j] == e)
  }

  lemma {:induction false} HoldsMore<V>(chains: seq<seq<Entry<V>>>, keysize: nat, table: map<Key, V>, e: Entry<V>)
    requires Holds(chains, keysize, table) && |e.key| == keysize >= 4 && e.key !in table
    ensures var i := Index(e.key);
            Holds(chains[i := chains[i] + [e]], keysize, table[e.key := e.value])
  {
    hide Index;
    var i := Index(e.key);
    var c, m := chains[i := chains[i] + [e]], table[e.key := e.value];
    forall k: nat | k < SIZE
      ensures IsBucket(c[k], k, keysize)
    {
      assert IsBucket(chains[k], k, keysize);
    }
    forall key | key in m
      ensures |key| == keysize && HasKey(c[Index(key)], key)
    {
      if key == e.key {
        assert c[i][|chains[i]|].key == key;
      } else {
        var j :| 0 <= j < |chains[Index(key)]| && chains[Index(key)][j].key == key;
        assert c[Index(key)][j].key == key;
      }
    }
  }

  lemma {:induction false} BucketLess<V>(c: seq<Entry<V>>, i: nat, keysize: nat, j: nat)
    requires IsBucket(c, i, keysize) && j < |c|
    ensures IsBucket(Without(c, j), i, keysize) && forall k :: 0 <= k < |c| && k != j ==> c[k].key != c[j].key
  {
    hide Index;
    var w := Without(c, j);
    forall k | 0 <= k < |w| ensures w[k] == c[if k < j then k else k + 1] {}
    forall k, l | 0 <= k < l < |w| ensures w[k].key != w[l].key {
      assert w[k] == c[if k < j then k else k + 1] && w[l] == c[if l < j then l else l + 1];
    }
    forall k | 0 <= k < |c| && k != j ensures c[k].key != c[j].key {
      if k < j {
        KeysDiffer(c, i, keysize, k, j);
      } else {
        KeysDiffer(c, i, keysize, j, k);
      }
    }
    forall k | 0 <= k < |w| ensures |w[k].key| == keysize >= 4 && Index(w[k].key) == i {
      BucketOf(c, i, keysize, if k < j then k else k + 1);
    }
  }

  lemma {:induction false} KeysDiffer<V>(c: seq<Entry<V>>, i: nat, keysize: nat, j: nat, k: nat)
    requires IsBucket(c, i, keysize) && j < k < |c|
    ensures c[j].key != c[k].key
  {
  }

  lemma {:induction false} BucketOf<V>(c: seq<Entry<V>>, i: nat, keysize: nat, j: nat)
    requires IsBucket(c, i, keysize) && j < |c|
    ensures |c[j].key| == keysize >= 4 && Index(c[j].key) == i
  {
    hide Index;
  }

  /** The other entries keep their keys in the table. */
  lemma {:induction false} EntriesLess<V>(chains: seq<seq<Entry<V>>>, keysize: nat, table: map<Key, V>, i: nat, j: nat,
                                          k: nat, l: nat)
    requires Holds(chains, keysize, table) && i < SIZE && j < |chains[i]| && k < SIZE
    requires l < |chains[i := Without(chains[i], j)][k]|
    ensures var x := chains[i := Without(chains[i], j)][k][l];
            x.key != chains[i][j].key && x.key in table && table[x.key] == x.value
  {
    hide Index; hide IsBucket;
    if k == i {
      BucketLess(chains[i], i, keysize, j);
      assert Without(chains[i], j)[l] == chains[i][if l < j then l else l + 1];
    } else {
      BucketOf(chains[k], k, keysize, l);
      BucketOf(chains[i], i, keysize, j);
    }
  }

  lemma {:induction false} HoldsLess<V>(chains: seq<seq<Entry<V>>>, keysize: nat, table: map<Key, V>, i: nat, j: nat)
    requires Holds(chains, keysize, table) && i < SIZE && j < |chains[i]|
    ensures Holds(chains[i := Without(chains[i], j)], keysize, table - {chains[i][j].key})
  {
    hide Index; hide IsBucket;
    var key := chains[i][j].key;
    var c: seq<seq<Entry<V>>>, m: map<Key, V> := chains[i := Without(chains[i], j)], table - {key};
    BucketLess(chains[i], i, keysize, j);
    forall k, l | 0 <= k < SIZE && 0 <= l < |c[k]|
      ensures c[k][l].key in m && m[c[k][l].key] == c[k][l].value
    {
      EntriesLess(chains, keysize, table, i, j, k, l);
    }
    forall other | other in m
      ensures |other| == keysize && HasKey(c[Index(other)], other)
    {
      if Index(other) == i {
        KeyLess(chains[i], j, other);
      }
    }
  }

  lemma {:induction false} KeyLess<V>(c: seq<Entry<V>>, j: nat, key: Key)
    requires j < |c| && HasKey(c, key) && c[j].key != key
    ensures HasKey(Without(c, j), key)
  {
    var l :| 0 <= l < |c| && c[l].key == key;
    assert Without(c, j)[if l > j then l - 1 else l].key == key;
  }

  lemma {:induction false} AllocatedMore<V>(chains: seq<seq<Entry<V>>>, freelist: seq<Entry<V>>, live: set<Entry<V>>,
                                            e: Entry<V>, i: nat)
    requires Allocated(chains, freelist, live) && e !in live && i < |chains|
    ensures Allocated(chains[i := chains[i] + [e]], freelist, live + {e})
  {
    var c := chains[i := chains[i] + [e]];
    forall x | x in live + {e}
      ensures x in freelist || exists k, l :: 0 <= k < |c| && 0 <= l < |c[k]| && c[k][l] == x
    {
      if x == e {
        assert c[i][|chains[i]|] == x;
      } else if x !in freelist {
        var k, l :| 0 <= k < |chains| && 0 <= l < |chains[k]| && chains[k][l] == x;
        assert c[k][l] == x;
      }
    }
  }

  /** An entry taken out of its chain is either released or put on the free list. */
  lemma {:induction false} AllocatedLess<V>(chains: seq<seq<Entry<V>>>, freelist: seq<Entry<V>>, live: set<Entry<V>>,
                                            i: nat, j: nat)
    requires Allocated(chains, freelist, live) && i < |chains| && j < |chains[i]|
    requires forall k, l :: 0 <= k < |chains| && 0 <= l < |chains[k]| && (k != i || l != j) ==>
               chains[k][l] != chains[i][j]
    ensures var e := chains[i][j];
            var c := chains[i := Without(chains[i], j)];
            Allocated(c, freelist, live - {e}) && Allocated(c, freelist + [e], live)
  {
    var e := chains[i][j];
    var c := chains[i := Without(chains[i], j)];
    forall x | x in live - {e}
      ensures x in freelist || exists k, l :: 0 <= k < |c| && 0 <= l < |c[k]| && c[k][l] == x
    {
      if x !in freelist {
        var k, l :| 0 <= k < |chains| && 0 <= l < |chains[k]| && chains[k][l] == x;
        assert c[k][if k == i && l > j then l - 1 else l] == x;
      }
    }
    forall k, l | 0 <= k < |c| && 0 <= l < |c[k]|
      ensures c[k][l] in live - {e} && c[k][l] !in freelist + [e]
    {
      if k == i {
        assert c[k][l] == chains[k][if l < j then l else l + 1];
      }
    }
    forall x | x in live
      ensures x in freelist + [e] || exists k, l :: 0 <= k < |c| && 0 <= l < |c[k]| && c[k][l] == x
    {
      if x == e {
        assert (freelist + [e])[|freelist|] == e;
      }
    }
  }

  /** No entry is in two places. */
  lemma {:induction false} Elsewhere<V>(chains: seq<seq<Entry<V>>>, keysize: nat, table: map<Key, V>, i: nat, j: nat)
    requires Holds(chains, keysize, table) && i < SIZE && j < |chains[i]|
    ensures forall k, l :: 0 <= k < SIZE && 0 <= l < |chains[k]| && (k != i || l != j) ==> chains[k][l] != chains[i][j]
  {
    hide Index;
    assert IsBucket(chains[i], i, keysize);
    forall k, l | 0 <= k < SIZE && 0 <= l < |chains[k]| && (k != i || l != j)
      ensures chains[k][l] != chains[i][j]
    {
      assert IsBucket(chains[k], k, keysize);
    }
  }

  ghost predicate Apart<V>(chains: seq<seq<Entry<V>>>) {
    forall i, j, k, l :: 0 <= i < |chains| && 0 <= j < |chains[i]| && 0 <= k < |chains| && 0 <= l < |chains[k]|
                         && (k != i || l != j) ==>
      chains[k][l] != chains[i][j]
  }

  lemma {:induction false} HoldsApart<V>(chains: seq<seq<Entry<V>>>, keysize: nat, table: map<Key, V>)
    requires Holds(chains, keysize, table)
    ensures Apart(chains)
  {
    hide Holds;
    forall i, j | 0 <= i < SIZE == |chains| && 0 <= j < |chains[i]|
      ensures forall k, l :: 0 <= k < SIZE && 0 <= l < |chains[k]| && (k != i || l != j) ==>
                chains[k][l] != chains[i][j]
    {
      Elsewhere(chains, keysize, table, i, j);
    }
    assert |chains| == SIZE by { HoldsSize(chains, keysize, table); }
  }

  lemma {:induction false} HoldsSize<V>(chains: seq<seq<Entry<V>>>, keysize: nat, table: map<Key, V>)
    requires Holds(chains, keysize, table)
    ensures |chains| == SIZE
  {
  }

  // ---------------------------------------------------------------- the links of all buckets

  ghost predicate InLive<V>(chains: seq<seq<Entry<V>>>, live: set<Entry<V>>) {
    forall i, j :: 0 <= i < |chains| && 0 <= j < |chains[i]| ==> chains[i][j] in live
  }

  ghost predicate Links<V>(entries: array<Entry?<V>>, chains: seq<seq<Entry<V>>>, live: set<Entry<V>>)
    reads entries, live`next
  {
    && |chains| == SIZE == entries.Length && InLive(chains, live)
    && forall i :: 0 <= i < SIZE ==> Linked(entries[i], chains[i])
  }

  /** Walk to the end of bucket `i` and hang the new entry there. */
  method AppendEntry<V>(entries: array<Entry?<V>>, i: nat, e: Entry<V>, ghost chains: seq<seq<Entry<V>>>,
                        ghost live: set<Entry<V>>)
    requires Links(entries, chains, live) && Apart(chains) && i < SIZE && e.next == null && e !in live
    modifies entries, live`next
    ensures Links(entries, chains[i := chains[i] + [e]], live + {e})
  {
    ghost var c := chains[i];
    var entry := entries[i];
    if entry == null {
      entries[i] := e;
    } else {
      ghost var j := 0;
      while entry.next != null
        invariant 0 <= j < |c| && entry == c[j]
        decreases |c| - j
      {
        entry := entry.next;
        j := j + 1;
      }
      entry.next := e;
    }
  }

  /** Find the first entry of bucket `i` with this key and take it out of the list; its own link stays as it was. */
  method Unlink<V>(entries: array<Entry?<V>>, i: nat, key: Key, ghost chains: seq<seq<Entry<V>>>,
                   ghost live: set<Entry<V>>)
    returns (entry: Entry?<V>, ghost j: nat)
    requires Links(entries, chains, live) && Apart(chains) && i < SIZE
    modifies entries, live`next
    ensures entry != null <==> HasKey(chains[i], key)
    ensures entry == null ==> Links(entries, chains, live)
    ensures entry != null ==>
              && j < |chains[i]| && entry == chains[i][j] && entry.key == key && entry.next == old(entry.next)
              && Links(entries, chains[i := Without(chains[i], j)], live)
  {
    ghost var c := chains[i];
    var prev: Entry?<V> := null;
    entry, j := entries[i], 0;
    while entry != null
      invariant 0 <= j <= |c| && entry == Nth(c, j) && prev == (if j == 0 then null else c[j - 1])
      invariant forall k :: 0 <= k < j ==> c[k].key != key
      decreases |c| - j
    {
      assert entry in live;
      if entry.key == key {
        break;
      }
      prev := entry;
      entry := entry.next;
      j := j + 1;
    }
    if entry != null {
      Relink(entries, i, prev, entry, j, chains, live);
    }
  }

  /** The list goes past entry `j` of bucket `i`. */
  method Relink<V>(entries: array<Entry?<V>>, i: nat, prev: Entry?<V>, entry: Entry<V>, ghost j: nat,
                   ghost chains: seq<seq<Entry<V>>>, ghost live: set<Entry<V>>)
    requires Links(entries, chains, live) && Apart(chains) && i < SIZE && j < |chains[i]|
    requires entry == chains[i][j] && prev == if j == 0 then null else chains[i][j - 1]
    modifies entries, live`next
    ensures entry.next == old(entry.next) && Links(entries, chains[i := Without(chains[i], j)], live)
  {
    hide Apart; hide Without;
    ghost var c := chains[i];
    BucketApart(chains, i);
    if prev == null {
      entries[i] := entry.next;
      SkipsFirst(entries[i], c);
    } else {
      PrevElsewhere(chains, i, j - 1);
      SkipEntry(prev, entry, j, c, entries[i]);
    }
    WithoutKept(chains, i, j, live);
  }

  lemma {:induction false} BucketApart<V>(chains: seq<seq<Entry<V>>>, i: nat)
    requires Apart(chains) && i < |chains|
    ensures Distinct(chains[i])
  {
  }

  lemma {:induction false} PrevElsewhere<V>(chains: seq<seq<Entry<V>>>, i: nat, j: nat)
    requires Apart(chains) && i < |chains| && j < |chains[i]|
    ensures forall k, l :: 0 <= k < |chains| && k != i && 0 <= l < |chains[k]| ==> chains[k][l] != chains[i][j]
  {
  }

  lemma {:induction false} WithoutKept<V>(chains: seq<seq<Entry<V>>>, i: nat, j: nat, live: set<Entry<V>>)
    requires InLive(chains, live) && i < |chains| && j < |chains[i]|
    ensures InLive(chains[i := Without(chains[i], j)], live)
  {
  }

  lemma {:induction false} SkipsFirst<V>(head: Entry?<V>, c: seq<Entry<V>>)
    requires c != [] && Linked(c[0], c) && head == c[0].next
    ensures Linked(head, Without(c, 0))
  {
  }

  method SkipEntry<V>(prev: Entry<V>, entry: Entry<V>, ghost j: nat, ghost c: seq<Entry<V>>, ghost head: Entry?<V>)
    requires Distinct(c) && 0 < j < |c| && Linked(head, c) && prev == c[j - 1] && entry == c[j]
    modifies prev`next
    ensures Linked(head, Without(c, j)) && entry.next == old(entry.next)
  {
    prev.next := entry.next;
    ghost var d := Without(c, j);
    forall l | 0 <= l < |d|
      ensures d[l].next == Nth(d, l + 1)
    {
      if l < j - 1 {
        assert d[l] == c[l] && c[l].next == Nth(c, l + 1);
      } else if l > j - 1 {
        assert d[l] == c[l + 1] && c[l + 1].next == Nth(c, l + 2);
      }
    }
  }

  lemma {:induction false} LinksLess<V>(entries: array<Entry?<V>>, chains: seq<seq<Entry<V>>>, live: set<Entry<V>>,
                                        less: set<Entry<V>>)
    requires Links(entries, chains, live) && InLive(chains, less)
    ensures Links(entries, chains, less)
  {
    hide Linked;
  }

  lemma {:induction false} AllocatedLive<V>(chains: seq<seq<Entry<V>>>, freelist: seq<Entry<V>>, live: set<Entry<V>>)
    requires Allocated(chains, freelist, live)
    ensures InLive(chains, live)
  {
  }

  lemma {:induction false} KeyFound<V>(chains: seq<seq<Entry<V>>>, keysize: nat, table: map<Key, V>, key: Key)
    requires Holds(chains, keysize, table) && |key| == keysize >= 4
    ensures |chains| == SIZE
    ensures key in table <==> HasKey(chains[Index(key)], key)
    ensures forall i, j :: 0 <= i < SIZE && 0 <= j < |chains[i]| && chains[i][j].key == key ==>
              key in table && table[key] == chains[i][j].value
  {
    hide IsBucket; hide Index;
  }

  lemma {:induction false} NoKey<V>(c: seq<Entry<V>>, key: Key)
    ensures c == [] ==> !HasKey(c, key)
  {
  }

  /** Entry `j` of bucket `i` has left its list. */
  ghost predicate Removed<V>(was: seq<seq<Entry<V>>>, now: seq<seq<Entry<V>>>, i: nat, j: nat, e: Entry<V>) {
    i < |was| && j < |was[i]| && e == was[i][j] && now == was[i := Without(was[i], j)]
  }

  // ---------------------------------------------------------------- the table

  class HashTable<V> {
    const keysize: nat
    const entries: array<Entry?<V>>
    var count: int
    var freelist: seq<Entry<V>>
    ghost var chains: seq<seq<Entry<V>>>
    ghost var live: set<Entry<V>>
    ghost var table: map<Key, V>

    ghost predicate Valid()
      reads this, entries, live`next
    {
      && keysize >= 4
      && Holds(chains, keysize, table)
      && Allocated(chains, freelist, live)
      && Links(entries, chains, live)
      && count == |table|
    }

    constructor (keysize: nat)
      requires keysize >= 4
      ensures Valid() && table == map[] && live == {} && freelist == [] && this.keysize == keysize && fresh(entries)
      ensures chains == seq(SIZE, _ => [])
    {
      this.keysize := keysize;
      var e := new Entry?<V>[SIZE](_ => null);
      entries := e;
      count, freelist := 0, [];
      chains, live, table := seq(SIZE, _ => []), {}, map[];
      new;
      assert forall i :: 0 <= i < SIZE ==> chains[i] == [];
    }

    /** hashtable_find. */
    method Find(key: Key) returns (v: Option<V>)
      requires Valid() && |key| == keysize
      ensures v == if key in table then Some(table[key]) else None
    {
      hide Holds; hide Allocated; hide Index;
      KeyFound(chains, keysize, table, key);
      var i := Index(key);
      ghost var c, j := chains[i], 0;
      var entry := entries[i];
      while entry != null
        invariant 0 <= j <= |c| && entry == Nth(c, j)
        invariant forall k :: 0 <= k < j ==> c[k].key != key
        decreases |c| - j
      {
        assert entry in live;
        if entry.key == key {
          return Some(entry.value);
        }
        entry := entry.next;
        j := j + 1;
      }
      return None;
    }

    /** hashtable_insert, for a key that is not there yet. */
    method Insert(key: Key, value: V, garbage: bool) returns (ghost e: Entry<V>)
      requires Valid() && |key| == keysize && key !in table
      modifies this, entries, live`next
      ensures Valid() && table == old(table)[key := value] && freelist == old(freelist)
      ensures fresh(e) && live == old(live) + {e} && e.key == key && e.value == value && e.dontFree == garbage
      ensures |old(chains)| == SIZE && chains == old(chains)[Index(key) := old(chains)[Index(key)] + [e]]
    {
      hide Holds; hide Allocated; hide Index; hide Linked; hide Apart;
      HoldsApart(chains, keysize, table);
      var i := Index(key);
      var entry := new Entry<V>(key, value, garbage);
      e := entry;
      AppendEntry(entries, i, entry, chains, live);
      HoldsMore(chains, keysize, table, e);
      AllocatedMore(chains, freelist, live, e, i);
      chains := chains[i := chains[i] + [e]];
      live := live + {e};
      table := table[key := value];
      count := count + 1;
    }

    /** hashtable_remove. A missing key changes nothing, but the lock stays held if its bucket is not empty. */
    method Remove(key: Key) returns (held: bool, ghost e: Entry?<V>, ghost j: nat)
      requires Valid() && |key| == keysize
      modifies this, entries, live`next
      ensures Valid() && table == old(table) - {key} && |old(chains)| == SIZE
      ensures held <==> key !in old(table) && old(chains)[Index(key)] != []
      ensures e != null <==> key in old(table)
      ensures e == null ==> chains == old(chains) && freelist == old(freelist) && live == old(live)
      ensures e != null ==> Removed(old(chains), chains, Index(key), j, e) && e.key == key && e.next == old(e.next)
      ensures e != null && e.dontFree ==> freelist == old(freelist) + [e] && live == old(live)
      ensures e != null && !e.dontFree ==> freelist == old(freelist) && live == old(live) - {e}
    {
      hide Holds; hide Allocated; hide Index; hide Linked; hide Apart; hide InLive; hide HasKey; hide Without;
      HoldsApart(chains, keysize, table);
      KeyFound(chains, keysize, table, key);
      var i := Index(key);
      HeadOf(entries, chains, live, i);
      held, e, j := false, null, 0;
      if entries[i] == null {
        NoKey(chains[i], key);
        return;
      }
      var entry;
      entry, j := Unlink(entries, i, key, chains, live);
      if entry == null {
        held := true;
        return;
      }
      e := entry;
      Forget(entry, i, j);
    }

    /** The bookkeeping for an entry that has left its list: an iterator's current entry is kept for it, any other is
        freed. */
    method Forget(entry: Entry<V>, ghost i: nat, ghost j: nat)
      requires Holds(chains, keysize, table) && Allocated(chains, freelist, live) && keysize >= 4 && count == |table|
      requires i < |chains| == SIZE && j < |chains[i]| && entry == chains[i][j]
      requires Links(entries, chains[i := Without(chains[i], j)], live)
      modifies this
      ensures Valid() && table == old(table) - {entry.key} && Removed(old(chains), chains, i, j, entry)
      ensures entry.dontFree ==> freelist == old(freelist) + [entry] && live == old(live)
      ensures !entry.dontFree ==> freelist == old(freelist) && live == old(live) - {entry}
    {
      hide Holds; hide Allocated; hide Index; hide Linked; hide Apart; hide InLive; hide HasKey; hide Without;
      HoldsApart(chains, keysize, table);
      BucketKey(chains, keysize, table, i, j);
      HoldsLess(chains, keysize, table, i, j);
      Elsewhere(chains, keysize, table, i, j);
      AllocatedLess(chains, freelist, live, i, j);
      chains := chains[i := Without(chains[i], j)];
      if entry.dontFree {
        freelist := freelist + [entry];
      } else {
        AllocatedLive(chains, freelist, live - {entry});
        LinksLess(entries, chains, live, live - {entry});
        live := live - {entry};
      }
      table := table - {entry.key};
      count := count - 1;
    }
  }

  // ---------------------------------------------------------------- iteration

  function Flatten<T>(s: seq<seq<T>>): seq<T> {
    if s == [] then [] else s[0] + Flatten(s[1..])
  }

  /** What the buckets after `offset` hold. */
  ghost function Behind<V>(chains: seq<seq<Entry<V>>>, offset: int): seq<Entry<V>> {
    if offset < -1 || offset + 1 >= |chains| then [] else Flatten(chains[offset + 1..])
  }

  lemma {:induction false} BehindNext<V>(chains: seq<seq<Entry<V>>>, offset: int)
    requires -1 <= offset < |chains| - 1
    ensures Behind(chains, offset) == chains[offset + 1] + Behind(chains, offset + 1)
  {
    assert chains[offset + 1..][1..] == chains[offset + 2..];
    if offset + 2 == |chains| {
      assert Flatten(chains[offset + 2..]) == [];
    }
  }

  /** `rest` is the end of the chain `c`. */
  ghost predicate IsEnd<T>(rest: seq<T>, c: seq<T>) {
    |rest| <= |c| && rest == c[|c| - |rest|..]
  }

  lemma {:induction false} HeadOf<V>(entries: array<Entry?<V>>, chains: seq<seq<Entry<V>>>, live: set<Entry<V>>, i: nat)
    requires Links(entries, chains, live) && i < SIZE
    ensures entries.Length == SIZE && entries[i] == Nth(chains[i], 0)
  {
  }

  lemma {:induction false} BucketKey<V>(chains: seq<seq<Entry<V>>>, keysize: nat, table: map<Key, V>, i: nat, n: nat)
    requires Holds(chains, keysize, table) && i < SIZE && n < |chains[i]|
    ensures |chains[i][n].key| == keysize >= 4 && Index(chains[i][n].key) == i
    ensures chains[i][n].key in table && table[chains[i][n].key] == chains[i][n].value
  {
    hide Index;
    assert IsBucket(chains[i], i, keysize);
  }

  /** Every entry of a chain leads on to the rest of the chain. */
  lemma {:induction false} Follows<V>(entries: array<Entry?<V>>, chains: seq<seq<Entry<V>>>, live: set<Entry<V>>,
                                      i: nat, n: nat)
    requires Links(entries, chains, live) && Apart(chains) && i < SIZE && n < |chains[i]|
    ensures var rest := chains[i][n + 1..];
            var e := chains[i][n];
            e in live && e !in rest && IsEnd(rest, chains[i]) && e.next == Nth(rest, 0)
  {
    BucketApart(chains, i);
  }

  class HashIterator<V> {
    const hashtable: HashTable<V>
    var offset: int
    var entry: Entry?<V>
    ghost var rest: seq<Entry<V>>

    /** The current entry is allocated, even if it has been removed, and leads on to what follows it in its chain. */
    ghost predicate InStep()
      reads this, hashtable, hashtable.entries, hashtable.live
    {
      && hashtable.Valid() && -1 <= offset
      && (entry == null ==> rest == [])
      && (entry != null ==>
            && 0 <= offset < SIZE && |hashtable.chains| == SIZE && entry in hashtable.live && entry.dontFree
            && entry !in rest
            && |entry.key| >= 4 && Index(entry.key) == offset
            && IsEnd(rest, hashtable.chains[offset]) && entry.next == Nth(rest, 0))
    }

    /** What the iterator has still to visit. */
    ghost function Todo(): seq<Entry<V>>
      reads this, hashtable
    {
      rest + Behind(hashtable.chains, offset)
    }

    /** hashtable_iterator_init. */
    constructor (hashtable: HashTable<V>)
      requires hashtable.Valid()
      ensures InStep() && this.hashtable == hashtable && entry == null && Todo() == Flatten(hashtable.chains)
    {
      hide Holds; hide Allocated; hide Links; hide Flatten;
      this.hashtable, offset, entry, rest := hashtable, -1, null, [];
      new;
      HoldsSize(hashtable.chains, hashtable.keysize, hashtable.table);
      assert hashtable.chains[0..] == hashtable.chains;
    }

    /** hashtable_iterator_next: the next entry in the order of the table, pinned while it is current. */
    method Next() returns (e: Entry?<V>)
      requires InStep()
      modifies this, hashtable.live`dontFree
      ensures InStep() && e == entry
      ensures e != null ==> old(Todo()) == [e] + Todo()
      ensures e == null ==> old(Todo()) == [] == Todo()
    {
      hide Holds; hide Allocated; hide Behind; hide Links; hide Apart; hide Flatten;
      ghost var chains, todo := hashtable.chains, Todo();
      HoldsSize(chains, hashtable.keysize, hashtable.table);
      HoldsApart(chains, hashtable.keysize, hashtable.table);
      if entry != null {
        entry.dontFree := false;
        entry := entry.next;
        if entry != null {
          ghost var n := |chains[offset]| - |rest|;
          assert entry == rest[0] == chains[offset][n];
          Follows(hashtable.entries, chains, hashtable.live, offset, n);
          assert rest[1..] == chains[offset][n + 1..];
          assert todo == [entry] + (rest[1..] + Behind(chains, offset));
          BucketKey(chains, hashtable.keysize, hashtable.table, offset, n);
          rest := rest[1..];
          entry.dontFree := true;
          return entry;
        }
      }
      assert rest == [];
      e := NextBucket(todo);
    }

    /** The scan for the next bucket that is not empty. */
    method NextBucket(ghost todo: seq<Entry<V>>) returns (e: Entry?<V>)
      requires hashtable.Valid() && -1 <= offset && entry == null && rest == []
               && todo == Behind(hashtable.chains, offset)
      modifies this, hashtable.live`dontFree
      ensures InStep() && e == entry
      ensures e != null ==> todo == [e] + Todo()
      ensures e == null ==> todo == [] == Todo()
    {
      hide Holds; hide Allocated; hide Links; hide Apart; hide Flatten;
      HoldsSize(hashtable.chains, hashtable.keysize, hashtable.table);
      offset := offset + 1;
      while offset < SIZE
        invariant 0 <= offset && entry == null && rest == [] && todo == Behind(hashtable.chains, offset - 1)
        decreases SIZE - offset
      {
        BehindNext(hashtable.chains, offset - 1);
        HeadOf(hashtable.entries, hashtable.chains, hashtable.live, offset);
        if hashtable.entries[offset] != null {
          Enter();
          return entry;
        }
        offset := offset + 1;
      }
      return null;
    }

    /** The first entry of a bucket becomes the current one. */
    method Enter()
      requires hashtable.Valid() && 0 <= offset < SIZE && hashtable.entries[offset] != null
      modifies this`entry, this`rest, hashtable.live`dontFree
      ensures InStep() && entry != null && hashtable.chains[offset] == [entry] + rest
    {
      hide Holds; hide Allocated; hide Links; hide Apart; hide Index;
      ghost var chains := hashtable.chains;
      HoldsSize(chains, hashtable.keysize, hashtable.table);
      HoldsApart(chains, hashtable.keysize, hashtable.table);
      HeadOf(hashtable.entries, chains, hashtable.live, offset);
      Follows(hashtable.entries, chains, hashtable.live, offset, 0);
      BucketKey(chains, hashtable.keysize, hashtable.table, offset, 0);
      entry := hashtable.entries[offset];
      rest := chains[offset][1..];
      entry.dontFree := true;
    }

    /** hashtable_iterator_free: every entry whose release was put off is freed, once. */
    method Free()
      requires InStep()
      modifies hashtable
      ensures hashtable.Valid() && hashtable.freelist == [] && hashtable.chains == old(hashtable.chains)
              && hashtable.table == old(hashtable.table)
      ensures hashtable.live == old(hashtable.live) - (set e | e in old(hashtable.freelist))
    {
      hide Holds; hide Linked;
      ghost var all := hashtable.live;
      var freelist := hashtable.freelist;
      for i := 0 to |freelist|
        invariant hashtable.freelist == freelist && hashtable.chains == old(hashtable.chains)
                  && hashtable.table == old(hashtable.table)
        invariant hashtable.live == all - (set e | e in freelist[..i])
        invariant hashtable.count == old(hashtable.count)
      {
        assert freelist[i] in hashtable.live;
        hashtable.live := hashtable.live - {freelist[i]};
      }
      hashtable.freelist := [];
    }
  }
}
