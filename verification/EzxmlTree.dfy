/** The child lists of an XML tag (libopenspotify/ezxml.c). */
module EzxmlTree {
  import opened Basics

  /**
   * `struct ezxml`, the fields that link the tree. `kids` names the children in document order: `ordered` links all of
   * them, `sibling` the first tag of each name, and `next` the tags of one name.
   */
  class Tag {
    const name: string
    var off: nat
    var parent: Tag?
    var child: Tag?
    var ordered: Tag?
    var sibling: Tag?
    var next: Tag?
    ghost var kids: seq<Tag>

    constructor (name: string)
      ensures this.name == name && child == null && kids == []
    {
      this.name := name;
      off, parent, child, ordered, sibling, next := 0, null, null, null, null, null;
      kids := [];
    }
  }

  // ---------------------------------------------------------------- the lists as sequences

  /** Element `i` of a list, or the null pointer behind its end. */
  function At(s: seq<Tag>, i: nat): Tag? {
    if i < |s| then s[i] else null
  }

  ghost predicate Sorted(s: seq<Tag>)
    reads s`off
  {
    forall i, j :: 0 <= i < j < |s| ==> s[i].off <= s[j].off
  }

  ghost predicate Within(s: seq<Tag>, kids: seq<Tag>) {
    forall i :: 0 <= i < |s| ==> s[i] in kids
  }

  /** The tags called `name`, in document order. */
  ghost function Named(kids: seq<Tag>, name: string): (r: seq<Tag>)
    ensures Within(r, kids) && forall k :: k in r ==> k in kids && k.name == name
    ensures forall k :: k in kids && k.name == name ==> k in r
  {
    if kids == [] then []
    else if kids[0].name == name then [kids[0]] + Named(kids[1..], name)
    else Named(kids[1..], name)
  }

  ghost function Names(kids: seq<Tag>): set<string> {
    set k | k in kids :: k.name
  }

  /** The first tag of each name that is not in `seen`, in document order. */
  ghost function Firsts(seen: set<string>, kids: seq<Tag>): (r: seq<Tag>)
    ensures Within(r, kids) && forall k :: k in r ==> k in kids && k.name !in seen
    decreases |kids|
  {
    if kids == [] then []
    else if kids[0].name in seen then Firsts(seen, kids[1..])
    else [kids[0]] + Firsts(seen + {kids[0].name}, kids[1..])
  }

  ghost predicate OrderedLinks(s: seq<Tag>, kids: seq<Tag>)
    requires Within(s, kids)
    reads kids`ordered
  {
    forall i :: 0 <= i < |s| ==> s[i].ordered == At(s, i + 1)
  }

  ghost predicate SiblingLinks(s: seq<Tag>, kids: seq<Tag>)
    requires Within(s, kids)
    reads kids`sibling
  {
    forall i :: 0 <= i < |s| ==> s[i].sibling == At(s, i + 1)
  }

  ghost predicate NextLinks(s: seq<Tag>, kids: seq<Tag>)
    requires Within(s, kids)
    reads kids`next
  {
    forall i :: 0 <= i < |s| ==> s[i].next == At(s, i + 1)
  }

  /** The children are sorted by offset, and all three lists say what they should. */
  ghost predicate Consistent(dest: Tag)
    reads dest, dest.kids
  {
    OrderedConsistent(dest) && SiblingLinks(Firsts({}, dest.kids), dest.kids)
  }

  /** Everything but the list of first tags. */
  ghost predicate OrderedConsistent(dest: Tag)
    reads dest, dest.kids
  {
    dest !in dest.kids && Distinct(dest.kids) && Sorted(dest.kids)
    && dest.child == At(dest.kids, 0) && OrderedLinks(dest.kids, dest.kids)
    && AllNextLinks(dest.kids)
  }

  /** The tags of every name are linked in document order. */
  ghost predicate AllNextLinks(kids: seq<Tag>)
    reads kids`next
  {
    forall name :: NextLinks(Named(kids, name), kids)
  }

  /** Up to `p` the offsets are at most `off`, behind it they are larger. */
  ghost predicate SplitAt(s: seq<Tag>, off: nat, p: nat)
    reads s`off
  {
    p <= |s| && (forall i :: 0 <= i < p ==> s[i].off <= off) && (forall i :: p <= i < |s| ==> s[i].off > off)
  }

  lemma {:induction false} NamedDistinct(kids: seq<Tag>, name: string)
    requires Distinct(kids)
    ensures Distinct(Named(kids, name))
  {
    if kids != [] {
      NamedDistinct(kids[1..], name);
    }
  }

  lemma DistinctCons(x: Tag, s: seq<Tag>)
    requires Distinct(s) && forall i :: 0 <= i < |s| ==> s[i] != x && s[i].name != x.name
    requires forall i, j :: 0 <= i < j < |s| ==> s[i].name != s[j].name
    ensures var t := [x] + s; Distinct(t) && forall i, j :: 0 <= i < j < |t| ==> t[i].name != t[j].name
  {
  }

  lemma {:induction false} FirstsDistinct(seen: set<string>, kids: seq<Tag>)
    requires Distinct(kids)
    ensures Distinct(Firsts(seen, kids))
    ensures forall i, j :: 0 <= i < j < |Firsts(seen, kids)| ==>
              Firsts(seen, kids)[i].name != Firsts(seen, kids)[j].name
    decreases |kids|
  {
    hide Within;
    if kids != [] {
      if kids[0].name in seen {
        FirstsDistinct(seen, kids[1..]);
      } else {
        var rest := Firsts(seen + {kids[0].name}, kids[1..]);
        FirstsDistinct(seen + {kids[0].name}, kids[1..]);
        hide Firsts;
        assert forall i :: 0 <= i < |rest| ==> rest[i] in rest && rest[i] in kids[1..];
        DistinctCons(kids[0], rest);
      }
    }
  }

  lemma {:induction false} NamedSorted(kids: seq<Tag>, name: string)
    requires Sorted(kids)
    ensures Sorted(Named(kids, name))
  {
    if kids != [] {
      NamedSorted(kids[1..], name);
      forall k | k in kids[1..]
        ensures kids[0].off <= k.off
      {
        var i :| 0 <= i < |kids[1..]| && kids[1..][i] == k;
        assert kids[i + 1] == k;
      }
    }
  }

  lemma {:induction false} FirstsSorted(seen: set<string>, kids: seq<Tag>)
    requires Sorted(kids)
    ensures Sorted(Firsts(seen, kids))
    decreases |kids|
  {
    hide Within;
    if kids != [] {
      if kids[0].name in seen {
        FirstsSorted(seen, kids[1..]);
      } else {
        var rest := Firsts(seen + {kids[0].name}, kids[1..]);
        FirstsSorted(seen + {kids[0].name}, kids[1..]);
        hide Firsts;
        forall i | 0 <= i < |rest|
          ensures kids[0].off <= rest[i].off
        {
          SortedBehind(kids, rest[i]);
        }
        SortedCons(kids[0], rest);
      }
    }
  }

  lemma SortedCons(x: Tag, s: seq<Tag>)
    requires Sorted(s) && forall i :: 0 <= i < |s| ==> x.off <= s[i].off
    ensures Sorted([x] + s)
  {
  }

  lemma SortedBehind(kids: seq<Tag>, t: Tag)
    requires Sorted(kids) && kids != [] && t in kids[1..]
    ensures kids[0].off <= t.off
  {
    var i :| 0 <= i < |kids[1..]| && kids[1..][i] == t;
    assert kids[i + 1] == t;
  }

  lemma {:induction false} NamedConcat(a: seq<Tag>, b: seq<Tag>, name: string)
    ensures Named(a + b, name) == Named(a, name) + Named(b, name)
  {
    if a == [] {
      assert a + b == b;
    } else {
      assert (a + b)[1..] == a[1..] + b;
      NamedConcat(a[1..], b, name);
    }
  }

  lemma {:induction false} FirstsConcat(seen: set<string>, a: seq<Tag>, b: seq<Tag>)
    ensures Firsts(seen, a + b) == Firsts(seen, a) + Firsts(seen + Names(a), b)
    decreases |a|
  {
    hide Within;
    if a == [] {
      assert a + b == b && seen + Names(a) == seen;
    } else {
      assert (a + b)[1..] == a[1..] + b;
      var s := if a[0].name in seen then seen else seen + {a[0].name};
      FirstsConcat(s, a[1..], b);
      assert s + Names(a[1..]) == seen + Names(a);
      var rest := Firsts(s, a[1..] + b);
      assert Firsts(seen, a + b) == if a[0].name in seen then rest else [a[0]] + rest;
    }
  }

  lemma {:induction false} FirstsHas(seen: set<string>, b: seq<Tag>, name: string) returns (c: nat)
    requires name !in seen && name in Names(b)
    ensures c < |Firsts(seen, b)| && Firsts(seen, b)[c].name == name
    decreases |b|
  {
    assert Names(b) == Names(b[1..]) + {b[0].name};
    if b[0].name == name {
      c := 0;
    } else if b[0].name in seen {
      c := FirstsHas(seen, b[1..], name);
    } else {
      c := FirstsHas(seen + {b[0].name}, b[1..], name);
      c := c + 1;
    }
  }

  /** A name that does not occur need not be remembered. */
  lemma {:induction false} FirstsIgnores(seen: set<string>, b: seq<Tag>, name: string)
    requires name !in Names(b)
    ensures Firsts(seen + {name}, b) == Firsts(seen, b)
    decreases |b|
  {
    if b != [] {
      assert Names(b) == Names(b[1..]) + {b[0].name};
      FirstsIgnores(seen, b[1..], name);
      FirstsIgnores(seen + {b[0].name}, b[1..], name);
      assert seen + {b[0].name} + {name} == seen + {name} + {b[0].name};
    }
  }

  /** One more name seen drops the one tag of that name from the firsts. */
  lemma {:induction false} FirstsWithout(seen: set<string>, b: seq<Tag>, name: string, c: nat)
    requires name !in seen && c < |Firsts(seen, b)| && Firsts(seen, b)[c].name == name
    ensures var t := Firsts(seen, b); Firsts(seen + {name}, b) == t[..c] + t[c + 1..]
    decreases |b|
  {
    hide Within;
    var t := Firsts(seen, b);
    if b[0].name == name {
      var rest := Firsts(seen + {name}, b[1..]);
      assert t == [b[0]] + rest;
      assert forall i :: 0 < i < |t| ==> t[i] == rest[i - 1] && t[i] in rest;
    } else if b[0].name in seen {
      FirstsWithout(seen, b[1..], name, c);
    } else {
      var rest := Firsts(seen + {b[0].name}, b[1..]);
      assert t == [b[0]] + rest;
      assert seen + {b[0].name} + {name} == seen + {name} + {b[0].name};
      FirstsWithout(seen + {b[0].name}, b[1..], name, c - 1);
      assert t[..c] + t[c + 1..] == [b[0]] + (rest[..c - 1] + rest[c..]);
    }
  }

  // ---------------------------------------------------------------- insertion

  ghost function Inserted(s: seq<Tag>, p: nat, x: Tag): seq<Tag>
    requires p <= |s|
  {
    s[..p] + [x] + s[p..]
  }

  /** In a sorted list the place behind a last element with offset at most `off` splits it. */
  lemma SortedSplit(s: seq<Tag>, off: nat, p: nat)
    requires Sorted(s) && p <= |s| && (p > 0 ==> s[p - 1].off <= off) && (p < |s| ==> s[p].off > off)
    ensures SplitAt(s, off, p)
  {
  }

  /** The end of the run of children whose offset is at most `off`, in the list of all children. */
  method WalkOrdered(head: Tag, off: nat, ghost kids: seq<Tag>) returns (cur: Tag, ghost p: nat)
    requires kids != [] && head == kids[0] && head.off <= off && Sorted(kids) && OrderedLinks(kids, kids)
    ensures 0 < p && SplitAt(kids, off, p) && cur == kids[p - 1]
  {
    cur, p := head, 1;
    while cur.ordered != null && cur.ordered.off <= off
      invariant 1 <= p <= |kids| && cur == kids[p - 1] && cur.off <= off
      decreases |kids| - p
    {
      cur, p := cur.ordered, p + 1;
    }
    SortedSplit(kids, off, p);
  }

  /** The same in a list of tags of one name. */
  method WalkNext(first: Tag, off: nat, ghost same: seq<Tag>) returns (cur: Tag, ghost q: nat)
    requires same != [] && first == same[0] && first.off <= off && Sorted(same) && NextLinks(same, same)
    ensures 0 < q && SplitAt(same, off, q) && cur == same[q - 1]
  {
    cur, q := first, 1;
    while cur.next != null && cur.next.off <= off
      invariant 1 <= q <= |same| && cur == same[q - 1] && cur.off <= off
      decreases |same| - q
    {
      cur, q := cur.next, q + 1;
    }
    SortedSplit(same, off, q);
  }

  /** Walk the list of first tags to the one called `name`. */
  method FindType(head: Tag, name: string, ghost firsts: seq<Tag>) returns (cur: Tag?, prev: Tag?, ghost c: nat)
    requires firsts != [] && head == firsts[0] && SiblingLinks(firsts, firsts)
    ensures c <= |firsts| && cur == At(firsts, c) && prev == (if c == 0 then null else firsts[c - 1])
    ensures forall i :: 0 <= i < c ==> firsts[i].name != name
    ensures cur != null ==> cur.name == name
  {
    cur, prev, c := head, null, 0;
    while cur != null && cur.name != name
      invariant c <= |firsts| && cur == At(firsts, c) && prev == (if c == 0 then null else firsts[c - 1])
      invariant forall i :: 0 <= i < c ==> firsts[i].name != name
      decreases |firsts| - c
    {
      prev, cur, c := cur, cur.sibling, c + 1;
    }
  }

  /** Walk the list of first tags over those whose offset is at most `off`. */
  method WalkSibling(head: Tag, off: nat, ghost firsts: seq<Tag>) returns (cur: Tag?, prev: Tag?, ghost q: nat)
    requires firsts != [] && head == firsts[0] && Sorted(firsts) && SiblingLinks(firsts, firsts)
    ensures SplitAt(firsts, off, q) && cur == At(firsts, q) && prev == (if q == 0 then null else firsts[q - 1])
  {
    cur, prev, q := head, null, 0;
    while cur != null && cur.off <= off
      invariant q <= |firsts| && cur == At(firsts, q) && prev == (if q == 0 then null else firsts[q - 1])
      invariant prev != null ==> prev.off <= off
      decreases |firsts| - q
    {
      prev, cur, q := cur, cur.sibling, q + 1;
    }
    SortedSplit(firsts, off, q);
  }

  lemma InsertedAt(s: seq<Tag>, p: nat, x: Tag)
    requires p <= |s|
    ensures var t := Inserted(s, p, x);
            |t| == |s| + 1 && t[p] == x
            && (forall i :: 0 <= i < p ==> t[i] == s[i]) && (forall i :: p < i < |t| ==> t[i] == s[i - 1])
  {
  }

  lemma {:induction false} OrderedInserted(s: seq<Tag>, p: nat, x: Tag)
    requires p <= |s| && x.ordered == At(s, p) && (p > 0 ==> s[p - 1].ordered == x)
    requires forall i :: 0 <= i < |s| && i != p - 1 ==> s[i].ordered == At(s, i + 1)
    ensures OrderedLinks(Inserted(s, p, x), Inserted(s, p, x))
  {
    InsertedAt(s, p, x);
    var t := Inserted(s, p, x);
    hide Inserted;
    forall i | 0 <= i < |t|
      ensures t[i].ordered == At(t, i + 1)
    {
      if i != p {
        assert t[i] == s[if i < p then i else i - 1];
      }
    }
  }

  lemma {:induction false} SiblingInserted(s: seq<Tag>, p: nat, x: Tag)
    requires p <= |s| && x.sibling == At(s, p) && (p > 0 ==> s[p - 1].sibling == x)
    requires forall i :: 0 <= i < |s| && i != p - 1 ==> s[i].sibling == At(s, i + 1)
    ensures SiblingLinks(Inserted(s, p, x), Inserted(s, p, x))
  {
    InsertedAt(s, p, x);
    var t := Inserted(s, p, x);
    hide Inserted;
    forall i | 0 <= i < |t|
      ensures t[i].sibling == At(t, i + 1)
    {
      if i != p {
        assert t[i] == s[if i < p then i else i - 1];
      }
    }
  }

  lemma {:induction false} NextInserted(s: seq<Tag>, p: nat, x: Tag)
    requires p <= |s| && x.next == At(s, p) && (p > 0 ==> s[p - 1].next == x)
    requires forall i :: 0 <= i < |s| && i != p - 1 ==> s[i].next == At(s, i + 1)
    ensures NextLinks(Inserted(s, p, x), Inserted(s, p, x))
  {
    InsertedAt(s, p, x);
    var t := Inserted(s, p, x);
    hide Inserted;
    forall i | 0 <= i < |t|
      ensures t[i].next == At(t, i + 1)
    {
      if i != p {
        assert t[i] == s[if i < p then i else i - 1];
      }
    }
  }

  /** Put `x` into the list of all children, behind every child whose offset is not larger. */
  method InsertOrdered(x: Tag, dest: Tag, off: nat, ghost kids: seq<Tag>) returns (ghost p: nat)
    requires kids != [] && Distinct(kids) && Sorted(kids) && OrderedLinks(kids, kids)
    requires dest.child == kids[0] && x !in kids
    modifies x`ordered, dest`child, kids`ordered
    ensures p <= |kids| && SplitAt(kids, off, p) && dest.child == At(Inserted(kids, p, x), 0)
    ensures OrderedLinks(Inserted(kids, p, x), Inserted(kids, p, x))
  {
    hide Sorted; hide SplitAt; hide Inserted; hide Distinct;
    var head := dest.child;
    if head.off <= off {
      var cur;
      cur, p := WalkOrdered(head, off, kids);
      DistinctAt(kids, p - 1);
      x.ordered := cur.ordered;
      cur.ordered := x;
    } else {
      p := 0;
      SortedSplit(kids, off, p);
      x.ordered := head;
      dest.child := x;
    }
    hide OrderedLinks;
    InsertedAt(kids, p, x);
    OrderedInserted(kids, p, x);
  }

  // ---------------------------------------------------------------- what insertion does to the lists

  lemma {:induction false} Halves(s: seq<Tag>, p: nat)
    requires p <= |s|
    ensures s == s[..p] + s[p..]
  {
  }

  /** Where a sorted list of children splits, so does the list of one name. */
  lemma {:induction false} NamedSplit(kids: seq<Tag>, off: nat, p: nat, name: string)
    requires SplitAt(kids, off, p)
    ensures Named(kids, name) == Named(kids[..p], name) + Named(kids[p..], name)
    ensures SplitAt(Named(kids, name), off, |Named(kids[..p], name)|)
  {
    Halves(kids, p);
    NamedConcat(kids[..p], kids[p..], name);
    var a, b := Named(kids[..p], name), Named(kids[p..], name);
    assert forall i :: 0 <= i < |a| ==> a[i] in kids[..p];
    assert forall i :: 0 <= i < |b| ==> b[i] in kids[p..];
  }

  /** Where a sorted list of children splits, so does the list of first tags. */
  lemma {:induction false} FirstsSplit(kids: seq<Tag>, off: nat, p: nat)
    requires SplitAt(kids, off, p)
    ensures Firsts({}, kids) == Firsts({}, kids[..p]) + Firsts(Names(kids[..p]), kids[p..])
    ensures SplitAt(Firsts({}, kids), off, |Firsts({}, kids[..p])|)
  {
    Halves(kids, p);
    FirstsConcat({}, kids[..p], kids[p..]);
    assert {} + Names(kids[..p]) == Names(kids[..p]);
    var a, b := Firsts({}, kids[..p]), Firsts(Names(kids[..p]), kids[p..]);
    assert forall i :: 0 <= i < |a| ==> a[i] in kids[..p];
    assert forall i :: 0 <= i < |b| ==> b[i] in kids[p..];
  }

  lemma {:induction false} InsertedBetween(a: seq<Tag>, b: seq<Tag>, x: Tag)
    ensures Inserted(a + b, |a|, x) == a + ([x] + b)
  {
  }

  lemma {:induction false} NamedInserted(kids: seq<Tag>, p: nat, x: Tag, name: string)
    requires p <= |kids|
    ensures var a, b := Named(kids[..p], name), Named(kids[p..], name);
            Named(kids, name) == a + b
            && Named(Inserted(kids, p, x), name) == if name == x.name then Inserted(a + b, |a|, x) else a + b
  {
    Halves(kids, p);
    NamedConcat(kids[..p], kids[p..], name);
    InsertedBetween(kids[..p], kids[p..], x);
    NamedConcat(kids[..p], [x] + kids[p..], name);
    InsertedBetween(Named(kids[..p], name), Named(kids[p..], name), x);
    assert ([x] + kids[p..])[1..] == kids[p..];
  }

  /** A tag behind another one of its name is not a first tag. */
  lemma {:induction false} FirstsKnown(kids: seq<Tag>, p: nat, x: Tag)
    requires p <= |kids| && x.name in Names(kids[..p])
    ensures Firsts({}, Inserted(kids, p, x)) == Firsts({}, kids)
  {
    Halves(kids, p);
    var a, b := kids[..p], kids[p..];
    FirstsConcat({}, a, b);
    FirstsConcat({}, a, [x] + b);
    assert Inserted(kids, p, x) == a + ([x] + b);
    assert ([x] + b)[1..] == b;
  }

  /** A tag before all others of its name is a first tag, in place of the one that was (at index `d` of those
      behind). */
  lemma {:induction false} FirstsNew(kids: seq<Tag>, p: nat, x: Tag, d: nat)
    requires p <= |kids| && x.name !in Names(kids[..p])
    requires var tail := Firsts(Names(kids[..p]), kids[p..]);
             d <= |tail| && (if d == |tail| then x.name !in Names(kids[p..]) else tail[d].name == x.name)
    ensures var head, tail := Firsts({}, kids[..p]), Firsts(Names(kids[..p]), kids[p..]);
            Firsts({}, Inserted(kids, p, x)) == head + ([x] + (if d == |tail| then tail else tail[..d] + tail[d + 1..]))
  {
    var a, b := kids[..p], kids[p..];
    Halves(kids, p);
    InsertedBetween(a, b, x);
    FirstsConcat({}, a, [x] + b);
    assert ([x] + b)[1..] == b && {} + Names(a) == Names(a);
    if d == |Firsts(Names(a), b)| {
      FirstsIgnores(Names(a), b, x.name);
    } else {
      FirstsWithout(Names(a), b, x.name, d);
    }
  }

  /** The first tag of a name heads the list of that name. */
  lemma {:induction false} FirstHeadsNamed(seen: set<string>, kids: seq<Tag>, c: nat)
    requires c < |Firsts(seen, kids)|
    ensures var t := Firsts(seen, kids)[c]; Named(kids, t.name) != [] && Named(kids, t.name)[0] == t
    decreases |kids|
  {
    if kids[0].name in seen {
      FirstHeadsNamed(seen, kids[1..], c);
    } else if c > 0 {
      FirstHeadsNamed(seen + {kids[0].name}, kids[1..], c - 1);
    }
  }

  lemma SplitUnique(s: seq<Tag>, off: nat, p: nat, q: nat)
    requires SplitAt(s, off, p) && SplitAt(s, off, q)
    ensures p == q
  {
    assert p < |s| ==> s[p].off > off;
    assert q < |s| ==> s[q].off > off;
  }

  lemma DistinctAt(s: seq<Tag>, k: nat)
    requires Distinct(s) && k < |s|
    ensures forall i :: 0 <= i < |s| && i != k ==> s[i] != s[k]
  {
  }

  /** With `x` in its own list and the other lists as they were, all lists of one name are right. */
  lemma {:induction false} AllNextInserted(kids: seq<Tag>, p: nat, x: Tag)
    requires p <= |kids|
    requires var a, b := Named(kids[..p], x.name), Named(kids[p..], x.name);
             NextLinks(Inserted(a + b, |a|, x), Inserted(a + b, |a|, x))
    requires forall name :: name != x.name ==> NextLinks(Named(kids, name), kids)
    ensures AllNextLinks(Inserted(kids, p, x))
  {
    hide Named; hide Inserted;
    forall name
      ensures NextLinks(Named(Inserted(kids, p, x), name), Inserted(kids, p, x))
    {
      NamedInserted(kids, p, x, name);
    }
  }

  /** Link a tag behind others of its name. */
  method InsertKnown(x: Tag, first: Tag, off: nat, ghost kids: seq<Tag>, ghost p: nat, ghost c: nat)
    requires Distinct(kids) && Sorted(kids) && AllNextLinks(kids) && p <= |kids| && SplitAt(kids, off, p) && x !in kids
    requires c < |Firsts({}, kids)| && first == Firsts({}, kids)[c] && first.name == x.name && first.off <= off
    modifies x`next, kids`next
    ensures AllNextLinks(Inserted(kids, p, x))
  {
    hide Sorted; hide SplitAt; hide Named; hide Firsts; hide Distinct; hide Inserted;
    ghost var same := Named(kids, x.name);
    NamedSplit(kids, off, p, x.name);
    NamedSorted(kids, x.name);
    NamedDistinct(kids, x.name);
    FirstHeadsNamed({}, kids, c);
    var cur;
    ghost var q;
    cur, q := WalkNext(first, off, same);
    SplitUnique(same, off, q, |Named(kids[..p], x.name)|);
    DistinctAt(same, q - 1);
    x.next := cur.next;
    cur.next := x;
    NextInserted(same, q, x);
    AllNextInserted(kids, p, x);
  }

  /** If no first tag within `off` has this name, no child within `off` has it. */
  lemma {:induction false} NameIsNew(kids: seq<Tag>, off: nat, p: nat, name: string, c: nat)
    requires p <= |kids| && SplitAt(kids, off, p)
    requires var f := Firsts({}, kids);
             c <= |f| && (forall i :: 0 <= i < c ==> f[i].name != name) && (c < |f| ==> f[c].off > off)
    ensures var head, tail := Firsts({}, kids[..p]), Firsts(Names(kids[..p]), kids[p..]);
            Firsts({}, kids) == head + tail && |head| <= c && name !in Names(kids[..p])
    ensures c == |Firsts({}, kids)| ==> name !in Names(kids[p..]) && name !in Names(kids)
  {
    hide Named;
    Halves(kids, p);
    FirstsSplit(kids, off, p);
    var f, head, tail := Firsts({}, kids), Firsts({}, kids[..p]), Firsts(Names(kids[..p]), kids[p..]);
    assert forall i :: 0 <= i < |head| ==> f[i] == head[i] && f[i].off <= off;
    assert forall i :: 0 <= i < |tail| ==> f[|head| + i] == tail[i];
    if name in Names(kids[..p]) {
      var i := FirstsHas({}, kids[..p], name);
    } else if name in Names(kids[p..]) {
      var i := FirstsHas(Names(kids[..p]), kids[p..], name);
    }
  }

  ghost function Dropped(s: seq<Tag>, c: nat): seq<Tag>
    requires c < |s|
  {
    s[..c] + s[c + 1..]
  }

  /** Take the tag at `c` out of the list of first tags. */
  method UnlinkSibling(cur: Tag, prev: Tag, ghost firsts: seq<Tag>, ghost c: nat)
    requires 0 < c < |firsts| && cur == firsts[c] && prev == firsts[c - 1]
    requires Distinct(firsts) && SiblingLinks(firsts, firsts)
    modifies prev`sibling
    ensures SiblingLinks(Dropped(firsts, c), Dropped(firsts, c))
  {
    prev.sibling := cur.sibling;
    ghost var g := Dropped(firsts, c);
    forall i | 0 <= i < |g|
      ensures g[i].sibling == At(g, i + 1)
    {
      assert g[i] == firsts[if i < c then i else i + 1];
    }
  }

  /** Put `x` into the list of first tags, behind every one whose offset is not larger. */
  method LinkSibling(x: Tag, head: Tag, off: nat, ghost firsts: seq<Tag>, ghost kids: seq<Tag>) returns (ghost q: nat)
    requires firsts != [] && head == firsts[0] && Within(firsts, kids) && x !in kids
    requires Distinct(firsts) && Sorted(firsts) && SiblingLinks(firsts, firsts)
    modifies x`sibling, kids`sibling
    ensures q <= |firsts| && SplitAt(firsts, off, q) && x.sibling == At(firsts, q)
    ensures SiblingLinks(Inserted(firsts, q, x), Inserted(firsts, q, x))
  {
    hide Sorted; hide SplitAt; hide Distinct;
    var cur, prev;
    cur, prev, q := WalkSibling(head, off, firsts);
    DistinctAt(firsts, if q == 0 then 0 else q - 1);
    x.sibling := cur;
    if prev != null {
      prev.sibling := x;
    }
    SiblingInserted(firsts, q, x);
  }

  /** The list that `x` is linked into: without the old first tag of its name, unless that is the head. */
  ghost function Relieved(f: seq<Tag>, c: nat): seq<Tag> {
    if 0 < c < |f| then Dropped(f, c) else f
  }

  lemma {:induction false} DroppedConcat(a: seq<Tag>, b: seq<Tag>, d: nat)
    requires d < |b|
    ensures Dropped(a + b, |a| + d) == a + (b[..d] + b[d + 1..])
  {
  }

  lemma {:induction false} RelievedFacts(f: seq<Tag>, off: nat, q: nat, c: nat)
    requires Distinct(f) && Sorted(f) && q <= c <= |f| && SplitAt(f, off, q)
    ensures var g := Relieved(f, c); Distinct(g) && Sorted(g) && q <= |g| && SplitAt(g, off, q) && Within(g, f)
    ensures f != [] ==> Relieved(f, c) != [] && Relieved(f, c)[0] == f[0]
  {
    var g := Relieved(f, c);
    assert forall i :: 0 <= i < |g| ==> g[i] == f[if 0 < c < |f| && i >= c then i + 1 else i];
  }

  /** The first tags after an insertion, from those before. */
  lemma {:induction false} FirstsAfter(kids: seq<Tag>, off: nat, p: nat, x: Tag, c: nat)
    requires p <= |kids| && SplitAt(kids, off, p)
    requires var f := Firsts({}, kids);
             c <= |f| && (forall i :: 0 <= i < c ==> f[i].name != x.name)
               && (c < |f| ==> f[c].name == x.name && f[c].off > off)
    ensures var f, q, t := Firsts({}, kids), |Firsts({}, kids[..p])|, Firsts({}, Inserted(kids, p, x));
            q <= c && SplitAt(f, off, q) && q <= |Relieved(f, c)|
            && (if c == 0 && c < |f| then q == 0 && t == [x] + f[1..] else t == Inserted(Relieved(f, c), q, x))
  {
    hide SplitAt; hide Firsts; hide Inserted; hide Dropped;
    NameIsNew(kids, off, p, x.name, c);
    FirstsSplit(kids, off, p);
    var f, head, tail := Firsts({}, kids), Firsts({}, kids[..p]), Firsts(Names(kids[..p]), kids[p..]);
    var d := c - |head|;
    FirstsNew(kids, p, x, d);
    if c == |f| {
      InsertedBetween(head, tail, x);
    } else {
      var rest := tail[..d] + tail[d + 1..];
      DroppedConcat(head, tail, d);
      InsertedBetween(head, rest, x);
      if c == 0 {
        assert head == [] && rest == f[1..];
      }
    }
  }

  /** Link `x` into the list of first tags, and the old first tag of its name out of it unless that is the head. */
  method RelinkSiblings(x: Tag, head: Tag, cur: Tag?, prev: Tag?, off: nat, ghost f: seq<Tag>, ghost c: nat,
                        ghost q: nat, ghost kids: seq<Tag>)
    requires f != [] && head == f[0] && Within(f, kids) && x !in kids
    requires Distinct(f) && Sorted(f) && SiblingLinks(f, f) && q <= c <= |f| && SplitAt(f, off, q)
    requires cur == At(f, c) && prev == (if c == 0 then null else f[c - 1])
    modifies x`sibling, kids`sibling
    ensures q <= |Relieved(f, c)| && SiblingLinks(Inserted(Relieved(f, c), q, x), Inserted(Relieved(f, c), q, x))
    ensures x.sibling == At(Relieved(f, c), q)
  {
    hide Sorted; hide SplitAt; hide Distinct; hide Inserted; hide Dropped;
    RelievedFacts(f, off, q, c);
    ghost var g := Relieved(f, c);
    assert forall i :: 0 <= i < |g| ==> g[i] in f && g[i] in kids;
    if prev != null && cur != null {
      UnlinkSibling(cur, prev, f, c);
    }
    ghost var r := LinkSibling(x, head, off, g, kids);
    SplitUnique(g, off, q, r);
  }

  lemma {:induction false} NamedEmpty(kids: seq<Tag>, name: string)
    ensures name in Names(kids) <==> Named(kids, name) != []
  {
    var n := Named(kids, name);
    if n != [] {
      assert n[0] in n;
    }
  }

  /** `x` in front of the tags of its name. */
  lemma {:induction false} NextFirst(kids: seq<Tag>, p: nat, x: Tag, c: nat)
    requires p <= |kids| && x !in kids && x.name !in Names(kids[..p])
    requires c <= |Firsts({}, kids)| && x.next == At(Firsts({}, kids), c)
    requires if c == |Firsts({}, kids)| then x.name !in Names(kids) else Firsts({}, kids)[c].name == x.name
    requires AllNextLinks(kids)
    ensures AllNextLinks(Inserted(kids, p, x))
  {
    hide Inserted; hide Firsts; hide Named;
    var a, b := Named(kids[..p], x.name), Named(kids[p..], x.name);
    NamedInserted(kids, p, x, x.name);
    NamedEmpty(kids[..p], x.name);
    NamedEmpty(kids, x.name);
    var same := Named(kids, x.name);
    assert same == b == a + b;
    if c < |Firsts({}, kids)| {
      FirstHeadsNamed({}, kids, c);
    }
    assert NextLinks(same, kids);
    NextInserted(same, 0, x);
    AllNextInserted(kids, p, x);
  }

  lemma {:induction false} SiblingReframe(s: seq<Tag>, a: seq<Tag>, b: seq<Tag>)
    requires Within(s, a) && Within(s, b)
    ensures SiblingLinks(s, a) <==> SiblingLinks(s, b)
  {
  }

  lemma {:induction false} SiblingTwice(x: Tag, f: seq<Tag>, kids: seq<Tag>)
    requires f != [] && Distinct(f) && x.sibling == f[0] && Within([x] + f[1..], kids)
    ensures !SiblingLinks([x] + f[1..], kids)
  {
    var t := [x] + f[1..];
    assert t[0] == x;
  }

  /** Link a tag that is the first of its name; the one that was first, if any, leaves the list unless it is the
      head. */
  method InsertFirst(x: Tag, head: Tag, cur: Tag?, prev: Tag?, off: nat, ghost kids: seq<Tag>, ghost p: nat,
                     ghost c: nat)
    requires Distinct(kids) && Sorted(kids) && AllNextLinks(kids) && p <= |kids| && SplitAt(kids, off, p) && x !in kids
    requires Firsts({}, kids) != [] && head == Firsts({}, kids)[0] && SiblingLinks(Firsts({}, kids), kids)
    requires var f := Firsts({}, kids);
             c <= |f| && cur == At(f, c) && prev == (if c == 0 then null else f[c - 1])
             && (forall i :: 0 <= i < c ==> f[i].name != x.name)
             && (cur != null ==> cur.name == x.name && cur.off > off)
    modifies x`next, x`sibling, kids`sibling
    ensures AllNextLinks(Inserted(kids, p, x))
    ensures SiblingLinks(Firsts({}, Inserted(kids, p, x)), Inserted(kids, p, x)) <==> cur != head
  {
    hide Sorted; hide SplitAt; hide Named; hide Firsts; hide Distinct; hide Inserted; hide AllNextLinks; hide Dropped;
    hide Names;
    hide SiblingLinks;
    ghost var f, q := Firsts({}, kids), |Firsts({}, kids[..p])|;
    FirstsAfter(kids, off, p, x, c);
    NameIsNew(kids, off, p, x.name, c);
    FirstsSorted({}, kids);
    FirstsDistinct({}, kids);
    SiblingReframe(f, kids, f);
    RelinkSiblings(x, head, cur, prev, off, f, c, q, kids);
    x.next := cur;
    NextFirst(kids, p, x, c);
    ghost var t := Inserted(kids, p, x);
    if cur == head {
      DistinctAt(f, 0);
      SiblingTwice(x, f, t);
    } else {
      SiblingReframe(Firsts({}, t), Firsts({}, t), t);
    }
  }

  lemma {:induction false} InsertedKeeps(kids: seq<Tag>, p: nat, x: Tag)
    requires p <= |kids| && SplitAt(kids, x.off, p) && Distinct(kids) && Sorted(kids) && x !in kids
    ensures Distinct(Inserted(kids, p, x)) && Sorted(Inserted(kids, p, x))
    ensures forall k :: k in Inserted(kids, p, x) <==> k in kids || k == x
  {
    InsertedMembers(kids, p, x);
    InsertedDistinct(kids, p, x);
    hide Distinct;
    InsertedAt(kids, p, x);
  }

  lemma {:induction false} InsertedMembers(kids: seq<Tag>, p: nat, x: Tag)
    requires p <= |kids|
    ensures forall k :: k in Inserted(kids, p, x) <==> k in kids || k == x
  {
    Halves(kids, p);
  }

  lemma {:induction false} InsertedDistinct(kids: seq<Tag>, p: nat, x: Tag)
    requires p <= |kids| && Distinct(kids) && x !in kids
    ensures Distinct(Inserted(kids, p, x))
  {
  }

  lemma FirstsHead(kids: seq<Tag>)
    requires kids != []
    ensures Firsts({}, kids) != [] && Firsts({}, kids)[0] == kids[0]
  {
  }

  /** A tag within `off` lies in the first part of a split list. */
  lemma {:induction false} NameIsKnown(kids: seq<Tag>, off: nat, p: nat, t: Tag)
    requires p <= |kids| && SplitAt(kids, off, p) && t in kids && t.off <= off
    ensures t.name in Names(kids[..p])
  {
    var i :| 0 <= i < |kids| && kids[i] == t;
    assert kids[..p][i] == t;
  }

  /** Link a new child into the list of its name and, if it is the first, into the list of first tags. */
  method InsertNamed(x: Tag, head: Tag, off: nat, ghost kids: seq<Tag>, ghost p: nat)
    requires kids != [] && head == kids[0] && Distinct(kids) && Sorted(kids) && x !in kids
    requires AllNextLinks(kids) && SiblingLinks(Firsts({}, kids), kids) && p <= |kids| && SplitAt(kids, off, p)
             && x.sibling == null
    modifies x`next, x`sibling, kids`next, kids`sibling
    ensures AllNextLinks(Inserted(kids, p, x))
    ensures SiblingLinks(Firsts({}, Inserted(kids, p, x)), Inserted(kids, p, x)) <==>
              !(off < head.off && x.name == head.name)
  {
    hide Sorted; hide SplitAt; hide Named; hide Firsts; hide Distinct; hide Inserted; hide AllNextLinks; hide Names;
    hide SiblingLinks;
    FirstsHead(kids);
    ghost var f := Firsts({}, kids);
    SiblingReframe(f, kids, f);
    var cur, prev;
    ghost var c;
    cur, prev, c := FindType(head, x.name, f);
    if cur != null && cur.off <= off {
      NameIsKnown(kids, off, p, cur);
      FirstsKnown(kids, p, x);
      FirstsSorted({}, kids);
      assert head.off <= cur.off by { SortedHead(f, c); }
      InsertKnown(x, cur, off, kids, p, c);
      SiblingReframe(f, kids, Inserted(kids, p, x));
    } else {
      InsertFirst(x, head, cur, prev, off, kids, p, c);
    }
  }

  lemma SortedHead(s: seq<Tag>, c: nat)
    requires Sorted(s) && c < |s|
    ensures s[0].off <= s[c].off
  {
  }

  /** ezxml_insert would leave two tags of one name in the list of first tags. */
  ghost predicate Clash(dest: Tag, x: Tag, off: nat)
    reads dest, dest.kids
  {
    dest.kids != [] && off < dest.kids[0].off && x.name == dest.kids[0].name
  }

  /** The lists of a parent with its only child. */
  lemma {:induction false} OnlyChild(x: Tag)
    requires x.next == null && x.sibling == null && x.ordered == null
    ensures Inserted([], 0, x) == [x] && Distinct([x]) && Sorted([x]) && SplitAt([], x.off, 0)
    ensures OrderedLinks([x], [x]) && AllNextLinks([x]) && SiblingLinks(Firsts({}, [x]), [x])
  {
    assert Firsts({}, [x]) == [x];
    forall name
      ensures NextLinks(Named([x], name), [x])
    {
      assert Named([x], name) == if x.name == name then [x] else [];
    }
  }

  /** The case of a parent that already has children. */
  method InsertBelow(x: Tag, dest: Tag, off: nat, ghost kids: seq<Tag>) returns (ghost p: nat)
    requires kids != [] && Distinct(kids) && Sorted(kids) && OrderedLinks(kids, kids) && AllNextLinks(kids)
    requires SiblingLinks(Firsts({}, kids), kids) && dest.child == kids[0] && x !in kids && x.sibling == null
    modifies x`next, x`sibling, x`ordered, dest`child, kids`next, kids`sibling, kids`ordered
    ensures p <= |kids| && SplitAt(kids, off, p)
    ensures var t := Inserted(kids, p, x);
            dest.child == At(t, 0) && OrderedLinks(t, t) && AllNextLinks(t)
            && (SiblingLinks(Firsts({}, t), t) <==> !(off < kids[0].off && x.name == kids[0].name))
  {
    hide Sorted; hide SplitAt; hide Named; hide Firsts; hide Distinct; hide Inserted; hide AllNextLinks;
    hide SiblingLinks;
    var head := dest.child;
    p := InsertOrdered(x, dest, off, kids);
    InsertedAt(kids, p, x);
    InsertNamed(x, head, off, kids, p);
  }

  /**
   * ezxml_insert: the new child goes behind every child whose offset is not larger. The lists stay consistent exactly
   * when the new tag does not displace a first child of its own name.
   */
  method Insert(x: Tag, dest: Tag, off: nat) returns (ghost p: nat)
    requires Consistent(dest) && x != dest && x !in dest.kids
    modifies x`next, x`sibling, x`ordered, x`off, x`parent, dest`child, dest`kids
    modifies dest.kids`next, dest.kids`sibling, dest.kids`ordered
    ensures p <= |old(dest.kids)| && old(SplitAt(dest.kids, off, p)) && dest.kids == Inserted(old(dest.kids), p, x)
    ensures x.off == off && x.parent == dest
    ensures OrderedConsistent(dest)
    ensures Consistent(dest) <==> !old(Clash(dest, x, off))
  {
    hide Sorted; hide SplitAt; hide Named; hide Firsts; hide Distinct; hide Inserted; hide AllNextLinks;
    hide OrderedLinks;
    hide SiblingLinks;
    x.next, x.sibling, x.ordered := null, null, null;
    x.off := off;
    x.parent := dest;
    ghost var kids := dest.kids;
    if dest.child != null {
      p := InsertBelow(x, dest, off, kids);
    } else {
      p := 0;
      dest.child := x;
      OnlyChild(x);
    }
    InsertedKeeps(kids, p, x);
    dest.kids := Inserted(kids, p, x);
  }

  /** A new child, inserted. */
  method NewChild(xml: Tag, name: string, off: nat) returns (child: Tag, ghost p: nat)
    requires Consistent(xml)
    modifies xml`child, xml`kids, xml.kids`next, xml.kids`sibling, xml.kids`ordered
    ensures fresh(child) && child.name == name && child.off == off && child.parent == xml && child.kids == []
    ensures p <= |old(xml.kids)| && old(SplitAt(xml.kids, off, p)) && xml.kids == Inserted(old(xml.kids), p, child)
    ensures OrderedConsistent(xml)
    ensures Consistent(xml) <==> !old(xml.kids != [] && off < xml.kids[0].off && name == xml.kids[0].name)
  {
    hide Sorted; hide SplitAt; hide Distinct; hide AllNextLinks; hide OrderedLinks; hide SiblingLinks; hide Inserted;
    hide Firsts;
    child := new Tag(name);
    p := Insert(child, xml, off);
  }

  /** Two tags of one name, the second one in front: the list of first tags then holds both. */
  method ClashExample() returns (dest: Tag)
    ensures OrderedConsistent(dest) && !Consistent(dest)
  {
    dest := new Tag("root");
    var late, p := NewChild(dest, "a", 5);
    var early, q := NewChild(dest, "a", 3);
  }

  /**
   * ezxml_add_child. A child that does not start before the others, as the parser's children never do, goes to the end
   * and keeps all lists consistent.
   */
  method AddChild(xml: Tag?, name: string, off: nat) returns (child: Tag?)
    requires xml != null ==> Consistent(xml)
    modifies xml, if xml == null then [] else xml.kids
    ensures xml == null <==> child == null
    ensures xml != null ==> fresh(child) && child.name == name && child.off == off && OrderedConsistent(xml)
    ensures xml != null && old(forall k :: k in xml.kids ==> k.off <= off) ==>
              Consistent(xml) && xml.kids == old(xml.kids) + [child]
  {
    hide Consistent; hide OrderedConsistent;
    if xml == null {
      return null;
    }
    ghost var p;
    ghost var kids := xml.kids;
    child, p := NewChild(xml, name, off);
    if p == |kids| {
      assert Inserted(kids, p, child) == kids + [child];
    } else {
      assert kids[p] in kids && old(kids[p].off) > off;
    }
  }

  /** How many of the first `i` children are called `name`. */
  ghost function CountNamed(kids: seq<Tag>, name: string, i: nat): nat
    requires i <= |kids|
  {
    if i == 0 then 0 else CountNamed(kids, name, i - 1) + if kids[i - 1].name == name then 1 else 0
  }

  lemma {:induction false} CountIsLength(kids: seq<Tag>, name: string, i: nat)
    requires i <= |kids|
    ensures CountNamed(kids, name, i) == |Named(kids[..i], name)|
  {
    if i > 0 {
      CountIsLength(kids, name, i - 1);
      NamedConcat(kids[..i - 1], [kids[i - 1]], name);
      assert kids[..i - 1] + [kids[i - 1]] == kids[..i];
      assert Named([kids[i - 1]], name) == if kids[i - 1].name == name then [kids[i - 1]] else [];
    }
  }

  /** The `k`-th of the tags of one name is the child of that name with `k` such children before it. */
  lemma {:induction false} NamedIsKth(kids: seq<Tag>, name: string, i: nat)
    requires i < |kids| && kids[i].name == name
    ensures var k := CountNamed(kids, name, i); k < |Named(kids, name)| && Named(kids, name)[k] == kids[i]
    ensures |Named(kids, name)| == CountNamed(kids, name, |kids|)
  {
    Halves(kids, i);
    NamedConcat(kids[..i], kids[i..], name);
    CountIsLength(kids, name, i);
    CountIsLength(kids, name, |kids|);
    assert kids[..|kids|] == kids;
  }

  /** ezxml_child: the first child called `name`. */
  method Child(xml: Tag?, name: string) returns (t: Tag?)
    requires xml != null ==> Consistent(xml)
    ensures t == if xml == null then null else At(Named(xml.kids, name), 0)
  {
    hide Named; hide Firsts;
    t := if xml != null then xml.child else null;
    if t != null {
      FirstsHead(xml.kids);
      ghost var c;
      var prev;
      t, prev, c := FindType(t, name, Firsts({}, xml.kids));
      NamedEmpty(xml.kids, name);
      if t != null {
        FirstHeadsNamed({}, xml.kids, c);
      } else if name in Names(xml.kids) {
        c := FirstsHas({}, xml.kids, name);
      }
    } else if xml != null {
      NamedEmpty(xml.kids, name);
    }
  }

  /** ezxml_idx: `idx` steps along the list of one name; a negative index runs off its end. */
  method Idx(xml: Tag?, idx: int, ghost same: seq<Tag>, ghost at: nat) returns (t: Tag?)
    requires xml == At(same, at) && NextLinks(same, same)
    ensures t == if idx < 0 then null else At(same, at + idx)
  {
    t := xml;
    var left := idx;
    ghost var i := at;
    while t != null && left != 0
      invariant t == At(same, i) && at <= i && left == idx - (i - at) && (0 <= idx ==> 0 <= left)
      decreases |same| - i
    {
      t, left, i := t.next, left - 1, i + 1;
    }
  }

  /** ezxml_get with one name and index: the `k`-th child of that name in document order. */
  method Get(xml: Tag?, name: string, k: nat) returns (t: Tag?)
    requires xml != null ==> Consistent(xml)
    ensures t == if xml == null then null else At(Named(xml.kids, name), k)
  {
    var first := Child(xml, name);
    t := Idx(first, k, if xml == null then [] else Named(xml.kids, name), 0);
  }
}
