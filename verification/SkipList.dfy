/** The ordered list behind a memtable: a linked list per level, each a sublist of the one
    below, which readers search while one writer inserts. A pointer store is one step, and the
    list is in order after every step. */
module SkipList {
  import opened Entries

  const MaxHeight: nat := 12

  class Node {
    const key: Entry
    var next: seq<Node?>

    constructor (key: Entry, height: nat)
      ensures this.key == key && |next| == height
    {
      this.key, next := key, seq(height, _ => null);
    }
  }

  // ---- Linear scans of one level ----

  ghost predicate SortedNodes(ns: seq<Node>) {
    forall i, j | 0 <= i < j < |ns| :: Before(ns[i].key, ns[j].key)
  }

  ghost function NodeAt(ns: seq<Node>, i: nat): Node? {
    if i < |ns| then ns[i] else null
  }

  /** The earliest node at or after `key`. */
  ghost function FirstFrom(ns: seq<Node>, key: Entry): Node? {
    if |ns| == 0 then null else if !Before(ns[0].key, key) then ns[0] else FirstFrom(ns[1..], key)
  }

  /** The latest node before `key`, or `start` when there is none. */
  ghost function LastBefore(start: Node, ns: seq<Node>, key: Entry): Node {
    if |ns| == 0 || !Before(ns[0].key, key) then start else LastBefore(ns[0], ns[1..], key)
  }

  ghost function NodeBefore(start: Node, ns: seq<Node>, p: nat): Node
    requires p <= |ns|
  {
    if p == 0 then start else ns[p - 1]
  }

  ghost function Keys(ns: seq<Node>): seq<Entry> { seq(|ns|, i requires 0 <= i < |ns| => ns[i].key) }

  /** A key put before the first one that is not before it. */
  ghost function Inserted(es: seq<Entry>, key: Entry): seq<Entry> {
    if |es| == 0 || !Before(es[0], key) then [key] + es else [es[0]] + Inserted(es[1..], key)
  }

  /** Where the keys cross from before `key` to not before it, both scans stop. */
  lemma {:induction false} ScansMeet(start: Node, ns: seq<Node>, key: Entry, p: nat)
    requires SortedNodes(ns) && p <= |ns|
    requires p > 0 ==> Before(ns[p - 1].key, key)
    requires p < |ns| ==> !Before(ns[p].key, key)
    ensures FirstFrom(ns, key) == NodeAt(ns, p)
    ensures LastBefore(start, ns, key) == NodeBefore(start, ns, p)
  {
    if p > 0 {
      assert p > 1 ==> Before(ns[0].key, ns[p - 1].key);
      assert p > 1 ==> ns[1..][p - 2] == ns[p - 1];
      assert p < |ns| ==> ns[1..][p - 1] == ns[p];
      ScansMeet(ns[0], ns[1..], key, p - 1);
    }
  }

  /** Only the first key that is not before another one can be equal to it. */
  lemma FoundAt(ns: seq<Node>, key: Entry, p: nat)
    requires SortedNodes(ns) && p <= |ns|
    requires p > 0 ==> Before(ns[p - 1].key, key)
    requires p < |ns| ==> !Before(ns[p].key, key)
    ensures p < |ns| && !Before(key, ns[p].key) <==> exists e :: e in Keys(ns) && !Before(e, key) && !Before(key, e)
  {
    ScanSplits(ns, key, p);
    assert forall j: nat | p < j < |ns| :: Before(ns[p].key, ns[j].key);
    if p < |ns| {
      assert Keys(ns)[p] == ns[p].key;
    }
    forall e | e in Keys(ns) && !Before(e, key) && !Before(key, e) ensures p < |ns| && !Before(key, ns[p].key) {
      var i :| 0 <= i < |ns| && ns[i].key == e;
    }
  }

  lemma ScanSplits(ns: seq<Node>, key: Entry, p: nat)
    requires SortedNodes(ns) && p <= |ns|
    requires p > 0 ==> Before(ns[p - 1].key, key)
    requires p < |ns| ==> !Before(ns[p].key, key)
    ensures forall j: nat | j < p :: Before(ns[j].key, key)
    ensures forall j: nat | p <= j < |ns| :: !Before(ns[j].key, key)
  {
    forall j: nat | j < p ensures Before(ns[j].key, key) {
      assert j == p - 1 || Before(ns[j].key, ns[p - 1].key);
    }
    forall j: nat | p <= j < |ns| ensures !Before(ns[j].key, key) {
      assert j == p || Before(ns[p].key, ns[j].key);
    }
  }

  lemma {:induction false} InsertedAt(es: seq<Entry>, key: Entry, p: nat)
    requires Sorted(es) && p <= |es|
    requires p > 0 ==> Before(es[p - 1], key)
    requires p < |es| ==> !Before(es[p], key)
    ensures Inserted(es, key) == es[..p] + [key] + es[p..]
  {
    if p > 0 {
      assert p > 1 ==> Before(es[0], es[p - 1]);
      assert p > 1 ==> es[1..][p - 2] == es[p - 1];
      assert p < |es| ==> es[1..][p - 1] == es[p];
      InsertedAt(es[1..], key, p - 1);
      assert es[..p] == [es[0]] + es[1..][..p - 1];
    } else {
      assert es[..0] == [] && es[0..] == es;
    }
  }

  /** Where the scan for the latest node before `key` stops. */
  lemma {:induction false} LastBeforeAt(start: Node, ns: seq<Node>, key: Entry) returns (p: nat)
    ensures p <= |ns| && LastBefore(start, ns, key) == NodeBefore(start, ns, p)
    ensures p > 0 ==> Before(ns[p - 1].key, key)
    ensures p < |ns| ==> !Before(ns[p].key, key)
  {
    p := 0;
    if |ns| > 0 && Before(ns[0].key, key) {
      var q := LastBeforeAt(ns[0], ns[1..], key);
      p := q + 1;
    }
  }

  /** A sorted level holds a node once. */
  lemma Once(ns: seq<Node>, i: nat, j: nat)
    requires SortedNodes(ns) && i < |ns| && j < |ns| && ns[i] == ns[j]
    ensures i == j
  {
  }

  lemma OnlyAt(ns: seq<Node>, n: Node, p: nat, start: Node)
    requires SortedNodes(ns) && start !in ns && p <= |ns| && n == NodeBefore(start, ns, p)
    ensures forall j: nat | j < |ns| :: (ns[j] == n <==> j + 1 == p)
  {
    forall j: nat | j < |ns| ensures ns[j] == n <==> j + 1 == p {
      if p > 0 && ns[j] == n {
        Once(ns, j, p - 1);
      }
    }
  }

  /** Node x goes in after `before`, at place p of level l. */
  datatype Splice = Splice(x: Node, before: Node, l: nat, p: nat)

  ghost function Spliced(ns: seq<Node>, p: nat, x: Node): seq<Node>
    requires p <= |ns|
  {
    ns[..p] + [x] + ns[p..]
  }

  lemma SplicedAt(ns: seq<Node>, p: nat, x: Node)
    requires p <= |ns|
    ensures |Spliced(ns, p, x)| == |ns| + 1
    ensures forall i: nat | i <= |ns| ::
              Spliced(ns, p, x)[i] == if i < p then ns[i] else if i == p then x else ns[i - 1]
    ensures forall n :: n in Spliced(ns, p, x) <==> n == x || n in ns
  {
    var s := Spliced(ns, p, x);
    assert s[p] == x;
    forall i | 0 <= i < |ns| ensures ns[i] in s {
      assert s[if i < p then i else i + 1] == ns[i];
    }
  }

  lemma SplicedIsSorted(ns: seq<Node>, p: nat, x: Node)
    requires SortedNodes(ns) && p <= |ns|
    requires p > 0 ==> Before(ns[p - 1].key, x.key)
    requires p < |ns| ==> Before(x.key, ns[p].key)
    ensures SortedNodes(Spliced(ns, p, x))
  {
    SplicedAt(ns, p, x);
    var s := Spliced(ns, p, x);
    forall i, j | 0 <= i < j < |s| ensures Before(s[i].key, s[j].key) {
      if j == p {
        assert i == p - 1 || Before(ns[i].key, ns[p - 1].key);
      } else if i == p {
        assert j - 1 == p || Before(ns[p].key, ns[j - 1].key);
      }
    }
  }

  lemma SplicedKeys(ns: seq<Node>, p: nat, x: Node)
    requires SortedNodes(ns) && p <= |ns|
    requires p > 0 ==> Before(ns[p - 1].key, x.key)
    requires p < |ns| ==> Before(x.key, ns[p].key)
    ensures Keys(Spliced(ns, p, x)) == Inserted(Keys(ns), x.key)
  {
    InsertedAt(Keys(ns), x.key, p);
    assert Keys(Spliced(ns, p, x)) == Keys(ns)[..p] + [x.key] + Keys(ns)[p..];
  }

  /** Every node on level l is on the level below. */
  ghost predicate Within(levels: seq<seq<Node>>, l: nat)
    requires 0 < l < |levels|
  {
    forall n | n in levels[l] :: n in levels[l - 1]
  }

  ghost predicate Nested(levels: seq<seq<Node>>) {
    forall l: nat | 0 < l < |levels| :: Within(levels, l)
  }

  lemma NestedAfter(levels: seq<seq<Node>>, l: nat, ns: seq<Node>, x: Node)
    requires Nested(levels) && l < |levels| && (l > 0 ==> x in levels[l - 1])
    requires forall n :: n in ns <==> n == x || n in levels[l]
    ensures Nested(levels[l := ns])
  {
    var after := levels[l := ns];
    forall k: nat | 0 < k < |after| ensures Within(after, k) {
      assert Within(levels, k);
    }
  }

  // ---- The list ----

  /** A search for `key` may stand at x on level l. */
  ghost predicate Standing(levels: seq<seq<Node>>, head: Node, x: Node, l: nat, key: Entry) {
    l < |levels| && (x == head || (x in levels[l] && Before(x.key, key)))
  }

  class SkipList {
    const head: Node
    var maxHeight: nat
    /** The nodes on each level, in order, without the head. */
    ghost var levels: seq<seq<Node>>
    ghost var repr: set<Node>

    /** The nodes on level l from the head on. */
    ghost predicate Linked(l: nat)
      requires l < |levels|
      reads this, head, repr
    {
      && SortedNodes(levels[l]) && head !in levels[l]
      && l < |head.next| && head.next[l] == NodeAt(levels[l], 0)
      && (forall n | n in levels[l] :: n in repr && l < |n.next|)
      && (forall p: nat | p < |levels[l]| :: levels[l][p].next[l] == NodeAt(levels[l], p + 1))
    }

    /** Every level is a sorted list and a sublist of the one below. Nothing here depends on
        the published height. */
    ghost predicate Valid()
      reads this, head, repr
    {
      && |levels| == MaxHeight && 1 <= maxHeight <= MaxHeight && head in repr
      && (forall l: nat | l < MaxHeight :: Linked(l))
      && Nested(levels)
    }

    /** Between inserts, no level above the published height is in use. */
    ghost predicate Settled()
      reads this
    {
      |levels| == MaxHeight && forall l: nat | maxHeight <= l < MaxHeight :: levels[l] == []
    }

    ghost function Contents(): seq<Entry>
      requires |levels| == MaxHeight
      reads this
    {
      Keys(levels[0])
    }

    ghost predicate OnPath(x: Node, l: nat, key: Entry)
      reads this
    {
      Standing(levels, head, x, l, key)
    }

    constructor ()
      ensures Valid() && Settled() && Contents() == [] && fresh(repr)
    {
      head := new Node(Entry(0.0, 0, 0, ""), MaxHeight);
      maxHeight := 1;
      levels, repr := seq(MaxHeight, _ => []), {};
      new;
      repr := {head};
      for i := 0 to MaxHeight
        modifies head
        invariant |head.next| == MaxHeight && forall l: nat | l < i :: head.next[l] == null
      {
        head.next := head.next[i := null];
      }
      forall l: nat | l < MaxHeight ensures Linked(l) {
        assert levels[l] == [];
      }
    }

    predicate KeyIsAfterNode(key: Entry, n: Node?) {
      n != null && Before(n.key, key)
    }

    /** The node x's place on its level, counted from the head. */
    ghost function Place(x: Node, l: nat): (p: nat)
      requires l < |levels| && (x == head || x in levels[l])
      reads this
      ensures p <= |levels[l]| && (p == 0 ==> x == head) && (p > 0 ==> levels[l][p - 1] == x)
    {
      if x == head then 0 else var i: nat :| i < |levels[l]| && levels[l][i] == x; i + 1
    }

    /** What a search sees next is on its level, right after x. */
    lemma NextIs(x: Node, l: nat)
      requires Valid() && l < MaxHeight && (x == head || x in levels[l])
      ensures l < |x.next| && x.next[l] == NodeAt(levels[l], Place(x, l))
      ensures x.next[l] != null ==> Place(x.next[l], l) == Place(x, l) + 1
    {
      assert Linked(l);
      var p := Place(x, l);
      if p > 0 {
        assert levels[l][p - 1].next[l] == NodeAt(levels[l], p);
      }
      var n := x.next[l];
      if n != null {
        Once(levels[l], Place(n, l) - 1, p);
      }
    }

    /** Where a search on level l stops, both linear scans of that level stop. */
    lemma StopsAt(x: Node, l: nat, key: Entry)
      requires Valid() && OnPath(x, l, key)
      requires l < |x.next| && !KeyIsAfterNode(key, x.next[l])
      ensures x.next[l] == FirstFrom(levels[l], key) && x == LastBefore(head, levels[l], key)
    {
      NextIs(x, l);
      assert Linked(l);
      ScansMeet(head, levels[l], key, Place(x, l));
    }

    /** From whatever height a reader loads, and filling in `prev` when there is one. */
    method FindGreaterOrEqual(key: Entry, height: nat, prev: array?<Node>) returns (r: Node?)
      requires Valid() && 1 <= height <= MaxHeight
      requires prev != null ==> prev.Length == MaxHeight
      modifies if prev == null then {} else {prev}
      ensures r == FirstFrom(levels[0], key)
      ensures prev != null ==> forall l: nat | l < height :: prev[l] == LastBefore(head, levels[l], key)
      ensures prev != null ==> forall l: nat | height <= l < MaxHeight :: prev[l] == old(prev[l])
    {
      var x: Node, level := head, height - 1;
      while true
        invariant level < height && OnPath(x, level, key)
        invariant prev != null ==> forall l: nat | level < l < height :: prev[l] == LastBefore(head, levels[l], key)
        invariant prev != null ==> forall l: nat | height <= l < MaxHeight :: prev[l] == old(prev[l])
        decreases level, |levels[level]| - Place(x, level)
      {
        NextIs(x, level);
        var next := x.next[level];
        if KeyIsAfterNode(key, next) {
          x := next;
        } else {
          StopsAt(x, level, key);
          if prev != null {
            prev[level] := x;
          }
          if level == 0 {
            return next;
          }
          assert Within(levels, level);
          level := level - 1;
        }
      }
    }

    method FindLessThan(key: Entry, height: nat) returns (r: Node)
      requires Valid() && 1 <= height <= MaxHeight
      ensures r == LastBefore(head, levels[0], key)
    {
      var x: Node, level := head, height - 1;
      while true
        invariant level < height && OnPath(x, level, key)
        decreases level, |levels[level]| - Place(x, level)
      {
        NextIs(x, level);
        var next := x.next[level];
        if next == null || !Before(next.key, key) {
          StopsAt(x, level, key);
          if level == 0 {
            return x;
          }
          assert Within(levels, level);
          level := level - 1;
        } else {
          x := next;
        }
      }
    }

    method FindLast(height: nat) returns (r: Node)
      requires Valid() && 1 <= height <= MaxHeight
      ensures r == if levels[0] == [] then head else levels[0][|levels[0]| - 1]
    {
      var x: Node, level := head, height - 1;
      while true
        invariant level < height && (x == head || x in levels[level])
        decreases level, |levels[level]| - Place(x, level)
      {
        NextIs(x, level);
        var next := x.next[level];
        if next == null {
          if level == 0 {
            return x;
          }
          assert Within(levels, level);
          level := level - 1;
        } else {
          x := next;
        }
      }
    }

    // ---- The writer's stores, one at a time ----

    /** Storing the published height. */
    method StoreHeight(height: nat)
      requires Valid() && maxHeight < height <= MaxHeight
      modifies this`maxHeight
      ensures Valid() && maxHeight == height
    {
      label L:
      maxHeight := height;
      forall l: nat | l < MaxHeight ensures Linked(l) {
        assert old@L(Linked(l));
      }
    }

    /** Pointing the new node past its place on level l, before anyone can reach it there. */
    method PointOnward(x: Node, before: Node, l: nat)
      requires Valid() && l < MaxHeight && OnPath(before, l, x.key)
      requires x != head && x !in levels[l] && l < |x.next|
      modifies x`next
      ensures Valid() && l < |x.next| && l < |before.next| && x.next[l] == before.next[l]
      ensures |x.next| == old(|x.next|)
    {
      NextIs(before, l);
      label L:
      x.next := x.next[l := before.next[l]];
      forall k: nat | k < MaxHeight ensures Linked(k) {
        assert old@L(Linked(k));
      }
    }

    /** Pointing the node before it at the new node: from here on it is on level l. */
    method Publish(x: Node, before: Node, l: nat)
      requires Valid() && l < MaxHeight && before == LastBefore(head, levels[l], x.key)
      requires x != head && x in repr && x !in levels[l] && l < |x.next|
      requires l < |before.next| && x.next[l] == before.next[l]
      requires forall n | n in levels[l] :: Before(n.key, x.key) || Before(x.key, n.key)
      requires l > 0 ==> x in levels[l - 1]
      modifies this`levels, before`next
      ensures Valid() && Keys(levels[l]) == Inserted(old(Keys(levels[l])), x.key)
      ensures x in levels[l] && forall n | n in levels[l] :: n == x || n in old(levels[l])
      ensures |levels| == MaxHeight && forall k: nat | k < MaxHeight && k != l :: levels[k] == old(levels[k])
      ensures forall n, k, key | Standing(old(levels), head, n, k, key) :: OnPath(n, k, key)
    {
      ghost var p := PlaceToSplice(x, before, l);
      SplicedIsSorted(levels[l], p, x);
      SplicedKeys(levels[l], p, x);
      SplicedAt(levels[l], p, x);
      NestedAfter(levels, l, Spliced(levels[l], p, x), x);
      before.next := before.next[l := x];
      levels := levels[l := Spliced(levels[l], p, x)];
      LinkedAfter(Splice(x, before, l, p));
    }

    lemma PlaceToSplice(x: Node, before: Node, l: nat) returns (p: nat)
      requires Valid() && l < MaxHeight && before == LastBefore(head, levels[l], x.key)
      requires forall n | n in levels[l] :: Before(n.key, x.key) || Before(x.key, n.key)
      ensures p <= |levels[l]| && before == NodeBefore(head, levels[l], p)
      ensures p > 0 ==> Before(levels[l][p - 1].key, x.key)
      ensures p < |levels[l]| ==> Before(x.key, levels[l][p].key)
      ensures l < |before.next| && before.next[l] == NodeAt(levels[l], p)
      ensures SortedNodes(levels[l]) && before in repr && OnPath(before, l, x.key)
    {
      assert Linked(l);
      p := LastBeforeAt(head, levels[l], x.key);
      NextIs(before, l);
      if p > 0 {
        assert before in levels[l];
        Once(levels[l], p - 1, Place(before, l) - 1);
      }
    }

    /** The store that puts a node in leaves every level linked. */
    twostate lemma LinkedAfter(s: Splice)
      requires old(Valid()) && s.l < MaxHeight && s.p <= |old(levels)[s.l]| && s.l < |s.x.next|
      requires s.before == NodeBefore(head, old(levels)[s.l], s.p)
      requires s.l < |old(s.before.next)| && s.before.next == old(s.before.next)[s.l := s.x]
      requires s.x != head && s.x in repr && s.x !in old(levels)[s.l] && s.x.next[s.l] == NodeAt(old(levels)[s.l], s.p)
      requires levels == old(levels)[s.l := Spliced(old(levels)[s.l], s.p, s.x)] && SortedNodes(levels[s.l])
      requires repr == old(repr) && unchanged(old(repr) - {s.before})
      ensures forall k: nat | k < MaxHeight :: Linked(k)
    {
      LinksAfter(s);
      SplicedAt(old(levels)[s.l], s.p, s.x);
      ChainSpliced(old(levels)[s.l], s.p, s.x, s.l);
      forall k: nat | k < MaxHeight ensures Linked(k) {
        assert old(Linked(k));
      }
    }

    twostate lemma LinksAfter(s: Splice)
      requires s.l < |old(levels)| && old(Linked(s.l)) && s.p <= |old(levels)[s.l]|
      requires s.before == NodeBefore(head, old(levels)[s.l], s.p)
      requires s.l < |old(s.before.next)| && s.before.next == old(s.before.next)[s.l := s.x]
      requires unchanged(old(repr) - {s.before})
      ensures forall j: nat | j < |old(levels)[s.l]| ::
                && s.l < |old(levels)[s.l][j].next|
                && old(levels)[s.l][j].next[s.l] == if j + 1 == s.p then s.x else NodeAt(old(levels)[s.l], j + 1)
    {
      var ns := old(levels)[s.l];
      OnlyAt(ns, s.before, s.p, head);
      forall j: nat | j < |ns|
        ensures s.l < |ns[j].next| && ns[j].next[s.l] == if j + 1 == s.p then s.x else NodeAt(ns, j + 1)
      {
        assert old(ns[j].next[s.l]) == NodeAt(ns, j + 1);
      }
    }

    lemma ChainSpliced(ns: seq<Node>, p: nat, x: Node, l: nat)
      requires p <= |ns| && l < |x.next| && x.next[l] == NodeAt(ns, p)
      requires forall j: nat | j < |ns| ::
                 l < |ns[j].next| && ns[j].next[l] == if j + 1 == p then x else NodeAt(ns, j + 1)
      ensures forall i: nat | i <= |ns| ::
                l < |Spliced(ns, p, x)[i].next| && Spliced(ns, p, x)[i].next[l] == NodeAt(Spliced(ns, p, x), i + 1)
    {
      SplicedAt(ns, p, x);
    }

    /** One insert: the key goes in its place, nothing else moves. The levels come out of a
        random generator; any height from 1 to the maximum is possible. */
    method Insert(key: Entry, height: nat)
      requires Valid() && Settled() && 1 <= height <= MaxHeight
      requires forall n | n in levels[0] :: Before(n.key, key) || Before(key, n.key)
      modifies this, repr
      ensures Valid() && Settled() && fresh(repr - old(repr))
      ensures Contents() == Inserted(old(Contents()), key)
    {
      var prev := new Node[MaxHeight](_ => head);
      var r := FindGreaterOrEqual(key, maxHeight, prev);
      if height > maxHeight {
        for i := maxHeight to height
          modifies prev
          invariant forall l: nat | l < i :: prev[l] == LastBefore(head, levels[l], key)
        {
          prev[i] := head;
        }
        StoreHeight(height);
      }
      var x := new Node(key, height);
      AddNode(x);
      Distinct(key);
      LinkIn(x, prev, height);
    }

    /** The loop over the new node's levels, lowest first. */
    method LinkIn(x: Node, prev: array<Node>, height: nat)
      requires Valid() && 1 <= height <= MaxHeight && |x.next| == height
      requires x in repr && x != head && prev.Length == MaxHeight
      requires forall l: nat | l < height :: prev[l] == LastBefore(head, levels[l], x.key) && x !in levels[l]
      requires forall l: nat, n | l < MaxHeight && n in levels[l] :: Before(n.key, x.key) || Before(x.key, n.key)
      modifies this`levels, repr
      ensures Valid() && Contents() == Inserted(old(Contents()), x.key)
      ensures forall l: nat | height <= l < MaxHeight :: levels[l] == old(levels)[l]
    {
      ghost var before := levels;
      for i := 0 to height
        invariant Valid() && |x.next| == height
        invariant i > 0 ==> x in levels[i - 1] && Keys(levels[0]) == Inserted(Keys(before[0]), x.key)
        invariant forall l: nat | i <= l < MaxHeight :: levels[l] == before[l]
      {
        ghost var p := PlaceToSplice(x, prev[i], i);
        PointOnward(x, prev[i], i);
        Publish(x, prev[i], i);
      }
    }

    /** A node nobody points at yet. */
    ghost method AddNode(x: Node)
      requires Valid()
      modifies this`repr
      ensures Valid() && repr == old(repr) + {x}
    {
      label L:
      repr := repr + {x};
      forall l: nat | l < MaxHeight ensures Linked(l) {
        assert old@L(Linked(l));
      }
    }

    lemma {:induction false} InBottom(l: nat)
      requires Nested(levels) && l < |levels|
      ensures forall n | n in levels[l] :: n in levels[0]
    {
      if l > 0 {
        assert Within(levels, l);
        InBottom(l - 1);
      }
    }

    lemma Distinct(key: Entry)
      requires Valid() && forall n | n in levels[0] :: Before(n.key, key) || Before(key, n.key)
      ensures forall l: nat, n | l < MaxHeight && n in levels[l] :: Before(n.key, key) || Before(key, n.key)
    {
      forall l: nat, n | l < MaxHeight && n in levels[l] ensures Before(n.key, key) || Before(key, n.key) {
        InBottom(l);
      }
    }

    method Contains(key: Entry) returns (r: bool)
      requires Valid()
      ensures r <==> exists e :: e in Contents() && !Before(e, key) && !Before(key, e)
    {
      assert Linked(0);
      var x := FindGreaterOrEqual(key, maxHeight, null);
      ghost var p := LastBeforeAt(head, levels[0], key);
      ScansMeet(head, levels[0], key, p);
      r := x != null && !Before(key, x.key) && !Before(x.key, key);
      FoundAt(levels[0], key, p);
    }
  }

  // ---- Walking the list ----

  class Iterator {
    const list: SkipList
    var node: Node?

    ghost predicate Valid()
      reads this, list, list.head, list.repr
    {
      list.Valid() && (node != null ==> node in list.levels[0])
    }

    /** At position i of the list, or nowhere when there is no such position. */
    ghost predicate At(i: int)
      requires |list.levels| == MaxHeight
      reads this, list
    {
      node == if 0 <= i < |list.levels[0]| then list.levels[0][i] else null
    }

    constructor (list: SkipList)
      requires list.Valid()
      ensures Valid() && this.list == list && At(-1)
    {
      this.list, node := list, null;
    }

    method Next(ghost i: int)
      requires Valid() && At(i) && node != null
      modifies this
      ensures Valid() && At(i + 1)
    {
      list.NextIs(node, 0);
      assert list.Linked(0);
      Once(list.levels[0], i, list.Place(node, 0) - 1);
      node := node.next[0];
    }

    method Prev(ghost i: int)
      requires Valid() && At(i) && node != null
      modifies this
      ensures Valid() && At(i - 1)
    {
      assert list.Linked(0);
      assert i > 0 ==> Before(list.levels[0][i - 1].key, list.levels[0][i].key);
      ScansMeet(list.head, list.levels[0], node.key, i);
      node := list.FindLessThan(node.key, list.maxHeight);
      if node == list.head {
        node := null;
      }
    }

    method Seek(target: Entry) returns (ghost i: nat)
      requires Valid()
      modifies this
      ensures Valid() && At(i) && i <= |list.levels[0]|
      ensures forall j: nat | j < i :: Before(list.levels[0][j].key, target)
      ensures forall j: nat | i <= j < |list.levels[0]| :: !Before(list.levels[0][j].key, target)
    {
      assert list.Linked(0);
      ghost var ns := list.levels[0];
      i := LastBeforeAt(list.head, ns, target);
      ScansMeet(list.head, ns, target, i);
      ScanSplits(ns, target, i);
      node := list.FindGreaterOrEqual(target, list.maxHeight, null);
    }

    method SeekToFirst()
      requires Valid()
      modifies this
      ensures Valid() && At(0)
    {
      assert list.Linked(0);
      node := list.head.next[0];
    }

    method SeekToLast()
      requires Valid()
      modifies this
      ensures Valid() && At(|list.levels[0]| - 1)
    {
      assert list.Linked(0);
      node := list.FindLast(list.maxHeight);
      if node == list.head {
        node := null;
      }
    }
  }
}
