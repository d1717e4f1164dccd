/** Searches of the skip list by readers that take no lock while the one writer inserts. */
module SkipReaders {
  import opened Entries
  import opened SkipList

  /** A search under way: where it stands, or what it found. */
  class Search {
    const list: SkipList
    const key: Entry
    var x: Node
    var level: nat
    var done: bool
    var result: Node?

    ghost predicate Valid()
      reads this, list, list.head, list.repr
    {
      list.Valid() && level < MaxHeight && (done || list.OnPath(x, level, key))
    }

    /** A search begins at the head, on the height it happens to load. */
    constructor (list: SkipList, key: Entry, height: nat)
      requires list.Valid() && 1 <= height <= MaxHeight
      ensures Valid() && this.list == list && this.key == key && !done
    {
      this.list, this.key := list, key;
      x, level, done, result := list.head, height - 1, false, null;
    }

    /** One look at a next pointer, and one move. */
    method Step()
      requires Valid() && !done
      modifies this
      ensures Valid() && (done ==> result == FirstFrom(list.levels[0], key))
      ensures !done ==> level <= old(level)
      ensures !done && level == old(level) ==> list.Place(x, level) > old(list.Place(x, level))
    {
      list.NextIs(x, level);
      var next := x.next[level];
      if list.KeyIsAfterNode(key, next) {
        x := next;
      } else {
        list.StopsAt(x, level, key);
        if level == 0 {
          done, result := true, next;
        } else {
          assert Within(list.levels, level);
          level := level - 1;
        }
      }
    }

    /** Some steps, while the list does not change. */
    method Run(steps: nat)
      requires Valid()
      modifies this
      ensures Valid() && (old(done) ==> done && result == old(result))
      ensures done && !old(done) ==> result == FirstFrom(list.levels[0], key)
    {
      for i := 0 to steps
        invariant Valid() && (old(done) ==> done && result == old(result))
        invariant done && !old(done) ==> result == FirstFrom(list.levels[0], key)
      {
        if !done {
          Step();
        }
      }
    }

    method Finish()
      requires Valid()
      modifies this
      ensures Valid() && done && (old(done) ==> result == old(result))
      ensures !old(done) ==> result == FirstFrom(list.levels[0], key)
    {
      while !done
        invariant Valid() && (old(done) ==> done && result == old(result))
        invariant done && !old(done) ==> result == FirstFrom(list.levels[0], key)
        decreases !done, level, if done then 0 else |list.levels[level]| - list.Place(x, level)
      {
        Step();
      }
    }
  }

  /** This is what the search finds in one of these. */
  ghost predicate FoundIn(r: Node?, key: Entry, moments: seq<seq<Node>>) {
    exists k: nat :: k < |moments| && r == FirstFrom(moments[k], key)
  }

  lemma FoundInMore(r: Node?, key: Entry, moments: seq<seq<Node>>, ns: seq<Node>)
    requires FoundIn(r, key, moments) || (|moments| > 0 && r == FirstFrom(moments[|moments| - 1], key))
             || r == FirstFrom(ns, key)
    ensures FoundIn(r, key, moments + [ns])
  {
    var more := moments + [ns];
    if k: nat :| k < |moments| && r == FirstFrom(moments[k], key) {
      assert more[k] == moments[k];
    } else {
      assert more[|moments|] == ns;
    }
  }

  /** One insert whose stores a search falls between, any number of its steps at a time. */
  method InsertDuring(list: SkipList, key: Entry, height: nat, s: Search, turns: nat -> nat)
    requires s.list == list && s.Valid() && list.Settled() && 1 <= height <= MaxHeight
    requires forall n | n in list.levels[0] :: Before(n.key, key) || Before(key, n.key)
    modifies list, list.repr, s
    ensures s.Valid() && list.Settled() && fresh(list.repr - old(list.repr))
    ensures list.Contents() == Inserted(old(list.Contents()), key)
    ensures old(s.done) ==> s.done && s.result == old(s.result)
    ensures s.done && !old(s.done) ==>
              s.result == FirstFrom(old(list.levels[0]), s.key) || s.result == FirstFrom(list.levels[0], s.key)
  {
    hide Before;
    var prev := FindPlaces(list, key, height, s, turns);
    var x := new Node(key, height);
    list.AddNode(x);
    list.Distinct(key);
    LinkInDuring(list, x, prev, height, s, turns);
  }

  /** The writer looks for the places to put a key in, and stores the height. */
  method FindPlaces(list: SkipList, key: Entry, height: nat, s: Search, turns: nat -> nat) returns (prev: array<Node>)
    requires s.list == list && s.Valid() && 1 <= height <= MaxHeight && list.Settled()
    modifies list`maxHeight, s
    ensures fresh(prev) && prev.Length == MaxHeight && s.Valid() && list.maxHeight >= height
    ensures list.maxHeight == old(list.maxHeight) || list.maxHeight == height
    ensures list.Settled() && forall l: nat | l < height :: prev[l] == LastBefore(list.head, list.levels[l], key)
    ensures old(s.done) ==> s.done && s.result == old(s.result)
    ensures s.done && !old(s.done) ==> s.result == FirstFrom(list.levels[0], s.key)
  {
    prev := new Node[MaxHeight](_ => list.head);
    var r := list.FindGreaterOrEqual(key, list.maxHeight, prev);
    s.Run(turns(0));
    if height > list.maxHeight {
      for i := list.maxHeight to height
        modifies prev
        invariant forall l: nat | l < i :: prev[l] == LastBefore(list.head, list.levels[l], key)
      {
        prev[i] := list.head;
      }
      list.StoreHeight(height);
      s.Run(turns(1));
    }
  }

  method LinkInDuring(list: SkipList, x: Node, prev: array<Node>, height: nat, s: Search, turns: nat -> nat)
    requires s.list == list && s.Valid() && 1 <= height <= MaxHeight && |x.next| == height
    requires x in list.repr && x != list.head && prev.Length == MaxHeight
    requires forall l: nat | l < height ::
               prev[l] == LastBefore(list.head, list.levels[l], x.key) && x !in list.levels[l]
    requires forall l: nat, n | l < MaxHeight && n in list.levels[l] :: Before(n.key, x.key) || Before(x.key, n.key)
    modifies list`levels, list.repr, s
    ensures s.Valid() && list.Contents() == Inserted(old(list.Contents()), x.key)
    ensures forall l: nat | height <= l < MaxHeight :: list.levels[l] == old(list.levels)[l]
    ensures old(s.done) ==> s.done && s.result == old(s.result)
    ensures s.done && !old(s.done) ==>
              s.result == FirstFrom(old(list.levels[0]), s.key) || s.result == FirstFrom(list.levels[0], s.key)
  {
    ghost var before := list.levels;
    for i := 0 to height
      invariant s.Valid() && |x.next| == height
      invariant i == 0 ==> list.levels[0] == before[0]
      invariant i > 0 ==> x in list.levels[i - 1] && Keys(list.levels[0]) == Inserted(Keys(before[0]), x.key)
      invariant forall l: nat | i <= l < MaxHeight :: list.levels[l] == before[l]
      invariant old(s.done) ==> s.done && s.result == old(s.result)
      invariant s.done && !old(s.done) ==>
                  s.result == FirstFrom(before[0], s.key) || s.result == FirstFrom(list.levels[0], s.key)
    {
      ghost var p := list.PlaceToSplice(x, prev[i], i);
      list.PointOnward(x, prev[i], i);
      s.Run(turns(2 * i + 2));
      list.Publish(x, prev[i], i);
      s.Run(turns(2 * i + 3));
    }
  }

  /** The list's bottom level before, between and after inserts of these keys. */
  ghost predicate Moments(moments: seq<seq<Node>>, inserts: seq<(Entry, nat)>) {
    && |moments| == |inserts| + 1 && (forall k: nat | k <= |inserts| :: SortedNodes(moments[k]))
    && forall k: nat | k < |inserts| :: Keys(moments[k + 1]) == Inserted(Keys(moments[k]), inserts[k].0)
  }

  ghost predicate Apart(a: Entry, b: Entry) { Before(a, b) || Before(b, a) }

  /** The keys still to come differ from each other and from those there. */
  ghost predicate NewKeys(ns: seq<Node>, inserts: seq<(Entry, nat)>) {
    && (forall n, k: nat | n in ns && k < |inserts| :: Apart(n.key, inserts[k].0))
    && (forall j: nat, k: nat | j < k < |inserts| :: Apart(inserts[j].0, inserts[k].0))
  }

  lemma {:induction false} InsertedHas(es: seq<Entry>, key: Entry, e: Entry)
    requires e in Inserted(es, key)
    ensures e == key || e in es
  {
    if |es| > 0 && Before(es[0], key) && e != es[0] {
      InsertedHas(es[1..], key, e);
    }
  }

  lemma StillNew(ns: seq<Node>, inserts: seq<(Entry, nat)>, ns': seq<Node>)
    requires |inserts| > 0 && NewKeys(ns, inserts) && Keys(ns') == Inserted(Keys(ns), inserts[0].0)
    ensures NewKeys(ns', inserts[1..])
  {
    forall n, k: nat | n in ns' && k < |inserts| - 1 ensures Apart(n.key, inserts[1..][k].0) {
      var i :| 0 <= i < |ns'| && ns'[i] == n;
      assert Keys(ns')[i] == n.key;
      InsertedHas(Keys(ns), inserts[0].0, n.key);
      if n.key in Keys(ns) {
        var j :| 0 <= j < |ns| && Keys(ns)[j] == n.key;
        assert ns[j] in ns && ns[j].key == n.key;
      }
    }
  }

  /** A search that runs while any number of keys are inserted finds the first key not before its own
      of the list as it was at one moment between beginning and end. */
  method SearchWhileInserting(list: SkipList, key: Entry, start: nat, inserts: seq<(Entry, nat)>,
                              turns: (nat, nat) -> nat)
    returns (r: Node?, ghost moments: seq<seq<Node>>)
    requires list.Valid() && list.Settled() && 1 <= start <= MaxHeight && NewKeys(list.levels[0], inserts)
    requires forall k: nat | k < |inserts| :: 1 <= inserts[k].1 <= MaxHeight
    modifies list, list.repr
    ensures list.Valid() && list.Settled() && Moments(moments, inserts)
    ensures moments[0] == old(list.levels[0]) && moments[|inserts|] == list.levels[0]
    ensures FoundIn(r, key, moments)
  {
    hide Moments, NewKeys, FoundIn, FirstFrom, Inserted;
    var s := new Search(list, key, start);
    moments := [list.levels[0]];
    InOrder(list);
    OneMoment(list.levels[0], inserts);
    for i := 0 to |inserts|
      invariant fresh(s) && s.list == list && s.key == key && s.Valid() && list.Settled()
      invariant fresh(list.repr - old(list.repr))
      invariant |moments| == i + 1 && Moments(moments, inserts[..i]) && moments[0] == old(list.levels[0])
      invariant moments[i] == list.levels[0]
      invariant NewKeys(list.levels[0], inserts[i..]) && (s.done ==> FoundIn(s.result, key, moments))
    {
      ghost var was := list.levels[0];
      ApartNow(was, inserts[i..]);
      InsertDuring(list, inserts[i].0, inserts[i].1, s, (k: nat) => turns(i, k));
      StillNew(was, inserts[i..], list.levels[0]);
      assert inserts[i..][1..] == inserts[i + 1..];
      InOrder(list);
      OneMomentMore(moments, inserts, i, list.levels[0]);
      if s.done {
        FoundInMore(s.result, key, moments, list.levels[0]);
      }
      moments := moments + [list.levels[0]];
    }
    assert inserts[..|inserts|] == inserts;
    s.Finish();
    r := s.result;
    LastMoment(r, key, moments);
  }

  lemma InOrder(list: SkipList)
    requires list.Valid()
    ensures SortedNodes(list.levels[0])
  {
    assert list.Linked(0);
  }

  lemma OneMoment(ns: seq<Node>, inserts: seq<(Entry, nat)>)
    requires SortedNodes(ns)
    ensures Moments([ns], inserts[..0]) && inserts[0..] == inserts
  {
  }

  lemma OneMomentMore(moments: seq<seq<Node>>, inserts: seq<(Entry, nat)>, i: nat, ns: seq<Node>)
    requires i < |inserts| && |moments| == i + 1 && Moments(moments, inserts[..i]) && SortedNodes(ns)
    requires Keys(ns) == Inserted(Keys(moments[i]), inserts[i].0)
    ensures Moments(moments + [ns], inserts[..i + 1])
  {
    hide Inserted, SortedNodes;
    var more := moments + [ns];
    forall k: nat | k <= i ensures Keys(more[k + 1]) == Inserted(Keys(more[k]), inserts[k].0) {
      assert k < i ==> inserts[..i][k] == inserts[k]
                       && Keys(moments[k + 1]) == Inserted(Keys(moments[k]), inserts[..i][k].0);
    }
  }

  lemma LastMoment(r: Node?, key: Entry, moments: seq<seq<Node>>)
    requires |moments| > 0 && (FoundIn(r, key, moments) || r == FirstFrom(moments[|moments| - 1], key))
    ensures FoundIn(r, key, moments)
  {
  }

  lemma ApartNow(ns: seq<Node>, inserts: seq<(Entry, nat)>)
    requires |inserts| > 0 && NewKeys(ns, inserts)
    ensures forall n | n in ns :: Before(n.key, inserts[0].0) || Before(inserts[0].0, n.key)
  {
    assert forall n | n in ns :: Apart(n.key, inserts[0].0);
  }

  lemma {:induction false} InsertedKeeps(es: seq<Entry>, key: Entry, e: Entry)
    requires e in es
    ensures e in Inserted(es, key)
  {
    if Before(es[0], key) && e != es[0] {
      InsertedKeeps(es[1..], key, e);
    }
  }

  lemma {:induction false} StaysThere(moments: seq<seq<Node>>, inserts: seq<(Entry, nat)>, key: Entry, k: nat)
    requires Moments(moments, inserts) && key in Keys(moments[0]) && k <= |inserts|
    ensures key in Keys(moments[k])
  {
    if k > 0 {
      StaysThere(moments, inserts, key, k - 1);
      InsertedKeeps(Keys(moments[k - 1]), inserts[k - 1].0, key);
    }
  }

  lemma {:induction false} FirstFromIs(ns: seq<Node>, key: Entry, i: nat)
    requires SortedNodes(ns) && i < |ns| && ns[i].key == key
    ensures FirstFrom(ns, key) == ns[i]
  {
    if i > 0 {
      assert Before(ns[0].key, ns[i].key) && ns[1..][i - 1] == ns[i];
      FirstFromIs(ns[1..], key, i - 1);
    }
  }

  /** A key that is there when a search for it begins is found, whatever is inserted meanwhile. */
  lemma PresentIsFound(r: Node?, key: Entry, moments: seq<seq<Node>>, inserts: seq<(Entry, nat)>)
    requires Moments(moments, inserts) && FoundIn(r, key, moments) && key in Keys(moments[0])
    ensures r != null && r.key == key
  {
    var k: nat :| k < |moments| && r == FirstFrom(moments[k], key);
    StaysThere(moments, inserts, key, k);
    var i :| 0 <= i < |moments[k]| && Keys(moments[k])[i] == key;
    FirstFromIs(moments[k], key, i);
  }
}
