/** The snapshots in use: a circular doubly linked list with a dummy head, oldest first. */
module Snapshots {

  class SnapshotImpl {
    const number: nat
    var prev: SnapshotImpl?
    var next: SnapshotImpl?

    constructor (number: nat)
      ensures this.number == number
    {
      this.number, prev, next := number, null, null;
    }
  }

  ghost function Numbers(ns: seq<SnapshotImpl>): seq<nat> {
    seq(|ns|, i requires 0 <= i < |ns| => ns[i].number)
  }

  ghost predicate Ascending(numbers: seq<nat>) {
    forall i, j | 0 <= i < j < |numbers| :: numbers[i] <= numbers[j]
  }

  ghost function Without<T>(s: seq<T>, i: nat): seq<T>
    requires i < |s|
  {
    s[..i] + s[i + 1..]
  }

  /** The oldest snapshot bounds all of them: no reader can look further back. */
  lemma OldestIsLeast(numbers: seq<nat>)
    requires Ascending(numbers) && |numbers| > 0
    ensures forall s | s in numbers :: numbers[0] <= s
  {
  }

  /** Releasing a snapshot keeps the order, and the oldest one can only get newer. */
  lemma DeletionKeepsOrder(numbers: seq<nat>, i: nat)
    requires Ascending(numbers) && i < |numbers|
    ensures Ascending(Without(numbers, i))
    ensures |numbers| > 1 ==> Without(numbers, i)[0] >= numbers[0]
  {
    var w := Without(numbers, i);
    assert forall j | 0 <= j < |w| :: w[j] == numbers[if j < i then j else j + 1];
  }

  /** A snapshot is taken at the last sequence number, which never falls. */
  lemma NewKeepsOrder(numbers: seq<nat>, number: nat)
    requires Ascending(numbers) && forall s | s in numbers :: s <= number
    ensures Ascending(numbers + [number])
  {
    assert forall i | 0 <= i < |numbers| :: numbers[i] in numbers;
  }

  /** The nodes' numbers ascend: the list is oldest first. */
  ghost predicate InOrder(ns: seq<SnapshotImpl>) { Ascending(Numbers(ns)) }

  lemma NewInOrder(ns: seq<SnapshotImpl>, s: SnapshotImpl)
    ensures InOrder(ns) && (|ns| > 0 ==> ns[|ns| - 1].number <= s.number) ==> InOrder(ns + [s])
  {
    assert Numbers(ns + [s]) == Numbers(ns) + [s.number];
    if InOrder(ns) && (|ns| > 0 ==> ns[|ns| - 1].number <= s.number) {
      forall k | 0 <= k < |ns| ensures Numbers(ns)[k] <= s.number {
        assert k == |ns| - 1 || Numbers(ns)[k] <= Numbers(ns)[|ns| - 1];
      }
      NewKeepsOrder(Numbers(ns), s.number);
    }
  }

  lemma DeletedInOrder(ns: seq<SnapshotImpl>, i: nat)
    requires i < |ns|
    ensures Numbers(Without(ns, i)) == Without(Numbers(ns), i)
    ensures InOrder(ns) ==> InOrder(Without(ns, i))
  {
    if InOrder(ns) {
      DeletionKeepsOrder(Numbers(ns), i);
    }
  }

  ghost predicate Distinct(ns: seq<SnapshotImpl>) {
    forall i, j | 0 <= i < j < |ns| :: ns[i] != ns[j]
  }

  /** A node and its neighbours stand nowhere else, and without it the others stay distinct. */
  lemma StillDistinct(ns: seq<SnapshotImpl>, i: nat)
    requires Distinct(ns) && i < |ns|
    ensures Distinct(Without(ns, i))
    ensures forall k {:trigger ns[k]} | 0 <= k < |ns| ::
              (ns[k] == ns[i] <==> k == i)
              && (i > 0 ==> (ns[k] == ns[i - 1] <==> k == i - 1))
                 && (i + 1 < |ns| ==> (ns[k] == ns[i + 1] <==> k == i + 1))
  {
    WithoutAt(ns, i);
  }

  /** The node at position i, where the dummy stands before the first and after the last. */
  ghost function At(ns: seq<SnapshotImpl>, dummy: SnapshotImpl, i: int): SnapshotImpl {
    if 0 <= i < |ns| then ns[i] else dummy
  }

  /** The nodes form a circle with the dummy. */
  ghost predicate Linked(ns: seq<SnapshotImpl>, dummy: SnapshotImpl)
    reads ns, dummy
  {
    && dummy.next == At(ns, dummy, 0) && dummy.prev == At(ns, dummy, |ns| - 1)
    && (forall i {:trigger ns[i].next} | 0 <= i < |ns| :: ns[i].next == At(ns, dummy, i + 1))
    && (forall i {:trigger ns[i].prev} | 0 <= i < |ns| :: ns[i].prev == At(ns, dummy, i - 1))
  }

  /** The circle passes the i-th node by. */
  ghost predicate Bridged(ns: seq<SnapshotImpl>, i: nat, dummy: SnapshotImpl)
    reads ns, dummy
  {
    && dummy.next == At(ns, dummy, if i == 0 then 1 else 0)
    && dummy.prev == At(ns, dummy, if i == |ns| - 1 then i - 1 else |ns| - 1)
    && (forall k {:trigger ns[k].next} | 0 <= k < |ns| && k != i ::
         ns[k].next == At(ns, dummy, if k + 1 == i then k + 2 else k + 1))
    && (forall k {:trigger ns[k].prev} | 0 <= k < |ns| && k != i ::
         ns[k].prev == At(ns, dummy, if k - 1 == i then k - 2 else k - 1))
  }

  /** The neighbours of a node, and which nodes are which. */
  lemma Around(ns: seq<SnapshotImpl>, i: nat, dummy: SnapshotImpl)
    requires Linked(ns, dummy) && Distinct(ns) && dummy !in ns && i < |ns|
    ensures ns[i].next == At(ns, dummy, i + 1) && ns[i].prev == At(ns, dummy, i - 1)
    ensures dummy.next == At(ns, dummy, 0) && dummy.prev == At(ns, dummy, |ns| - 1)
    ensures forall k {:trigger ns[k].next} | 0 <= k < |ns| :: ns[k].next == At(ns, dummy, k + 1)
    ensures forall k {:trigger ns[k].prev} | 0 <= k < |ns| :: ns[k].prev == At(ns, dummy, k - 1)
    ensures forall k {:trigger ns[k]} | 0 <= k < |ns| ::
              (ns[k] == At(ns, dummy, i - 1) <==> k == i - 1) && (ns[k] == At(ns, dummy, i + 1) <==> k == i + 1)
    ensures dummy !in Without(ns, i) && Distinct(Without(ns, i))
  {
    StillDistinct(ns, i);
  }

  /** The circle goes through one more node at its end. */
  ghost predicate Lengthened(ns: seq<SnapshotImpl>, s: SnapshotImpl, dummy: SnapshotImpl)
    reads ns, s, dummy
  {
    && s.next == dummy && s.prev == At(ns, dummy, |ns| - 1) && dummy.prev == s
       && dummy.next == (if |ns| == 0 then s else ns[0])
    && (forall k {:trigger ns[k].next} | 0 <= k < |ns| :: ns[k].next == (if k + 1 == |ns| then s else ns[k + 1]))
    && (forall k {:trigger ns[k].prev} | 0 <= k < |ns| :: ns[k].prev == At(ns, dummy, k - 1))
  }

  lemma LengthenedIsLinked(ns: seq<SnapshotImpl>, s: SnapshotImpl, dummy: SnapshotImpl)
    requires Lengthened(ns, s, dummy) && Distinct(ns) && s !in ns && s != dummy && dummy !in ns
    ensures Linked(ns + [s], dummy) && Distinct(ns + [s]) && dummy !in ns + [s]
  {
    var more := ns + [s];
    assert forall k {:trigger more[k]} | 0 <= k < |ns| :: more[k] == ns[k];
  }

  lemma BridgedIsLinked(ns: seq<SnapshotImpl>, i: nat, dummy: SnapshotImpl)
    requires i < |ns| && Bridged(ns, i, dummy)
    ensures Linked(Without(ns, i), dummy)
  {
    hide Without;
    WithoutAt(ns, i);
  }

  class SnapshotList {
    const dummy: SnapshotImpl
    ghost var nodes: seq<SnapshotImpl>

    ghost predicate Valid()
      reads this, dummy, nodes
    {
      dummy !in nodes && Distinct(nodes) && Linked(nodes, dummy)
    }

    constructor ()
      ensures Valid() && nodes == [] && fresh(dummy)
    {
      dummy := new SnapshotImpl(0);
      nodes := [];
      new;
      dummy.prev := dummy;
      dummy.next := dummy;
    }

    method Empty() returns (r: bool)
      requires Valid()
      ensures r <==> nodes == []
    {
      r := dummy.next == dummy;
    }

    method Oldest() returns (r: SnapshotImpl)
      requires Valid() && nodes != []
      ensures r == nodes[0]
    {
      r := dummy.next;
    }

    method Newest() returns (r: SnapshotImpl)
      requires Valid() && nodes != []
      ensures r == nodes[|nodes| - 1]
    {
      r := dummy.prev;
    }

    /** The new snapshot is the newest. */
    method New(number: nat) returns (s: SnapshotImpl)
      requires Valid()
      modifies this, dummy, nodes
      ensures Valid() && fresh(s) && s.number == number && nodes == old(nodes) + [s]
      ensures InOrder(old(nodes)) && (old(nodes) != [] ==> old(nodes)[|old(nodes)| - 1].number <= number) ==>
                InOrder(nodes)
    {
      hide InOrder;
      if nodes != [] {
        Around(nodes, |nodes| - 1, dummy);
      }
      s := new SnapshotImpl(number);
      s.next := dummy;
      s.prev := dummy.prev;
      s.prev.next := s;
      s.next.prev := s;
      NewInOrder(nodes, s);
      assert Lengthened(nodes, s, dummy);
      LengthenedIsLinked(nodes, s, dummy);
      nodes := nodes + [s];
    }

    method Delete(s: SnapshotImpl, ghost i: nat)
      requires Valid() && i < |nodes| && nodes[i] == s
      modifies this, dummy, nodes
      ensures Valid() && nodes == Without(old(nodes), i)
      ensures Numbers(nodes) == Without(Numbers(old(nodes)), i) && (InOrder(old(nodes)) ==> InOrder(nodes))
    {
      hide Without, InOrder, Numbers, Linked;
      DeletedInOrder(nodes, i);
      Around(nodes, i, dummy);
      s.prev.next := s.next;
      s.next.prev := s.prev;
      assert Bridged(nodes, i, dummy);
      BridgedIsLinked(nodes, i, dummy);
      nodes := Without(nodes, i);
    }
  }

  lemma WithoutAt<T>(s: seq<T>, i: nat)
    requires i < |s|
    ensures |Without(s, i)| == |s| - 1
    ensures forall j | 0 <= j < |s| - 1 :: Without(s, i)[j] == s[if j < i then j else j + 1]
  {
  }

  /** Which entries a compaction must keep apart: the oldest snapshot, or the last sequence
      number when there is none. */
  method SmallestSnapshot(list: SnapshotList, lastSequence: nat) returns (r: nat)
    requires list.Valid()
    ensures r == if list.nodes == [] then lastSequence else list.nodes[0].number
    ensures InOrder(list.nodes) && (forall s | s in Numbers(list.nodes) :: s <= lastSequence) ==>
              r <= lastSequence && forall s | s in Numbers(list.nodes) :: r <= s
  {
    if list.nodes != [] && InOrder(list.nodes) {
      OldestIsLeast(Numbers(list.nodes));
      assert Numbers(list.nodes)[0] == list.nodes[0].number && Numbers(list.nodes)[0] in Numbers(list.nodes);
    }
    var none := list.Empty();
    if none {
      r := lastSequence;
    } else {
      var s := list.Oldest();
      r := s.number;
    }
  }
}
