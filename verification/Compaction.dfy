/** The merge loop of a compaction: which entries it drops, how it cuts its output files, and
    why no reader can tell. */
module Compaction {
  import opened Wrappers
  import opened Entries

  // ---- Which entries are dropped ----

  /** Rule (A): the entry just before this one is for the same user key and already answers
      every snapshot that matters. A key that does not parse hides nothing and is not hidden. */
  ghost predicate Hidden(input: seq<Entry>, i: nat, smallest: nat)
    requires i < |input|
  {
    && i > 0
    && input[i].Parses() && input[i - 1].Parses()
    && input[i - 1].user == input[i].user
    && input[i - 1].sequence <= smallest
  }

  /** A deletion marker with nothing underneath it. */
  ghost predicate Obsolete(input: seq<Entry>, i: nat, smallest: nat, base: UserKey -> bool)
    requires i < |input|
  {
    input[i].tag == DeletionTag && input[i].sequence <= smallest && base(input[i].user)
  }

  ghost predicate Dropped(input: seq<Entry>, i: nat, smallest: nat, base: UserKey -> bool)
    requires i < |input|
  {
    Hidden(input, i, smallest) || Obsolete(input, i, smallest, base)
  }

  /** The entries among the first `n` that survive, in order. */
  ghost function Kept(input: seq<Entry>, n: nat, smallest: nat, base: UserKey -> bool): seq<Entry>
    requires n <= |input|
  {
    if n == 0 then []
    else Kept(input, n - 1, smallest, base)
         + (if Dropped(input, n - 1, smallest, base) then [] else [input[n - 1]])
  }

  ghost function Contents(es: seq<Entry>): set<Entry> { set e | e in es }

  lemma {:induction false} KeptMembers(input: seq<Entry>, n: nat, smallest: nat, base: UserKey -> bool, e: Entry)
    requires n <= |input|
    ensures e in Kept(input, n, smallest, base)
            <==> exists i :: 0 <= i < n && input[i] == e && !Dropped(input, i, smallest, base)
  {
    if n > 0 {
      KeptMembers(input, n - 1, smallest, base, e);
      var last := if Dropped(input, n - 1, smallest, base) then [] else [input[n - 1]];
      assert e in Kept(input, n, smallest, base)
             <==> e in Kept(input, n - 1, smallest, base) || e in last;
    }
  }

  // ---- Reads survive ----

  /** What is there after the merge: the kept entries and everything the merge did not touch. */
  ghost function Survivors(input: seq<Entry>, outside: set<Entry>, smallest: nat, base: UserKey -> bool): set<Entry> {
    Contents(Kept(input, |input|, smallest, base)) + outside
  }

  /** An input that rule (A) spares because the key just before it does not parse. */
  ghost predicate BehindCorrupt(input: seq<Entry>, f: Entry) {
    exists q: nat :: 0 < q < |input| && input[q] == f && !input[q - 1].Parses()
  }

  /** The one way the merge can bring a deleted value back, told by its inputs alone. The marker at `p`
      lies over a base level and is what its key shows to the oldest snapshot; an older value of the key
      is outside or behind a key that does not parse; and no marker outside lies between the two. */
  ghost predicate BringsBack(input: seq<Entry>, outside: set<Entry>, p: nat, f: Entry, smallest: nat,
                             base: UserKey -> bool)
    requires p < |input|
  {
    var m := input[p];
    && Obsolete(input, p, smallest, base) && m !in outside
    && (forall e | e in Contents(input) + outside && e.user == m.user && e.Parses() ::
          e.sequence <= m.sequence || e.sequence > smallest)
    && f.user == m.user && f.tag == ValueTag && f.sequence < m.sequence
    && (f in outside || BehindCorrupt(input, f))
    && forall g | g in outside && g.user == m.user && g.tag == DeletionTag ::
         !(f.sequence < g.sequence < m.sequence)
  }

  ghost predicate Harmless(input: seq<Entry>, outside: set<Entry>, smallest: nat, base: UserKey -> bool) {
    forall p: nat, f | p < |input| :: !BringsBack(input, outside, p, f, smallest, base)
  }

  /** The same seen from the result: the marker is gone, and the newest older survivor is the value. */
  ghost predicate Uncovers(input: seq<Entry>, outside: set<Entry>, p: nat, f: Entry, smallest: nat,
                           base: UserKey -> bool)
    requires p < |input|
  {
    var m := input[p];
    && m.tag == DeletionTag && m.sequence <= smallest && Dropped(input, p, smallest, base) && m !in outside
    && (forall e | e in Contents(input) + outside && e.user == m.user && e.Parses() ::
          e.sequence <= m.sequence || e.sequence > smallest)
    && f in Survivors(input, outside, smallest, base) && f.user == m.user && f.tag == ValueTag
       && f.sequence < m.sequence
    && (forall g | g in Survivors(input, outside, smallest, base) && g.user == m.user && g.Parses()
        && g.sequence < m.sequence ::
          g.sequence <= f.sequence)
  }

  /** Entries of one user key are contiguous, newest first. */
  lemma SameKeyOrder(input: seq<Entry>, i: nat, j: nat)
    requires Sorted(input) && i < j < |input| && input[i].user == input[j].user
    ensures forall k | i <= k <= j :: input[k].user == input[i].user
    ensures input[i].sequence >= input[j].sequence
  {
    assert Before(input[i], input[j]);
    forall k | i <= k <= j
      ensures input[k].user == input[i].user
    {
      assert k == i || Before(input[i], input[k]);
      assert k == j || Before(input[k], input[j]);
    }
  }

  lemma DistinctPositions(input: seq<Entry>)
    requires Sorted(input)
    ensures forall i, j | 0 <= i < j < |input| :: input[i] != input[j]
  {
    forall i, j | 0 <= i < j < |input| ensures input[i] != input[j] {
      assert Before(input[i], input[j]);
    }
  }

  /** The newest visible input entry is never hidden by rule (A). */
  lemma NewestIsNotHidden(input: seq<Entry>, es: set<Entry>, key: UserKey, s: nat, smallest: nat, i: nat)
    requires Sorted(input) && i < |input| && s >= smallest
    requires Contents(input) <= es && UniqueSeqs(es) && Newest(es, key, s, input[i])
    ensures !Hidden(input, i, smallest)
  {
    if i > 0 {
      assert Before(input[i - 1], input[i]);
      assert input[i - 1] in Contents(input);
    }
  }

  lemma KeptIsPart(input: seq<Entry>, smallest: nat, base: UserKey -> bool)
    ensures Contents(Kept(input, |input|, smallest, base)) <= Contents(input)
  {
    forall e | e in Kept(input, |input|, smallest, base) ensures e in input {
      KeptMembers(input, |input|, smallest, base, e);
    }
  }

  /** A dropped entry is not among the survivors: the inputs hold each entry once, and nothing else
      has its sequence number. */
  lemma DroppedIsGone(input: seq<Entry>, outside: set<Entry>, p: nat, smallest: nat, base: UserKey -> bool, g: Entry)
    requires Sorted(input) && UniqueSeqs(Contents(input) + outside) && p < |input| && Dropped(input, p, smallest, base)
    requires input[p] !in outside && g in Survivors(input, outside, smallest, base)
    ensures g.sequence != input[p].sequence
  {
    KeptIsPart(input, smallest, base);
    assert input[p] in Contents(input);
    if g == input[p] {
      SameEntryOnce(input, p, smallest, base);
    }
  }

  /** What the result shows goes back to the inputs. */
  lemma UncoveredWasCovered(input: seq<Entry>, outside: set<Entry>, p: nat, f: Entry, smallest: nat,
                            base: UserKey -> bool)
    requires Sorted(input) && UniqueSeqs(Contents(input) + outside)
    requires p < |input| && Uncovers(input, outside, p, f, smallest, base)
    ensures BringsBack(input, outside, p, f, smallest, base)
  {
    var m := input[p];
    assert m in Contents(input) + outside;
    NewestIsNotHidden(input, Contents(input) + outside, m.user, smallest, smallest, p);
    if f !in outside {
      KeptMembers(input, |input|, smallest, base, f);
      var q: nat :| q < |input| && input[q] == f && !Dropped(input, q, smallest, base);
      SparedIsBehindCorrupt(input, p, q, smallest);
    }
  }

  /** An older entry of a covered key that rule (A) spares follows a key that does not parse. */
  lemma SparedIsBehindCorrupt(input: seq<Entry>, p: nat, q: nat, smallest: nat)
    requires Sorted(input) && p < |input| && q < |input| && input[p].user == input[q].user && input[q].Parses()
    requires input[q].sequence < input[p].sequence <= smallest && !Hidden(input, q, smallest)
    ensures q > p && !input[q - 1].Parses()
  {
    if q < p {
      SameKeyOrder(input, q, p);
    } else {
      SameKeyOrder(input, p, q);
      if p < q - 1 {
        SameKeyOrder(input, p, q - 1);
      }
    }
  }

  /** And from the inputs to the result: the newest older survivor is a value, this one or a newer. */
  lemma BroughtBackIsUncovered(input: seq<Entry>, outside: set<Entry>, p: nat, f: Entry, smallest: nat,
                               base: UserKey -> bool) returns (h: Entry)
    requires Sorted(input) && UniqueSeqs(Contents(input) + outside)
    requires p < |input| && BringsBack(input, outside, p, f, smallest, base)
    ensures Uncovers(input, outside, p, h, smallest, base) && h.sequence >= f.sequence
  {
    hide Survivors, BehindCorrupt, Kept, Sorted, Hidden;
    var m, after := input[p], Survivors(input, outside, smallest, base);
    FormerSurvives(input, outside, p, f, smallest, base);
    assert f.SeenBy(m.user, m.sequence - 1);
    h := NewestExists(after, m.user, m.sequence - 1);
    SurvivingMarkerIsOutside(input, outside, smallest, base, h);
    SurvivorsArePart(input, outside, smallest, base);
  }

  lemma FormerSurvives(input: seq<Entry>, outside: set<Entry>, p: nat, f: Entry, smallest: nat,
                       base: UserKey -> bool)
    requires p < |input| && BringsBack(input, outside, p, f, smallest, base)
    ensures f in Survivors(input, outside, smallest, base)
  {
    if f !in outside {
      var q: nat :| 0 < q < |input| && input[q] == f && !input[q - 1].Parses();
      assert !Dropped(input, q, smallest, base);
      KeptMembers(input, |input|, smallest, base, f);
    }
  }

  lemma SurvivorsArePart(input: seq<Entry>, outside: set<Entry>, smallest: nat, base: UserKey -> bool)
    ensures outside <= Survivors(input, outside, smallest, base) <= Contents(input) + outside
  {
    KeptIsPart(input, smallest, base);
  }

  /** A covered marker over a base level survives only outside. */
  lemma SurvivingMarkerIsOutside(input: seq<Entry>, outside: set<Entry>, smallest: nat, base: UserKey -> bool,
                                 h: Entry)
    requires h in Survivors(input, outside, smallest, base) && h.sequence <= smallest && base(h.user)
    ensures h.tag == DeletionTag ==> h in outside
  {
    if h !in outside {
      KeptMembers(input, |input|, smallest, base, h);
    }
  }

  lemma PreservesRead(input: seq<Entry>, outside: set<Entry>, smallest: nat, base: UserKey -> bool, key: UserKey,
                      s: nat)
    requires Sorted(input) && UniqueSeqs(Contents(input) + outside) && Harmless(input, outside, smallest, base)
    requires s >= smallest
    ensures Read(Contents(input) + outside, key, s) == Read(Survivors(input, outside, smallest, base), key, s)
  {
    var before, after := Contents(input) + outside, Survivors(input, outside, smallest, base);
    KeptIsPart(input, smallest, base);
    if Sees(before, key, s) {
      var e := NewestExists(before, key, s);
      ReadIs(before, key, s, e);
      if e in after {
        assert Newest(after, key, s, e);
        ReadIs(after, key, s, e);
      } else {
        KeptMembers(input, |input|, smallest, base, e);
        var p: nat :| p < |input| && input[p] == e;
        NewestIsNotHidden(input, before, key, s, smallest, p);
        DroppedMarkerLeavesNothing(input, outside, smallest, base, key, s, p);
      }
    }
  }

  /** A dropped marker that decided leaves no value to decide in its place. */
  lemma DroppedMarkerLeavesNothing(input: seq<Entry>, outside: set<Entry>, smallest: nat, base: UserKey -> bool,
                                   key: UserKey, s: nat, p: nat)
    requires Sorted(input) && UniqueSeqs(Contents(input) + outside) && Harmless(input, outside, smallest, base)
    requires s >= smallest
    requires p < |input| && Obsolete(input, p, smallest, base) && input[p] !in outside
    requires Newest(Contents(input) + outside, key, s, input[p])
    ensures Read(Survivors(input, outside, smallest, base), key, s) == None
  {
    var after := Survivors(input, outside, smallest, base);
    KeptIsPart(input, smallest, base);
    if Sees(after, key, s) {
      var f := NewestExists(after, key, s);
      ReadIs(after, key, s, f);
      DroppedIsGone(input, outside, p, smallest, base, f);
      if Uncovers(input, outside, p, f, smallest, base) {
        UncoveredWasCovered(input, outside, p, f, smallest, base);
      }
    }
  }

  lemma UncoveredIsVisible(input: seq<Entry>, outside: set<Entry>, p: nat, f: Entry, smallest: nat,
                           base: UserKey -> bool)
    requires Sorted(input) && UniqueSeqs(Contents(input) + outside)
    requires p < |input| && Uncovers(input, outside, p, f, smallest, base)
    ensures Read(Contents(input) + outside, input[p].user, smallest) == None
    ensures Read(Survivors(input, outside, smallest, base), input[p].user, smallest) == Some(f.value)
  {
    var m, before, after := input[p], Contents(input) + outside, Survivors(input, outside, smallest, base);
    assert m in before;
    KeptIsPart(input, smallest, base);
    ReadIs(before, m.user, smallest, m);
    forall g | g in after && g.SeenBy(m.user, smallest) ensures g.sequence <= f.sequence {
      DroppedIsGone(input, outside, p, smallest, base, g);
    }
    assert Newest(after, m.user, smallest, f);
    ReadIs(after, m.user, smallest, f);
  }

  /** Wherever the pattern occurs, the oldest snapshot sees a deleted value come back: the one named or
      a newer one. */
  lemma BroughtBackIsVisible(input: seq<Entry>, outside: set<Entry>, p: nat, f: Entry, smallest: nat,
                             base: UserKey -> bool) returns (h: Entry)
    requires Sorted(input) && UniqueSeqs(Contents(input) + outside)
    requires p < |input| && BringsBack(input, outside, p, f, smallest, base)
    ensures Read(Contents(input) + outside, input[p].user, smallest) == None
    ensures Read(Survivors(input, outside, smallest, base), input[p].user, smallest) == Some(h.value)
    ensures h in Contents(input) + outside && h.user == f.user && h.tag == ValueTag && h.sequence >= f.sequence
  {
    h := BroughtBackIsUncovered(input, outside, p, f, smallest, base);
    UncoveredIsVisible(input, outside, p, h, smallest, base);
    KeptIsPart(input, smallest, base);
  }

  /** Main result. Whatever was chosen as inputs, replacing them by what the merge keeps changes no
      read at the oldest snapshot still served or a later one, unless the pattern occurs; and then
      it does. */
  lemma PreservesReads(input: seq<Entry>, outside: set<Entry>, smallest: nat, base: UserKey -> bool)
    requires Sorted(input) && UniqueSeqs(Contents(input) + outside)
    ensures SameReads(Contents(input) + outside, Survivors(input, outside, smallest, base), smallest)
            <==> Harmless(input, outside, smallest, base)
  {
    if Harmless(input, outside, smallest, base) {
      forall key, s | s >= smallest
        ensures Read(Contents(input) + outside, key, s) == Read(Survivors(input, outside, smallest, base), key, s)
      {
        PreservesRead(input, outside, smallest, base, key, s);
      }
    } else {
      var p: nat, f :| p < |input| && BringsBack(input, outside, p, f, smallest, base);
      var h := BroughtBackIsVisible(input, outside, p, f, smallest, base);
    }
  }

  /** A survivor was dropped at no position: the inputs hold each entry once. */
  lemma SameEntryOnce(input: seq<Entry>, j: nat, smallest: nat, base: UserKey -> bool)
    requires Sorted(input) && j < |input| && input[j] in Contents(Kept(input, |input|, smallest, base))
    ensures !Dropped(input, j, smallest, base)
  {
    KeptMembers(input, |input|, smallest, base, input[j]);
    var i :| 0 <= i < |input| && input[i] == input[j] && !Dropped(input, i, smallest, base);
    DistinctPositions(input);
  }

  // ---- When the merge is harmless ----

  /** What the choice of inputs owes the merge: nothing lies deeper under a base-level key, and
      every entry outside the inputs is newer than the inputs' entries for its key or lies deeper. */
  ghost predicate GoodInputs(input: seq<Entry>, above: set<Entry>, deeper: set<Entry>, base: UserKey -> bool) {
    && Sorted(input)
    && UniqueSeqs(Contents(input) + above + deeper)
    && (forall r | r in deeper :: !base(r.user))
    && (forall r, i | r in above && 0 <= i < |input| && input[i].user == r.user :: r.sequence > input[i].sequence)
  }

  /** What is dropped, told by readers: an input that no reader at the smallest snapshot or later would be
      answered by, were the inputs all there is, and a marker over a base level that answers the smallest
      snapshot itself. Everything else is kept. */
  lemma DroppedIff(input: seq<Entry>, i: nat, smallest: nat, base: UserKey -> bool)
    requires Sorted(input) && UniqueSeqs(Contents(input)) && i < |input| && forall e | e in input :: e.Parses()
    ensures input[i] in Kept(input, |input|, smallest, base) <==> !Dropped(input, i, smallest, base)
    ensures Dropped(input, i, smallest, base) <==>
            || (forall s: nat | s >= smallest :: !Newest(Contents(input), input[i].user, s, input[i]))
            || (base(input[i].user) && Newest(Contents(input), input[i].user, smallest, input[i])
                && input[i].Answer() == None)
  {
    var e := input[i];
    assert e.Parses() && e in Contents(input);
    KeptMembers(input, |input|, smallest, base, e);
    DistinctPositions(input);
    if Hidden(input, i, smallest) {
      HiddenIsNeverNewest(input, i, smallest);
    } else {
      var s := if e.sequence < smallest then smallest else e.sequence;
      forall f | f in Contents(input) && f.SeenBy(e.user, s) ensures f.sequence <= e.sequence {
        var j: nat :| j < |input| && input[j] == f;
        SparedHasNoNewer(input, i, j, smallest);
      }
      assert Newest(Contents(input), e.user, s, e);
    }
  }

  /** Below the smallest snapshot one version of a key is kept, and no marker over a base level. */
  lemma OnePerKey(input: seq<Entry>, smallest: nat, base: UserKey -> bool, a: Entry, b: Entry)
    requires Sorted(input) && forall e | e in input :: e.Parses()
    requires a in Kept(input, |input|, smallest, base) && b in Kept(input, |input|, smallest, base)
    requires a.user == b.user && a.sequence <= smallest && b.sequence <= smallest
    ensures a == b && (base(a.user) ==> a.Answer().Some?)
  {
    KeptMembers(input, |input|, smallest, base, a);
    KeptMembers(input, |input|, smallest, base, b);
    var i: nat :| i < |input| && input[i] == a && !Dropped(input, i, smallest, base);
    var j: nat :| j < |input| && input[j] == b && !Dropped(input, j, smallest, base);
    assert input[i].Parses();
    if i < j {
      SparedHasNoNewer(input, j, i, smallest);
    } else if j < i {
      SparedHasNoNewer(input, i, j, smallest);
    }
  }

  lemma HiddenIsNeverNewest(input: seq<Entry>, i: nat, smallest: nat)
    requires Sorted(input) && i < |input| && Hidden(input, i, smallest) && UniqueSeqs(Contents(input))
    ensures forall s: nat | s >= smallest :: !Newest(Contents(input), input[i].user, s, input[i])
  {
    assert input[i - 1] in Contents(input) && input[i] in Contents(input) && Before(input[i - 1], input[i]);
  }

  /** Before an entry that rule (A) spares there is nothing newer that the smallest snapshot covers. */
  lemma SparedHasNoNewer(input: seq<Entry>, i: nat, j: nat, smallest: nat)
    requires Sorted(input) && i < |input| && j < |input| && forall e | e in input :: e.Parses()
    requires !Hidden(input, i, smallest) && input[j].user == input[i].user
    ensures j < i ==> input[j].sequence > smallest && input[j].sequence >= input[i].sequence
    ensures j > i ==> input[j].sequence <= input[i].sequence
  {
    if j < i {
      SameKeyOrder(input, j, i);
      if j < i - 1 {
        SameKeyOrder(input, j, i - 1);
      }
    } else if j > i {
      SameKeyOrder(input, i, j);
    }
  }

  /** With such inputs and no corrupt key among them the pattern cannot occur, and no read changes. */
  lemma GoodInputsAreHarmless(input: seq<Entry>, above: set<Entry>, deeper: set<Entry>, smallest: nat,
                              base: UserKey -> bool)
    requires GoodInputs(input, above, deeper, base) && forall e | e in input :: e.Parses()
    ensures Harmless(input, above + deeper, smallest, base)
    ensures SameReads(Contents(input) + (above + deeper), Survivors(input, above + deeper, smallest, base), smallest)
  {
    assert Harmless(input, above + deeper, smallest, base);
    assert Contents(input) + above + deeper == Contents(input) + (above + deeper);
    hide Harmless, BringsBack;
    PreservesReads(input, above + deeper, smallest, base);
  }

  /** A corrupt key does it: a marker, a key that does not parse, and any older value. */
  lemma CorruptKeyUncovers(marker: Entry, corrupt: Entry, former: Entry, smallest: nat, base: UserKey -> bool)
    requires marker.tag == DeletionTag && marker.sequence <= smallest && base(marker.user)
    requires corrupt.user == marker.user && !corrupt.Parses() && former.user == marker.user && former.tag == ValueTag
    requires marker.sequence > corrupt.sequence > former.sequence
    ensures GoodInputs([marker, corrupt, former], {}, {}, base)
    ensures !Harmless([marker, corrupt, former], {}, smallest, base)
  {
    var input := [marker, corrupt, former];
    assert input[2] == former && !input[1].Parses();
    ThreeGoodInputs(marker, corrupt, former, base);
    assert BringsBack(input, {}, 0, former, smallest, base);
  }

  lemma ThreeGoodInputs(a: Entry, b: Entry, c: Entry, base: UserKey -> bool)
    requires a.user == b.user == c.user && a.sequence > b.sequence > c.sequence
    ensures GoodInputs([a, b, c], {}, {}, base)
  {
    assert Contents([a, b, c]) + {} + {} == {a, b, c};
  }

  /** So does a user key that straddles two files of a level, when a compaction takes only the file
      with the marker: any older value outside comes back. */
  lemma StraddledKeyUncovers(marker: Entry, former: Entry, smallest: nat, base: UserKey -> bool)
    requires marker.tag == DeletionTag && marker.sequence <= smallest && base(marker.user)
    requires former.user == marker.user && former.tag == ValueTag && former.sequence < marker.sequence
    ensures !Harmless([marker], {former}, smallest, base)
  {
    assert BringsBack([marker], {former}, 0, former, smallest, base);
  }
}
