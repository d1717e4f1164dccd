/** The merge loop itself, with its level cursors and its output files. */
module CompactionWork {
  import opened Entries
  import opened Compaction

  /** The user keys a table file spans. */
  datatype KeyRange = KeyRange(smallest: UserKey, largest: UserKey)

  ghost predicate Covered(levels: seq<seq<KeyRange>>, key: UserKey) {
    exists l, j :: 0 <= l < |levels| && 0 <= j < |levels[l]| && levels[l][j].smallest <= key <= levels[l][j].largest
  }

  ghost predicate SortedLevels(levels: seq<seq<KeyRange>>) {
    forall l, i, j | 0 <= l < |levels| && 0 <= i < j < |levels[l]| :: levels[l][i].smallest <= levels[l][j].smallest
  }

  /** The cursors a compaction keeps into the levels below its output level. They only move
      forward, so questions must come in ascending key order. */
  class BaseLevels {
    const levels: seq<seq<KeyRange>>
    const ptrs: array<nat>
    ghost var asked: set<UserKey>

    ghost predicate Valid()
      reads this, ptrs
    {
      && SortedLevels(levels)
      && ptrs.Length == |levels|
      && (forall l | 0 <= l < |levels| :: ptrs[l] <= |levels[l]|)
      && (forall l, j | 0 <= l < |levels| && 0 <= j < ptrs[l] :: exists k :: k in asked && levels[l][j].largest < k)
    }

    ghost predicate MayAsk(key: UserKey)
      reads this
    {
      forall k | k in asked :: k <= key
    }

    constructor (levels: seq<seq<KeyRange>>)
      requires SortedLevels(levels)
      ensures Valid() && this.levels == levels && asked == {} && fresh(ptrs)
    {
      this.levels := levels;
      this.ptrs := new nat[|levels|](_ => 0);
      this.asked := {};
    }

    /** True exactly when no file of a deeper level spans the key, although each call looks at
        the files its cursors have not passed yet. */
    method IsBaseLevelForKey(key: UserKey) returns (r: bool)
      requires Valid() && MayAsk(key)
      modifies this, ptrs
      ensures Valid() && asked == old(asked) + {key}
      ensures r == !Covered(levels, key)
    {
      asked := asked + {key};
      var l := 0;
      while l < |levels|
        invariant 0 <= l <= |levels| && Valid() && asked == old(asked) + {key}
        invariant !Covered(levels[..l], key)
      {
        while ptrs[l] < |levels[l]|
          invariant Valid() && asked == old(asked) + {key}
          decreases |levels[l]| - ptrs[l]
        {
          var f := levels[l][ptrs[l]];
          if key <= f.largest {
            if key >= f.smallest {
              return false;
            }
            break;
          }
          ptrs[l] := ptrs[l] + 1;
        }
        forall j | 0 <= j < |levels[l]| ensures !(levels[l][j].smallest <= key <= levels[l][j].largest) {
          assert j < ptrs[l] || levels[l][ptrs[l]].smallest <= levels[l][j].smallest;
        }
        l := l + 1;
      }
      assert levels[..l] == levels;
      return true;
    }
  }

  /** One table file written by the merge, with the range recorded for the version edit. */
  datatype Output = Output(entries: seq<Entry>, smallest: Entry, largest: Entry) {
    ghost predicate Faithful() {
      |entries| > 0 && smallest == entries[0] && largest == entries[|entries| - 1]
    }
  }

  ghost predicate AllFaithful(outputs: seq<Output>) { forall i: nat | i < |outputs| :: outputs[i].Faithful() }

  ghost function Flatten(outputs: seq<Output>): seq<Entry> {
    if |outputs| == 0 then [] else Flatten(outputs[..|outputs| - 1]) + outputs[|outputs| - 1].entries
  }

  /** What the environment decides while the loop runs: whether shutdown is seen before step i
      (and once more after the loop), whether the current file should end before entry i, and
      whether it is big enough after it. */
  datatype Oracle = Oracle(shutdown: nat -> bool, stopBefore: nat -> bool, full: nat -> bool)

  function Longer(out: Output, e: Entry): Output {
    Output(out.entries + [e], out.smallest, e)
  }

  lemma NoOutputs()
    ensures Flatten([]) == []
  {
  }

  lemma OneOutputMore(outputs: seq<Output>, last: Output)
    ensures Flatten(outputs + [last]) == Flatten(outputs) + last.entries
    ensures AllFaithful(outputs) && last.Faithful() ==> AllFaithful(outputs + [last])
  {
    assert (outputs + [last])[..|outputs|] == outputs;
  }

  lemma {:induction false} AddedToLast(outputs: seq<Output>, e: Entry)
    requires |outputs| > 0 && AllFaithful(outputs)
    ensures var before, last := outputs[..|outputs| - 1], outputs[|outputs| - 1];
            && Flatten(before + [Longer(last, e)]) == Flatten(outputs) + [e]
            && AllFaithful(before + [Longer(last, e)])
  {
    hide Flatten;
    var before, last := outputs[..|outputs| - 1], outputs[|outputs| - 1];
    assert (last.entries + [e])[0] == last.entries[0];
    OneOutputMore(before, last);
    OneOutputMore(before, Longer(last, e));
    assert outputs == before + [last];
    Joined(Flatten(before), last.entries, e);
  }

  lemma Joined(a: seq<Entry>, b: seq<Entry>, e: Entry)
    ensures (a + b) + [e] == a + (b + [e])
  {
  }

  /** Opens an output file if none is being built and adds the entry to it. */
  function AddEntry(outputs: seq<Output>, building: bool, e: Entry): (r: seq<Output>)
    requires building ==> |outputs| > 0
    requires AllFaithful(outputs)
    ensures Flatten(r) == Flatten(outputs) + [e] && |r| > 0
    ensures |r| == if building then |outputs| else |outputs| + 1
    ensures AllFaithful(r)
  {
    if building then
      var last := |outputs| - 1;
      AddedToLast(outputs, e);
      outputs[..last] + [Longer(outputs[last], e)]
    else
      OneOutputMore(outputs, Output([e], e, e));
      outputs + [Output([e], e, e)]
  }

  method DoCompactionWork(input: seq<Entry>, smallest: nat, base: BaseLevels, o: Oracle)
    returns (ok: bool, outputs: seq<Output>)
    requires Sorted(input) && smallest < MaxSequence
    requires base.Valid() && base.asked == {}
    modifies base, base.ptrs
    ensures ok <==> forall i: nat | i <= |input| :: !o.shutdown(i)
    ensures ok ==> Flatten(outputs) == Kept(input, |input|, smallest, k => !Covered(base.levels, k))
    ensures AllFaithful(outputs)
  {
    hide Flatten, Covered;
    ghost var isBase := (k: UserKey) => !Covered(base.levels, k);
    outputs := [];
    NoOutputs();
    var building := false;
    var hasCurrentUserKey, currentUserKey, lastSequenceForKey := false, 0.0, MaxSequence;
    var i: nat := 0;
    while i < |input| && !o.shutdown(i)
      invariant i <= |input| && base.Valid()
      invariant forall j: nat | j < i :: !o.shutdown(j)
      invariant forall k | k in base.asked :: exists j :: 0 <= j < i && k == input[j].user
      invariant i == 0 || !input[i - 1].Parses() ==> !hasCurrentUserKey
      invariant i > 0 && input[i - 1].Parses() ==>
                  hasCurrentUserKey && currentUserKey == input[i - 1].user
                      && lastSequenceForKey == input[i - 1].sequence
      invariant !hasCurrentUserKey ==> lastSequenceForKey == MaxSequence
      invariant Flatten(outputs) == Kept(input, i, smallest, isBase)
      invariant AllFaithful(outputs)
      invariant building ==> |outputs| > 0
    {
      var e := input[i];
      if o.stopBefore(i) && building {
        building := false;
      }
      var drop := false;
      if !e.Parses() {
        hasCurrentUserKey, lastSequenceForKey := false, MaxSequence;
      } else {
        if !hasCurrentUserKey || e.user != currentUserKey {
          currentUserKey, hasCurrentUserKey, lastSequenceForKey := e.user, true, MaxSequence;
        }
        if lastSequenceForKey <= smallest {
          drop := true;
        } else if e.tag == DeletionTag && e.sequence <= smallest {
          forall k | k in base.asked ensures k <= e.user {
            var j :| 0 <= j < i && k == input[j].user;
            assert Before(input[j], input[i]);
          }
          drop := base.IsBaseLevelForKey(e.user);
        }
        lastSequenceForKey := e.sequence;
      }
      assert drop == Dropped(input, i, smallest, isBase);
      if !drop {
        outputs := AddEntry(outputs, building, e);
        building := true;
        if o.full(i) {
          building := false;
        }
      }
      i := i + 1;
    }
    ok := i == |input| && !o.shutdown(i);
  }

  ghost predicate StrictlyOrdered(outputs: seq<Output>) {
    && (forall i | 0 <= i < |outputs| ::
         outputs[i].smallest == outputs[i].largest || Before(outputs[i].smallest, outputs[i].largest))
    && (forall i, j | 0 <= i < j < |outputs| :: Before(outputs[i].largest, outputs[j].smallest))
  }

  lemma {:induction false} KeptStaysSorted(input: seq<Entry>, n: nat, smallest: nat, base: UserKey -> bool)
    requires Sorted(input) && n <= |input|
    ensures Sorted(Kept(input, n, smallest, base))
  {
    if n > 0 {
      KeptStaysSorted(input, n - 1, smallest, base);
      var kept := Kept(input, n - 1, smallest, base);
      forall j | 0 <= j < |kept| ensures Before(kept[j], input[n - 1]) {
        KeptMembers(input, n - 1, smallest, base, kept[j]);
        assert kept[j] in kept;
      }
    }
  }

  lemma {:induction false} FlattenHas(outputs: seq<Output>, k: nat, e: Entry)
    requires k < |outputs| && e in outputs[k].entries
    ensures e in Flatten(outputs)
  {
    var n := |outputs| - 1;
    if k < n {
      FlattenHas(outputs[..n], k, e);
    }
  }

  /** Cutting the kept entries into files anywhere leaves the files' ranges strictly ordered. */
  lemma {:induction false} OutputsOrdered(outputs: seq<Output>)
    requires Sorted(Flatten(outputs)) && AllFaithful(outputs)
    ensures StrictlyOrdered(outputs)
  {
    if |outputs| > 0 {
      var n := |outputs| - 1;
      var flat, before, last := Flatten(outputs), Flatten(outputs[..n]), outputs[n];
      assert forall i | 0 <= i < |before| :: flat[i] == before[i];
      assert forall i | 0 <= i < |last.entries| :: flat[|before| + i] == last.entries[i];
      assert last.Faithful();
      OutputsOrdered(outputs[..n]);
      forall i | 0 <= i < n ensures Before(outputs[i].largest, last.smallest) {
        assert outputs[i] in outputs;
        FlattenHas(outputs[..n], i, outputs[i].largest);
        var j :| 0 <= j < |before| && before[j] == outputs[i].largest;
        assert Before(flat[j], flat[|before|]);
      }
    }
  }

  /** The files of a finished merge: everything kept, in strictly ordered ranges. */
  lemma WorkOutputs(input: seq<Entry>, outputs: seq<Output>, smallest: nat, base: UserKey -> bool)
    requires Sorted(input) && Flatten(outputs) == Kept(input, |input|, smallest, base)
    requires AllFaithful(outputs)
    ensures StrictlyOrdered(outputs)
  {
    KeptStaysSorted(input, |input|, smallest, base);
    OutputsOrdered(outputs);
  }
}
