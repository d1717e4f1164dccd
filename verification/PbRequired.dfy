/** The decoder's table of required fields seen: the flags the iterator's index leads to, against the
    fields that did occur. */
module PbRequired {
  import opened Wrappers
  import opened PbTypes
  import opened PbFormat
  import PbIter

  /** The table as the iterator sees it. Where the data lies has no bearing on which field is found. */
  function Descriptors(fs: seq<Field>): (ds: seq<PbIter.Descriptor>)
    ensures |ds| == |fs|
  {
    seq(|fs|, i requires 0 <= i < |fs| =>
      PbIter.Descriptor(fs[i].tag, KindOf(fs[i].htype), PbIter.Static, false,
                        i > 0 && fs[i].htype.Oneof? && fs[i - 1].htype == fs[i].htype, 0, 0, 0, 0))
  }

  function KindOf(h: HType): PbIter.Kind {
    match h
    case Required => PbIter.Required
    case Optional(_) => PbIter.Optional
    case Repeated(_) => PbIter.Repeated
    case Oneof(_) => PbIter.Oneof
  }

  function Index(fs: seq<Field>, i: nat): nat
    requires i <= |fs|
  {
    PbIter.RequiredBefore(Descriptors(fs), i)
  }

  /** The indices of the required fields among those seen. */
  ghost function Flags(fs: seq<Field>, seen: set<nat>): set<nat> {
    set i: nat | i in seen && i < |fs| && fs[i].htype.Required? :: Index(fs, i)
  }

  lemma FlagsGrow(fs: seq<Field>, seen: set<nat>, i: nat)
    requires i < |fs|
    ensures Flags(fs, seen + {i}) == Flags(fs, seen) + (if fs[i].htype.Required? then {Index(fs, i)} else {})
  {
    hide Index;
    var more := if fs[i].htype.Required? then {Index(fs, i)} else {};
    forall k | k in Flags(fs, seen + {i}) ensures k in Flags(fs, seen) + more {
      var j: nat :| j in seen + {i} && j < |fs| && fs[j].htype.Required? && k == Index(fs, j);
      assert j != i ==> j in seen;
    }
    forall k | k in Flags(fs, seen) + more ensures k in Flags(fs, seen + {i}) {
      if k in Flags(fs, seen) {
        var j: nat :| j in seen && j < |fs| && fs[j].htype.Required? && k == Index(fs, j);
        assert j in seen + {i};
      } else {
        assert i in seen + {i};
      }
    }
  }

  lemma {:induction false} IndexGrows(fs: seq<Field>, i: nat, j: nat)
    requires i <= j <= |fs|
    ensures Index(fs, i) <= Index(fs, j)
    ensures i < j && fs[i].htype.Required? ==> Index(fs, i) < Index(fs, j)
  {
    if i < j {
      IndexGrows(fs, i, j - 1);
    }
  }

  lemma {:induction false} IndexReaches(fs: seq<Field>, n: nat, r: nat) returns (i: nat)
    requires n <= |fs| && r < Index(fs, n)
    ensures i < n && fs[i].htype.Required? && Index(fs, i) == r
  {
    if r < Index(fs, n - 1) {
      i := IndexReaches(fs, n - 1, r);
    } else {
      i := n - 1;
    }
  }

  /** All flags below the number of required fields are set exactly when every required field was
      seen, and no others ever are. */
  lemma AllFlagsIffComplete(fs: seq<Field>, seen: set<nat>)
    ensures (forall r: nat | r < Index(fs, |fs|) :: r in Flags(fs, seen)) <==> Complete(fs, seen)
    ensures forall r | r in Flags(fs, seen) :: r < Index(fs, |fs|)
  {
    hide Index;
    forall r | r in Flags(fs, seen) ensures r < Index(fs, |fs|) {
      var i: nat :| i in seen && i < |fs| && fs[i].htype.Required? && r == Index(fs, i);
      IndexGrows(fs, i, |fs|);
    }
    if Complete(fs, seen) {
      forall r: nat | r < Index(fs, |fs|) ensures r in Flags(fs, seen) {
        var i := IndexReaches(fs, |fs|, r);
        assert i in seen;
      }
    }
    if forall r: nat | r < Index(fs, |fs|) :: r in Flags(fs, seen) {
      forall i | 0 <= i < |fs| && fs[i].htype.Required? ensures i in seen {
        IndexGrows(fs, i, |fs|);
        assert Index(fs, i) in Flags(fs, seen);
        var j: nat :| j in seen && j < |fs| && fs[j].htype.Required? && Index(fs, i) == Index(fs, j);
        if i < j {
          IndexGrows(fs, i, j);
        } else if j < i {
          IndexGrows(fs, j, i);
        }
      }
    }
  }

  /** The flags have room for the required fields of the table and of those below it, and the check of
      the last word means what it says. */
  ghost predicate Countable(fs: seq<Field>)
    decreases fs, 0
  {
    && Index(fs, |fs|) < 64 && (Index(fs, |fs|) == 0 || Index(fs, |fs|) % 32 != 0)
    && forall i: nat | i < |fs| :: CountableField(fs[i])
  }

  ghost predicate CountableField(f: Field)
    decreases f, 0
  {
    f.ltype.Submessage? ==> Countable(f.ltype.fields)
  }

  /** The check of the flags is right for every table it is made for. */
  lemma CheckIsComplete(fs: seq<Field>, seen: set<nat>, words: seq<seq<bool>>)
    requires Countable(fs) && PbIter.Holds(words, Flags(fs, seen))
    ensures PbIter.AllSeen(words, Index(fs, |fs|)) <==> Complete(fs, seen)
  {
    hide Index, Flags;
    AllFlagsIffComplete(fs, seen);
    PbIter.AllSeenIff(words, Flags(fs, seen), Index(fs, |fs|));
  }

  /** The flag of the field just found. */
  lemma SeenIsFlagged(fs: seq<Field>, seen: set<nat>, words: seq<seq<bool>>, i: nat)
    requires Countable(fs) && i < |fs| && PbIter.Holds(words, Flags(fs, seen))
    ensures |words| == 2 && |words[0]| == |words[1]| == 32
    ensures fs[i].htype.Required? ==>
              Index(fs, i) < 64 && PbIter.Holds(PbIter.SetBit(words, Index(fs, i)), Flags(fs, seen + {i}))
    ensures !fs[i].htype.Required? ==> PbIter.Holds(words, Flags(fs, seen + {i}))
  {
    hide Flags, Index;
    IndexGrows(fs, i, |fs|);
    FlagsGrow(fs, seen, i);
    if fs[i].htype.Required? {
      PbIter.SetBitHolds(words, Flags(fs, seen), Index(fs, i));
    } else {
      assert Flags(fs, seen) + {} == Flags(fs, seen);
    }
  }

  /** With tags distinct the iterator finds the field the table names. */
  lemma FoundIsFieldOf(fs: seq<Field>, tag: nat, i: nat)
    requires forall a: nat, b: nat | a < b < |fs| :: fs[a].tag != fs[b].tag
    requires i < |fs| && PbIter.Matches(Descriptors(fs)[i], tag)
    ensures FieldOf(fs, tag) == Some(i)
  {
    hide FieldOf;
    assert fs[i].tag == tag;
  }

  lemma NotFoundIsNone(fs: seq<Field>, tag: nat)
    requires forall j: nat | j < |fs| :: !PbIter.Matches(Descriptors(fs)[j], tag)
    ensures FieldOf(fs, tag) == None
  {
    hide FieldOf;
    assert forall j: nat | j < |fs| :: fs[j].tag != tag by {
      assert forall j: nat | j < |fs| ::
          Descriptors(fs)[j].tag == fs[j].tag && !PbIter.Matches(Descriptors(fs)[j], tag);
    }
  }
}
