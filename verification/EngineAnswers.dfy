/** What users get over whole runs: a snapshot keeps its number and its answers until it is released,
    and a write is answered until the next one on its key, through crashes and restarts. */
module EngineAnswers {
  import opened Wrappers
  import opened Entries
  import opened WriteBatch
  import opened EngineState
  import opened EngineInvariant
  import opened EngineRestart
  import opened EngineTheorems
  import opened EngineReaders

  // ---- Snapshots ----

  /** Where the snapshot taken by step i is in the list of state j: it moves down when an older one is
      released, and is gone once it is released itself or the process dies. */
  ghost function HandleAt(states: seq<State>, steps: seq<Step>, i: nat, j: nat): Option<nat>
    requires |states| == |steps| + 1 && i < j <= |steps|
    decreases j
  {
    if j == i + 1 then Some(|states[i].p.snapshots|)
    else
      match HandleAt(states, steps, i, j - 1)
      case None => None
      case Some(x) =>
        match steps[j - 1]
        case ReleaseSnapshot(y) => if y == x then None else Some(if y < x then x - 1 else x)
        case Crash(_) => None
        case _ => Some(x)
  }

  /** The list of snapshots changes only by taking and releasing. */
  ghost predicate ListKept(s: State, t: State) { t.p.snapshots == s.p.snapshots && t.mode.Up? }

  lemma FlushKeepsList(s: State, step: Step)
    requires s.mode.Up? && Enabled(s, step) && (step.BeginFlush? || step.BuildTable? || Flushes(step))
    ensures ListKept(s, Next(s, step))
  {
    hide TableEntries, Live, EditNow;
  }

  lemma MergeKeepsList(s: State, step: Step)
    requires s.mode.Up? && Enabled(s, step) && (step.OpenOutput? || step.WriteOutput? || Merges(step))
    ensures ListKept(s, Next(s, step))
  {
    hide Compaction.GoodInputs, Compaction.Contents, TableEntries, Live, EditNow;
  }

  lemma OthersKeepList(s: State, step: Step)
    requires s.mode.Up? && Enabled(s, step) && !step.Crash? && !step.TakeSnapshot? && !step.ReleaseSnapshot?
    requires !step.BeginFlush? && !step.BuildTable? && !Flushes(step)
    requires !step.OpenOutput? && !step.WriteOutput? && !Merges(step)
    ensures ListKept(s, Next(s, step))
  {
    hide TableEntries, Live, Collectable, Extended;
  }

  lemma ListChanges(s: State, step: Step)
    requires s.mode.Up? && Enabled(s, step) && !step.Crash?
    ensures Next(s, step).mode.Up?
    ensures step.TakeSnapshot? ==> Next(s, step).p.snapshots == s.p.snapshots + [s.p.lastSequence]
    ensures step.ReleaseSnapshot? ==>
              step.index < |s.p.snapshots|
              && Next(s, step).p.snapshots == s.p.snapshots[..step.index] + s.p.snapshots[step.index + 1..]
    ensures !step.TakeSnapshot? && !step.ReleaseSnapshot? ==> Next(s, step).p.snapshots == s.p.snapshots
  {
    if !step.TakeSnapshot? && !step.ReleaseSnapshot? {
      hide Enabled, Next, Flushes, Merges;
      if step.BeginFlush? || step.BuildTable? || Flushes(step) {
        FlushKeepsList(s, step);
      } else if step.OpenOutput? || step.WriteOutput? || Merges(step) {
        MergeKeepsList(s, step);
      } else {
        OthersKeepList(s, step);
      }
    }
  }

  /** A snapshot that was not released is in the list, at its place, with the number it was taken at. */
  lemma {:induction false} SnapshotStays(states: seq<State>, steps: seq<Step>, i: nat, j: nat)
    requires Run(states, steps) && i < j <= |steps| && steps[i].TakeSnapshot? && HandleAt(states, steps, i, j).Some?
    ensures var x := HandleAt(states, steps, i, j).value;
            && states[j].mode.Up? && x < |states[j].p.snapshots|
            && states[j].p.snapshots[x] == states[i].p.lastSequence
    ensures forall k | i <= k < j :: !steps[k].Crash?
    decreases j
  {
    hide Enabled, Next;
    if j == i + 1 {
      TakenUp(states[i], steps[i]);
      ListChanges(states[i], steps[i]);
    } else {
      SnapshotStays(states, steps, i, j - 1);
      ListChanges(states[j - 1], steps[j - 1]);
    }
  }

  lemma TakenUp(s: State, step: Step)
    requires Enabled(s, step) && step.TakeSnapshot?
    ensures s.mode.Up?
  {
  }

  // ---- The history ----

  /** Only what was in flight joins the history, and only a record just completed is in flight. */
  ghost predicate Remembers(s: State, step: Step, t: State) {
    && s.history <= t.history <= s.history + InFlight(s.p)
    && (!step.EndAppend? ==> InFlight(t.p) <= InFlight(s.p))
    && (step.EndAppend? ==> s.p.write.Appending? && InFlight(t.p) == s.p.write.batch.All() && t.history == s.history)
  }

  lemma FlushRemembers(s: State, step: Step)
    requires Enabled(s, step) && (step.BeginFlush? || step.BuildTable? || Flushes(step))
    ensures Remembers(s, step, Next(s, step))
  {
    hide TableEntries, Live, EditNow;
  }

  lemma MergeRemembers(s: State, step: Step)
    requires Enabled(s, step) && (step.OpenOutput? || step.WriteOutput? || Merges(step))
    ensures Remembers(s, step, Next(s, step))
  {
    hide Compaction.GoodInputs, Compaction.Contents, TableEntries, Live, EditNow;
  }

  lemma OtherRemembers(s: State, step: Step)
    requires Enabled(s, step)
    requires !step.BeginFlush? && !step.BuildTable? && !Flushes(step)
    requires !step.OpenOutput? && !step.WriteOutput? && !Merges(step)
    ensures Remembers(s, step, Next(s, step))
  {
    hide TableEntries, Live, Collectable, Extended, Cut, Logged, RecoveredSequence, CanRestore, CanBreakOff, CanCrash;
  }

  lemma StepRemembers(s: State, step: Step)
    requires Enabled(s, step)
    ensures Remembers(s, step, Next(s, step))
  {
    hide Next, Flushes, Merges, Remembers;
    if step.BeginFlush? || step.BuildTable? || Flushes(step) {
      FlushRemembers(s, step);
    } else if step.OpenOutput? || step.WriteOutput? || Merges(step) {
      MergeRemembers(s, step);
    } else {
      OtherRemembers(s, step);
    }
  }

  lemma InFlightIsNew(s: State)
    requires s.mode.Up? && Inv(s)
    ensures forall e | e in InFlight(s.p) :: e.sequence > s.p.lastSequence
    ensures UniqueSeqs(s.history) && UpTo(s.history, s.p.lastSequence)
  {
    hide JobsInv, Numbering, InStep, LogsMatch, Layers, Covered, LogLayers, ManifestInv, View, Recoverable;
    assert s.history <= s.history + InFlight(s.p);
  }

  /** While the process lives, what joins the history is newer than anything a snapshot of before shows. */
  lemma {:induction false} HistoryGrowsAbove(states: seq<State>, steps: seq<Step>, i: nat, j: nat)
    requires CleanRun(states, steps) && i <= j <= |steps| && states[i].mode.Up?
    requires forall k | i <= k < j :: !steps[k].Crash?
    ensures states[j].mode.Up? && states[i].p.lastSequence <= states[j].p.lastSequence
    ensures states[i].history <= states[j].history
    ensures forall e | e in states[j].history && e !in states[i].history :: e.sequence > states[i].p.lastSequence
    decreases j
  {
    hide Inv, Enabled, Next, CleanReuse, InFlight;
    if i < j {
      var s, step := states[j - 1], steps[j - 1];
      HistoryGrowsAbove(states, steps, i, j - 1);
      RunInv(states, steps, j - 1);
      InFlightIsNew(s);
      StepRemembers(s, step);
      if step.SwitchMemtable? {
        SwitchKeepsCounting(s, step);
      } else {
        StepAddsOnlyNewer(s, step);
      }
    }
  }

  /** A snapshot answers, for as long as it is held, like the history at the moment it was taken, whatever
      was written, flushed and compacted since. */
  lemma SnapshotAnswers(states: seq<State>, steps: seq<Step>, i: nat, j: nat, key: UserKey)
    requires CleanRun(states, steps) && i < j <= |steps| && steps[i].TakeSnapshot?
    requires HandleAt(states, steps, i, j).Some?
    ensures var x, last := HandleAt(states, steps, i, j).value, states[i].p.lastSequence;
            && states[j].mode.Up? && x < |states[j].p.snapshots| && states[j].p.snapshots[x] == last
            && LayeredGet(states[j].p, states[j].disk, key, last) == Read(states[i].history, key, last)
  {
    hide Inv, Enabled, Next, CleanReuse, LayeredGet, Read;
    var last := states[i].p.lastSequence;
    SnapshotStays(states, steps, i, j);
    TakenUp(states[i], steps[i]);
    HistoryGrowsAbove(states, steps, i, j);
    RunInv(states, steps, j);
    InFlightIsNew(states[j]);
    NewerIsInvisible(states[i].history, states[j].history, last, key, last);
    GetFollowsHistory(states[j], key, last);
  }

  // ---- A user's own writes ----

  /** No record with an operation on the key is completed between the two states. */
  ghost predicate Untouched(states: seq<State>, steps: seq<Step>, key: UserKey, k: nat, j: nat)
    requires |states| == |steps| + 1 && k <= j <= |steps|
  {
    forall m | k <= m < j && steps[m].EndAppend? && states[m].p.write.Appending? ::
      !Touches(states[m].p.write.batch, key)
  }

  ghost function Versions(es: set<Entry>, key: UserKey): set<Entry> { set e | e in es && e.user == key }

  lemma UntouchedBatch(b: Batch, key: UserKey)
    requires !Touches(b, key)
    ensures Versions(b.All(), key) == {}
  {
    forall e | e in b.All() ensures e.user != key {
      var i: nat :| i < |b.ops| && e == b.EntryAt(i);
      assert b.ops[i] in b.ops;
    }
  }

  lemma NothingJoins(a: set<Entry>, b: set<Entry>, added: set<Entry>, key: UserKey)
    requires a <= b <= a + added && Versions(added, key) == {}
    ensures Versions(b, key) == Versions(a, key)
  {
    forall e | e in Versions(b, key) ensures e in a {
      assert e in added ==> e in Versions(added, key);
    }
  }

  lemma {:induction false} KeyRests(states: seq<State>, steps: seq<Step>, key: UserKey, k: nat, j: nat)
    requires Run(states, steps) && k <= j <= |steps| && Untouched(states, steps, key, k, j)
    requires InFlight(states[k].p) == {}
    ensures Versions(states[j].history, key) == Versions(states[k].history, key)
    ensures Versions(InFlight(states[j].p), key) == {}
    decreases j
  {
    hide Enabled, Next, InFlight, Touches;
    if k < j {
      var s, step := states[j - 1], steps[j - 1];
      KeyRests(states, steps, key, k, j - 1);
      StepRemembers(s, step);
      NothingJoins(s.history, states[j].history, InFlight(s.p), key);
      if step.EndAppend? {
        UntouchedBatch(s.p.write.batch, key);
      }
    }
  }

  lemma SameVersionsRead(a: set<Entry>, b: set<Entry>, key: UserKey, s: nat, t: nat)
    requires Versions(a, key) == Versions(b, key) && UniqueSeqs(a) && UniqueSeqs(b) && UpTo(a, s) && UpTo(b, t)
    ensures Read(a, key, s) == Read(b, key, t)
  {
    if Sees(a, key, s) {
      var e := NewestExists(a, key, s);
      assert e in Versions(b, key);
      assert forall f | f in b && f.user == key :: f in Versions(a, key);
      assert Newest(b, key, t, e);
      ReadIs(a, key, s, e);
      ReadIs(b, key, t, e);
    } else {
      assert forall f | f in b && f.user == key :: f in Versions(a, key);
      ReadNone(a, key, s);
      ReadNone(b, key, t);
    }
  }

  lemma EndedWrite(s: State, step: Step)
    requires Inv(s) && Enabled(s, step) && step.EndWrite?
    ensures s.mode.Up? && s.p.write.Applying? && InFlight(Next(s, step).p) == {}
    ensures var b, t := s.p.write.batch, Next(s, step);
            && t.history == s.history + b.All() && t.mode.Up? && t.p.lastSequence == b.Last()
            && b.start == s.p.lastSequence + 1
  {
    hide DiskInv, JobsInv, Numbering, InStep, LogsMatch, Layers, ReadsAgree;
  }

  /** A write that returned: until another record with an operation on the key is completed, and through
      crashes and restarts, the key is answered by the last operation the write has on it; a put by its
      value, a delete by nothing. */
  lemma WriteIsAnswered(states: seq<State>, steps: seq<Step>, k: nat, j: nat, n: nat)
    requires CleanRun(states, steps) && k < j <= |steps| && steps[k].EndWrite? && states[j].mode.Up?
    requires states[k].p.write.Applying? && IsLastOn(states[k].p.write.batch, n)
    requires Untouched(states, steps, states[k].p.write.batch.ops[n].key, k, j)
    ensures var op := states[k].p.write.batch.ops[n];
            var got := LayeredGet(states[j].p, states[j].disk, op.key, states[j].p.lastSequence);
            (op.Put? ==> got == Some(op.value)) && (op.Delete? ==> got == None)
  {
    hide Inv, Enabled, Next, CleanReuse, LayeredGet, Read, InFlight, Touches;
    var b := states[k].p.write.batch;
    var key := b.ops[n].key;
    RunInv(states, steps, k);
    RunInv(states, steps, k + 1);
    RunInv(states, steps, j);
    EndedWrite(states[k], steps[k]);
    InFlightIsNew(states[k]);
    InFlightIsNew(states[k + 1]);
    InFlightIsNew(states[j]);
    LastOperationAnswers(b, states[k].history, n, b.Last());
    KeyRests(states, steps, key, k + 1, j);
    SameVersionsRead(states[j].history, states[k + 1].history, key, states[j].p.lastSequence,
                     states[k + 1].p.lastSequence);
    GetFollowsHistory(states[j], key, states[j].p.lastSequence);
  }

  // ---- References ----

  /** How often the version is taken, and given back, by the steps from i to j. */
  ghost function Takes(states: seq<State>, steps: seq<Step>, v: set<nat>, i: nat, j: nat): nat
    requires |states| == |steps| + 1 && i <= j <= |steps|
    decreases j
  {
    if i == j then 0
    else Takes(states, steps, v, i, j - 1) + if steps[j - 1].PinVersion? && states[j - 1].p.current == v then 1 else 0
  }

  ghost function Drops(steps: seq<Step>, v: set<nat>, i: nat, j: nat): nat
    requires i <= j <= |steps|
    decreases j
  {
    if i == j then 0 else Drops(steps, v, i, j - 1) + if steps[j - 1] == UnpinVersion(v) then 1 else 0
  }

  ghost predicate PinsKept(s: State, t: State) { t.p.pinned == s.p.pinned && t.mode.Up? }

  lemma FlushKeepsPins(s: State, step: Step)
    requires s.mode.Up? && Enabled(s, step) && (step.BeginFlush? || step.BuildTable? || Flushes(step))
    ensures PinsKept(s, Next(s, step))
  {
    hide TableEntries, Live, EditNow;
  }

  lemma MergeKeepsPins(s: State, step: Step)
    requires s.mode.Up? && Enabled(s, step) && (step.OpenOutput? || step.WriteOutput? || Merges(step))
    ensures PinsKept(s, Next(s, step))
  {
    hide Compaction.GoodInputs, Compaction.Contents, TableEntries, Live, EditNow;
  }

  lemma OthersKeepPins(s: State, step: Step)
    requires s.mode.Up? && Enabled(s, step) && !step.Crash? && !step.PinVersion? && !step.UnpinVersion?
    requires !step.BeginFlush? && !step.BuildTable? && !Flushes(step)
    requires !step.OpenOutput? && !step.WriteOutput? && !Merges(step)
    ensures PinsKept(s, Next(s, step))
  {
    hide TableEntries, Live, Collectable, Extended;
  }

  lemma PinsChange(s: State, step: Step, v: set<nat>)
    requires s.mode.Up? && Enabled(s, step) && !step.Crash?
    ensures Next(s, step).mode.Up?
    ensures Next(s, step).p.pinned[v] + (if step == UnpinVersion(v) then 1 else 0)
            == s.p.pinned[v] + if step.PinVersion? && s.p.current == v then 1 else 0
  {
    if !step.PinVersion? && !step.UnpinVersion? {
      hide Enabled, Next, Flushes, Merges;
      if step.BeginFlush? || step.BuildTable? || Flushes(step) {
        FlushKeepsPins(s, step);
      } else if step.OpenOutput? || step.WriteOutput? || Merges(step) {
        MergeKeepsPins(s, step);
      } else {
        OthersKeepPins(s, step);
      }
    }
  }

  /** The engine counts references: as many are there as were taken and not given back. */
  lemma {:induction false} PinsAreCounted(states: seq<State>, steps: seq<Step>, v: set<nat>, i: nat, j: nat)
    requires Run(states, steps) && i <= j <= |steps| && states[i].mode.Up? && forall k | i <= k < j :: !steps[k].Crash?
    ensures states[j].mode.Up?
    ensures states[j].p.pinned[v] + Drops(steps, v, i, j) == states[i].p.pinned[v] + Takes(states, steps, v, i, j)
    decreases j
  {
    hide Enabled, Next;
    if i < j {
      PinsAreCounted(states, steps, v, i, j - 1);
      PinsChange(states[j - 1], steps[j - 1], v);
    }
  }

  /** Of the version taken by step i, others have given back no more references than they have taken. */
  ghost predicate Fair(states: seq<State>, steps: seq<Step>, i: nat, k: nat)
    requires |states| == |steps| + 1 && i < k <= |steps|
  {
    var v := states[i].p.current;
    Drops(steps, v, i + 1, k) <= states[i].p.pinned[v] + Takes(states, steps, v, i + 1, k)
  }

  /** A Get that took its version with step i holds it as long as others give back no more references
      than they have taken; so it reads to the end of that. */
  lemma TakenIsHeld(states: seq<State>, steps: seq<Step>, i: nat, j: nat)
    requires Run(states, steps) && i < j <= |steps| && steps[i].PinVersion? && states[i].mode.Up?
    requires forall k | i <= k < j :: !steps[k].Crash?
    requires forall k: nat | i < k <= j :: Fair(states, steps, i, k)
    ensures Reading(states, steps, i, j)
  {
    hide Enabled, Next;
    var v := states[i].p.current;
    PinsChange(states[i], steps[i], v);
    forall k: nat | i < k <= j ensures v in states[k].p.pinned {
      assert Fair(states, steps, i, k);
      PinsAreCounted(states, steps, v, i + 1, k);
    }
  }

  // ---- Errors ----

  ghost predicate ErrorKept(s: State, t: State) {
    t.mode.Up? && (s.p.bgError ==> t.p.bgError) && (s.p.shutdown ==> t.p.shutdown)
  }

  lemma FlushKeepsError(s: State, step: Step)
    requires s.mode.Up? && Enabled(s, step) && (step.BeginFlush? || step.BuildTable? || Flushes(step))
    ensures ErrorKept(s, Next(s, step)) && (step.FailFlush? ==> Next(s, step).p.bgError)
  {
    hide TableEntries, Live, EditNow;
  }

  lemma MergeKeepsError(s: State, step: Step)
    requires s.mode.Up? && Enabled(s, step) && (step.OpenOutput? || step.WriteOutput? || Merges(step))
    ensures ErrorKept(s, Next(s, step)) && (step.FailMerge? ==> Next(s, step).p.bgError)
  {
    hide Compaction.GoodInputs, Compaction.Contents, TableEntries, Live, EditNow;
  }

  lemma OthersKeepError(s: State, step: Step)
    requires s.mode.Up? && Enabled(s, step) && !step.Crash?
    requires !step.BeginFlush? && !step.BuildTable? && !Flushes(step)
    requires !step.OpenOutput? && !step.WriteOutput? && !Merges(step)
    ensures ErrorKept(s, Next(s, step))
  {
    hide TableEntries, Live, Collectable, Extended;
  }

  lemma ErrorStays(s: State, step: Step)
    requires s.mode.Up? && Enabled(s, step) && !step.Crash?
    ensures ErrorKept(s, Next(s, step)) && (step.FailFlush? || step.FailMerge? ==> Next(s, step).p.bgError)
    ensures step.ShutDown? ==> Next(s, step).p.shutdown
  {
    hide Enabled, Next, Flushes, Merges, ErrorKept;
    if step.BeginFlush? || step.BuildTable? || Flushes(step) {
      FlushKeepsError(s, step);
    } else if step.OpenOutput? || step.WriteOutput? || Merges(step) {
      MergeKeepsError(s, step);
    } else {
      OthersKeepError(s, step);
    }
    IsFlushOrMerge(step);
    if step.ShutDown? {
      ShutDownIsNoted(s);
    }
  }

  lemma ShutDownIsNoted(s: State)
    requires s.mode.Up?
    ensures Next(s, ShutDown).p.shutdown
  {
  }

  lemma IsFlushOrMerge(step: Step)
    ensures step.FailFlush? ==> Flushes(step)
    ensures step.FailMerge? ==> Merges(step) && !Flushes(step)
  {
  }

  /** After a background failure, until the process ends, no write begins, no memtable is switched,
      nothing is scheduled anew, and no file is deleted. */
  lemma {:induction false} FailureStopsAll(states: seq<State>, steps: seq<Step>, i: nat, j: nat)
    requires Run(states, steps) && i < j <= |steps| && states[i].mode.Up?
    requires steps[i].FailFlush? || steps[i].FailMerge?
    requires forall k | i <= k < j :: !steps[k].Crash?
    ensures states[j].mode.Up? && states[j].p.bgError
    ensures forall ops, bytes :: !Enabled(states[j], BeginAppend(ops, bytes))
    ensures !Enabled(states[j], SwitchMemtable)
    ensures forall tables, logs, job :: !Enabled(states[j], Collect(job, tables, logs))
    ensures forall needs :: MaybeSchedule(states[j].p, needs) == states[j].p
    decreases j
  {
    hide Next;
    if j > i + 1 {
      FailureStopsAll(states, steps, i, j - 1);
    }
    ErrorStays(states[j - 1], steps[j - 1]);
  }

  /** After a shutdown was asked for, until the process ends, no table is finished, no compaction begins or
      finishes, and nothing is scheduled anew. */
  lemma {:induction false} ShutdownStopsWork(states: seq<State>, steps: seq<Step>, i: nat, j: nat)
    requires Run(states, steps) && i < j <= |steps| && states[i].mode.Up? && steps[i].ShutDown?
    requires forall k | i <= k < j :: !steps[k].Crash?
    ensures states[j].mode.Up? && states[j].p.shutdown
    ensures forall job :: !Enabled(states[j], BuildTable(job)) && !Enabled(states[j], FinishMerge(job))
    ensures forall step: Step | step.BeginMerge? :: !Enabled(states[j], step)
    ensures forall needs :: MaybeSchedule(states[j].p, needs) == states[j].p
    decreases j
  {
    hide Next;
    if j > i + 1 {
      ShutdownStopsWork(states, steps, i, j - 1);
    }
    ErrorStays(states[j - 1], steps[j - 1]);
  }
}
