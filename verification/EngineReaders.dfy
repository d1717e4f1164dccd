/** A Get takes its snapshot, its memtables and its version under the mutex and looks at them later,
    while writes, switches, flushes, compactions and file collections go on. */
module EngineReaders {
  import opened Wrappers
  import opened Entries
  import opened EngineState
  import opened EngineInvariant
  import opened EngineRestart
  import opened EngineTheorems

  /** Nobody switched memtables between the two states. */
  ghost predicate Unswitched(steps: seq<Step>, i: nat, j: nat)
    requires i <= j <= |steps|
  {
    forall k | i <= k < j :: !steps[k].SwitchMemtable?
  }

  /** What the memtable of state i holds in state j: it grows until it is switched and rests after that. */
  ghost function MemtableOf(states: seq<State>, steps: seq<Step>, i: nat, j: nat): set<Entry>
    requires |states| == |steps| + 1 && i <= j <= |steps|
    decreases j
  {
    if Unswitched(steps, i, j) then states[j].p.mem
    else assert j > i; MemtableOf(states, steps, i, j - 1)
  }

  /** The process stays up from state i to state j, and the reader keeps its reference to the version
      it took. */
  ghost predicate Reading(states: seq<State>, steps: seq<Step>, i: nat, j: nat) {
    && |states| == |steps| + 1 && i <= j <= |steps| && states[i].mode.Up?
    && (forall k | i <= k < j :: !steps[k].Crash?)
    && forall k | i < k <= j :: states[i].p.current in states[k].p.pinned
  }

  // ---- The memtable ----

  /** A step other than a switch adds to the memtable only what is newer than anything finished. */
  ghost predicate OnlyNewer(s: State, t: State) {
    && t.mode.Up? && s.p.mem <= t.p.mem && s.p.lastSequence <= t.p.lastSequence
    && forall e | e in t.p.mem && e !in s.p.mem :: e.sequence > s.p.lastSequence
  }

  lemma FlushesAddNothing(s: State, step: Step)
    requires s.mode.Up? && Enabled(s, step)
    requires step.BeginFlush? || step.BuildTable? || Flushes(step)
    ensures OnlyNewer(s, Next(s, step))
  {
    hide TableEntries, Live, EditNow;
  }

  lemma MergesAddNothing(s: State, step: Step)
    requires s.mode.Up? && Enabled(s, step)
    requires step.OpenOutput? || step.WriteOutput? || Merges(step)
    ensures OnlyNewer(s, Next(s, step))
  {
    hide Compaction.GoodInputs, Compaction.Contents, TableEntries, Live, EditNow;
  }

  lemma ApplyAddsNewer(s: State)
    requires s.mode.Up? && WriteInv(s.p) && CanApplyOne(s)
    ensures OnlyNewer(s, EntryApplied(s))
  {
  }

  lemma OthersAddNothing(s: State, step: Step)
    requires s.mode.Up? && Enabled(s, step) && !step.SwitchMemtable? && !step.Crash? && !step.ApplyOne?
    requires !step.BeginFlush? && !step.BuildTable? && !Flushes(step)
    requires !step.OpenOutput? && !step.WriteOutput? && !Merges(step)
    ensures OnlyNewer(s, Next(s, step))
  {
    hide TableEntries, Live, Collectable, Extended;
  }

  lemma StepAddsOnlyNewer(s: State, step: Step)
    requires s.mode.Up? && Inv(s) && Enabled(s, step) && !step.SwitchMemtable? && !step.Crash?
    ensures OnlyNewer(s, Next(s, step))
  {
    hide Inv, Enabled, Next, OnlyNewer, Flushes, Merges;
    if step.BeginFlush? || step.BuildTable? || Flushes(step) {
      FlushesAddNothing(s, step);
    } else if step.OpenOutput? || step.WriteOutput? || Merges(step) {
      MergesAddNothing(s, step);
    } else if step.ApplyOne? {
      assert WriteInv(s.p) by { WritesAreNumbered(s); }
      ApplyIsApply(s, step);
      ApplyAddsNewer(s);
    } else {
      OthersAddNothing(s, step);
    }
  }

  lemma WritesAreNumbered(s: State)
    requires s.mode.Up? && Inv(s)
    ensures WriteInv(s.p)
  {
    hide DiskInv, JobsInv, Numbering, InStep, LogsMatch, WriteInv, Layers, ReadsAgree;
  }

  lemma ApplyIsApply(s: State, step: Step)
    requires Enabled(s, step) && step.ApplyOne?
    ensures CanApplyOne(s) && Next(s, step) == EntryApplied(s)
  {
  }

  lemma SwitchKeepsCounting(s: State, step: Step)
    requires s.mode.Up? && Enabled(s, step) && step.SwitchMemtable?
    ensures Next(s, step).mode.Up? && Next(s, step).p.lastSequence == s.p.lastSequence
  {
  }

  /** The memtable of state i gains nothing a reader of that state could see. */
  lemma {:induction false} MemtableGrows(states: seq<State>, steps: seq<Step>, i: nat, j: nat)
    requires CleanRun(states, steps) && Reading(states, steps, i, j)
    ensures states[j].mode.Up? && states[i].p.lastSequence <= states[j].p.lastSequence
    ensures var mem := MemtableOf(states, steps, i, j);
            && states[i].p.mem <= mem && UniqueSeqs(mem)
            && forall e | e in mem && e !in states[i].p.mem :: e.sequence > states[i].p.lastSequence
    decreases j
  {
    hide Inv, Enabled, Next, CleanReuse;
    RunInv(states, steps, j);
    if j > i {
      MemtableGrows(states, steps, i, j - 1);
      RunInv(states, steps, j - 1);
      if steps[j - 1].SwitchMemtable? {
        SwitchKeepsCounting(states[j - 1], steps[j - 1]);
      } else {
        StepAddsOnlyNewer(states[j - 1], steps[j - 1]);
      }
    }
    LayersAreUnique(states[j]);
  }

  // ---- The tables ----

  /** The files of a version somebody holds stay as they are. */
  lemma {:induction false} VersionRests(states: seq<State>, steps: seq<Step>, i: nat, j: nat)
    requires CleanRun(states, steps) && Reading(states, steps, i, j)
    ensures forall t | t in states[i].p.current ::
              t in states[j].disk.tables && t in states[i].disk.tables
              && states[j].disk.tables[t] == states[i].disk.tables[t]
    decreases j
  {
    hide Inv, Enabled, Next, CleanReuse;
    RunInv(states, steps, i);
    CurrentOnDisk(states[i]);
    if j > i {
      VersionRests(states, steps, i, j - 1);
      MemtableGrows(states, steps, i, j - 1);
      RunInv(states, steps, j - 1);
      forall t | t in states[i].p.current
        ensures t in states[j].disk.tables && states[j].disk.tables[t] == states[i].disk.tables[t]
      {
        assert t in Live(states[j - 1].p);
        LiveTablesNeverChange(states[j - 1], steps[j - 1], t);
      }
    }
  }

  lemma CurrentOnDisk(s: State)
    requires s.mode.Up? && Inv(s)
    ensures s.p.current <= s.disk.tables.Keys
  {
    NeededFilesExist(s);
    assert s.p.current <= Live(s.p);
  }

  // ---- The answer ----

  /** Get with what it took in state i: the memtable as it is in state j, the immutable memtable, and the
      version's files as they are in state k. */
  ghost function SlowGet(states: seq<State>, steps: seq<Step>, i: nat, j: nat, k: nat, key: UserKey,
                         snapshot: nat): Option<Value>
    requires |states| == |steps| + 1 && i <= j <= k <= |steps|
  {
    var mem, imm := MemtableOf(states, steps, i, j), ImmEntries(states[i].p);
    if Sees(mem, key, snapshot) then Read(mem, key, snapshot)
    else if Sees(imm, key, snapshot) then Read(imm, key, snapshot)
    else Read(TableEntries(states[k].disk.tables, states[i].p.current), key, snapshot)
  }

  lemma NewerIsInvisible(mem: set<Entry>, more: set<Entry>, last: nat, key: UserKey, s: nat)
    requires s <= last && mem <= more && UniqueSeqs(more)
    requires forall e | e in more && e !in mem :: e.sequence > last
    ensures Sees(more, key, s) == Sees(mem, key, s) && Read(more, key, s) == Read(mem, key, s)
  {
    if Sees(more, key, s) {
      var e := NewestExists(more, key, s);
      assert Newest(mem, key, s, e);
      ReadIs(more, key, s, e);
      ReadIs(mem, key, s, e);
    }
  }

  /** However long it takes, the answer is that of the history at the moment the Get began. */
  lemma SlowGetFollowsHistory(states: seq<State>, steps: seq<Step>, i: nat, j: nat, k: nat, key: UserKey,
                              snapshot: nat)
    requires CleanRun(states, steps) && i <= j <= k && Reading(states, steps, i, k)
    requires Readable(states[i].p, snapshot)
    ensures SlowGet(states, steps, i, j, k, key, snapshot) == Read(states[i].history, key, snapshot)
  {
    hide CleanRun, Inv, Sees, Read;
    var s := states[i];
    RunInv(states, steps, i);
    ReadableIsOld(s, snapshot);
    MemtableGrows(states, steps, i, j);
    NewerIsInvisible(s.p.mem, MemtableOf(states, steps, i, j), s.p.lastSequence, key, snapshot);
    VersionRests(states, steps, i, k);
    TableFrame(s.disk.tables, states[k].disk.tables, s.p.current);
    GetFollowsHistory(s, key, snapshot);
  }

  lemma ReadableIsOld(s: State, snapshot: nat)
    requires s.mode.Up? && Inv(s) && Readable(s.p, snapshot)
    ensures snapshot <= s.p.lastSequence
  {
    hide DiskInv, FilesInv, FlushInv, MergeInv, OneJob;
  }
}
