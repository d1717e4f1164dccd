/** From every state of a run the engine can go on: a write can end, a full memtable can be flushed, a database
    that is down can be opened; and what a compaction makes superfluous can go. */
module EngineProgress {
  import opened Wrappers
  import opened Entries
  import opened WriteBatch
  import opened EngineState
  import opened EngineInvariant
  import opened EngineRestart
  import opened EngineTheorems
  import opened EngineAnswers
  import Compaction

  // ---- Going on ----

  /** The run goes on, and without a crash, a failure or a shutdown. */
  ghost predicate GoesOn(states: seq<State>, steps: seq<Step>, states': seq<State>, steps': seq<Step>) {
    && |states| == |steps| + 1 && CleanRun(states', steps')
    && |steps| <= |steps'| && states <= states' && steps <= steps'
    && forall k | |steps| <= k < |steps'| :: Harmless(steps'[k])
  }

  predicate Harmless(step: Step) {
    !step.Crash? && !step.FailFlush? && !step.FailMerge? && !step.ShutDown? && !step.BreakOff?
  }

  lemma OneMore(states: seq<State>, steps: seq<Step>, step: Step) returns (states': seq<State>, steps': seq<Step>)
    requires CleanRun(states, steps) && Enabled(states[|steps|], step) && CleanReuse(states[|steps|], step)
    requires Harmless(step)
    ensures states' == states + [Next(states[|steps|], step)] && steps' == steps + [step]
    ensures GoesOn(states, steps, states', steps')
  {
    hide Enabled, Next, CleanReuse;
    states', steps' := states + [Next(states[|steps|], step)], steps + [step];
    forall i | 0 <= i < |steps'|
      ensures Enabled(states'[i], steps'[i]) && states'[i + 1] == Next(states'[i], steps'[i])
              && CleanReuse(states'[i], steps'[i])
    {
      assert i < |steps| ==> states'[i] == states[i] && states'[i + 1] == states[i + 1] && steps'[i] == steps[i];
    }
  }

  lemma OnAndOn(states: seq<State>, steps: seq<Step>, states1: seq<State>, steps1: seq<Step>,
                states2: seq<State>, steps2: seq<Step>)
    requires GoesOn(states, steps, states1, steps1) && GoesOn(states1, steps1, states2, steps2)
    ensures GoesOn(states, steps, states2, steps2)
  {
    hide CleanRun, Harmless;
    forall k | |steps| <= k < |steps2| ensures Harmless(steps2[k]) {
      assert k < |steps1| ==> steps2[k] == steps1[k];
    }
  }

  // ---- Writes ----

  /** What the front writer does next. */
  function WriteStep(w: Write): Step
    requires !w.NoWrite?
  {
    if w.Appending? then EndAppend else if w.done < |w.batch.ops| then ApplyOne else EndWrite
  }

  function StepsLeft(w: Write): int {
    match w
    case NoWrite => 0
    case Appending(b, _, _) => |b.ops| + 2
    case Applying(b, done, _) => |b.ops| - done + 1
  }

  lemma WriteGoesOn(s: State)
    requires Inv(s) && s.mode.Up? && !s.p.write.NoWrite?
    ensures Enabled(s, WriteStep(s.p.write))
    ensures var s' := Next(s, WriteStep(s.p.write));
            && s'.mode.Up? && s'.p.bgError == s.p.bgError && StepsLeft(s'.p.write) == StepsLeft(s.p.write) - 1 >= 0
            && (if s'.p.write.NoWrite? then s'.history == s.history + s.p.write.batch.All() && s.p.write.Applying?
                else s'.history == s.history && s'.p.write.batch == s.p.write.batch)
  {
    hide DiskInv, TableEntries, Live, Extended, Layers, ReadsAgree, JobsInv, InStep;
  }

  /** A write that has begun can end, whatever else has happened: nothing it needs is ever taken away. */
  lemma {:induction false} WriteCanEnd(states: seq<State>, steps: seq<Step>)
    returns (states': seq<State>, steps': seq<Step>)
    requires CleanRun(states, steps) && states[|steps|].mode.Up? && !states[|steps|].p.write.NoWrite?
    ensures GoesOn(states, steps, states', steps')
    ensures |steps'| == |steps| + StepsLeft(states[|steps|].p.write) && |steps'| > |steps|
    ensures var k, b := |steps'| - 1, states[|steps|].p.write.batch;
            && steps'[k].EndWrite? && states'[k].p.write.Applying? && states'[k].p.write.batch == b
            && states'[k + 1].mode.Up? && states'[k + 1].p.write.NoWrite?
            && states'[k + 1].history == states[|steps|].history + b.All()
    decreases StepsLeft(states[|steps|].p.write)
  {
    hide Enabled, Next, Inv;
    var s := states[|steps|];
    RunInv(states, steps, |steps|);
    WriteGoesOn(s);
    var step := WriteStep(s.p.write);
    states', steps' := OneMore(states, steps, step);
    var t := states'[|steps'|];
    if !t.p.write.NoWrite? {
      var states1, steps1 := states', steps';
      states', steps' := WriteCanEnd(states1, steps1);
      OnAndOn(states, steps, states1, steps1, states', steps');
    }
  }

  /** When no write is under way and nothing has failed, any batch can be written, and is then answered. */
  lemma AnyBatchCanBeServed(states: seq<State>, steps: seq<Step>, ops: seq<Op>, bytes: nat, n: nat)
    returns (states': seq<State>, steps': seq<Step>)
    requires CleanRun(states, steps) && states[|steps|].mode.Up? && states[|steps|].p.write.NoWrite?
    requires !states[|steps|].p.bgError && states[|steps|].p.lastSequence + |ops| < MaxSequence
    requires IsLastOn(Batch(0, ops), n)
    ensures GoesOn(states, steps, states', steps')
    ensures var t := states'[|steps'|];
            && t.mode.Up? && t.p.write.NoWrite?
            && LayeredGet(t.p, t.disk, ops[n].key, t.p.lastSequence)
               == if ops[n].Put? then Some(ops[n].value) else None
  {
    hide Enabled, Next, Inv;
    var s := states[|steps|];
    RunInv(states, steps, |steps|);
    WriteCanBegin(s, ops, bytes);
    var states1, steps1 := OneMore(states, steps, BeginAppend(ops, bytes));
    states', steps' := WriteCanEnd(states1, steps1);
    OnAndOn(states, steps, states1, steps1, states', steps');
    var k := |steps'| - 1;
    assert states'[k].p.write.batch.ops == ops;
    assert IsLastOn(states'[k].p.write.batch, n);
    assert Untouched(states', steps', ops[n].key, k, k + 1);
    WriteIsAnswered(states', steps', k, k + 1, n);
  }

  lemma WriteCanBegin(s: State, ops: seq<Op>, bytes: nat)
    requires Inv(s) && s.mode.Up? && s.p.write.NoWrite? && !s.p.bgError && s.p.lastSequence + |ops| < MaxSequence
    ensures Enabled(s, BeginAppend(ops, bytes))
    ensures var s' := Next(s, BeginAppend(ops, bytes));
            s'.mode.Up? && s'.p.write.Appending? && s'.p.write.batch.ops == ops && s'.history == s.history
  {
    hide DiskInv, TableEntries, Live, Layers, ReadsAgree, JobsInv, InStep;
  }

  // ---- Flushes ----

  /** What brings a full immutable memtable closer to its table. */
  function FlushStep(p: Process): Step {
    if p.jobs == [] then BeginJob
    else if p.jobs[0].merge.Installing? then CommitMerge(0)
    else if p.jobs[0].merge.Installed? then InstallMerge(0)
    else
      match p.jobs[0].flush
      case NoFlush => BeginFlush(0)
      case Building(_) => BuildTable(0)
      case Committing(_, _) => CommitFlush(0)
      case Durable(_, _) => InstallFlush(0)
  }

  function Distance(p: Process): (d: nat)
    ensures d <= 6
  {
    if p.imm.None? then 0
    else if p.jobs == [] then 5
    else if p.jobs[0].merge.Installing? then 6
    else if p.jobs[0].merge.Installed? then 5
    else
      match p.jobs[0].flush
      case NoFlush => 4
      case Building(_) => 3
      case Committing(_, _) => 2
      case Durable(_, _) => 1
  }

  /** Nothing keeps the background from working. */
  ghost predicate Works(s: State) { s.mode.Up? && !s.p.bgError && !s.p.shutdown }

  lemma FlushGoesOn(s: State)
    requires Inv(s) && Works(s) && s.p.imm.Some?
    ensures Enabled(s, FlushStep(s.p)) && Harmless(FlushStep(s.p)) && !FlushStep(s.p).Restore?
    ensures var s' := Next(s, FlushStep(s.p));
            Works(s') && s'.history == s.history && Distance(s'.p) == Distance(s.p) - 1 >= 0
  {
    hide Inv;
    JobIsReady(s);
  }

  lemma JobIsReady(s: State)
    requires Inv(s) && Works(s) && s.p.imm.Some?
    ensures s.p.queued + |s.p.jobs| == 1
    ensures |s.p.jobs| == 1 && !s.p.jobs[0].flush.NoFlush? ==>
              s.p.jobs[0].merge.NoMerge? || s.p.jobs[0].merge.Merging?
  {
    hide DiskInv, FilesInv, MergeInv, FlushEdit;
  }

  /** A full immutable memtable can be flushed, a compaction in between or not: in six steps at most. */
  lemma {:induction false} FlushCanEnd(states: seq<State>, steps: seq<Step>)
    returns (states': seq<State>, steps': seq<Step>)
    requires CleanRun(states, steps) && Works(states[|steps|])
    ensures GoesOn(states, steps, states', steps')
    ensures |steps'| == |steps| + Distance(states[|steps|].p) <= |steps| + 6
    ensures var t := states'[|steps'|];
            Works(t) && t.p.imm.None? && t.history == states[|steps|].history
    decreases Distance(states[|steps|].p)
  {
    hide Enabled, Next, Inv;
    var s := states[|steps|];
    if s.p.imm.None? {
      states', steps' := states, steps;
    } else {
      RunInv(states, steps, |steps|);
      FlushGoesOn(s);
      var states1, steps1 := OneMore(states, steps, FlushStep(s.p));
      states', steps' := FlushCanEnd(states1, steps1);
      OnAndOn(states, steps, states1, steps1, states', steps');
    }
  }

  // ---- Opening ----

  /** A database that is not up can be opened, with everything written so far, whatever its logs hold. */
  lemma OpenCanEnd(states: seq<State>, steps: seq<Step>) returns (states': seq<State>, steps': seq<Step>)
    requires CleanRun(states, steps) && !states[|steps|].mode.Up?
    ensures GoesOn(states, steps, states', steps') && |steps'| <= |steps| + 3
    ensures var t := states'[|steps'|];
            Works(t) && t.p.write.NoWrite? && t.p.imm.None? && t.history == states[|steps|].history
  {
    hide Enabled, Next, Inv;
    states', steps' := states, steps;
    if states[|steps|].mode.Down? {
      RunInv(states, steps, |steps|);
      var step := RestoreCanRun(states[|steps|]);
      states', steps' := OneMore(states, steps, step);
    }
    if states'[|steps'|].mode.Opening? {
      var states1, steps1 := states', steps';
      CommitOpenRuns(states1[|steps1|]);
      states', steps' := OneMore(states1, steps1, CommitOpen);
      OnAndOn(states, steps, states1, steps1, states', steps');
    }
    var states2, steps2 := states', steps';
    RunInv(states2, steps2, |steps2|);
    OpeningIsFresh(states2, steps2, |steps2|);
    FinishOpenRuns(states2[|steps2|]);
    states', steps' := OneMore(states2, steps2, FinishOpen(false));
    OnAndOn(states, steps, states2, steps2, states', steps');
  }

  lemma RestoreCanRun(s: State) returns (step: Step)
    requires s.mode.Down?
    ensures Harmless(step) && Enabled(s, step) && CleanReuse(s, step)
    ensures Next(s, step).mode.Opening? && Next(s, step).history == s.history
  {
    hide LogsFrom, TableEntries, RecoveredSequence, IsMaxSequence;
    var d := s.disk;
    var logged := LogsFrom(d.logs, d.manifest.logNumber);
    var most := MaximumExists(Replayed(d), d.manifest.nextFile);
    var split: map<nat, set<Entry>> := if logged == {} then map[] else map[most + 1 := logged];
    InTables(split, logged, most + 1);
    step := Restore(split, false, most + 2, most + 3, true);
  }

  lemma InTables(split: map<nat, set<Entry>>, es: set<Entry>, n: nat)
    requires split == if es == {} then map[] else map[n := es]
    ensures TableEntries(split, split.Keys) == es
  {
    forall e | e in es ensures e in TableEntries(split, split.Keys) {
      assert n in split.Keys && e in split[n];
    }
  }

  lemma CommitOpenRuns(s: State)
    requires s.mode.Opening?
    ensures Enabled(s, CommitOpen)
    ensures Next(s, CommitOpen).mode.Collecting? && Next(s, CommitOpen).history == s.history
  {
  }

  /** A process that opens a database has seen no failure. */
  ghost predicate FreshIfOpening(s: State) {
    s.mode.Opening? || s.mode.Collecting? ==> !s.p.bgError && !s.p.shutdown
  }

  lemma StaysFresh(s: State, step: Step)
    requires FreshIfOpening(s) && Enabled(s, step)
    ensures FreshIfOpening(Next(s, step))
  {
    if s.mode.Up? && !step.Crash? {
      hide Enabled, Next;
      ErrorStays(s, step);
    } else {
      hide TableEntries, LogsFrom, LogEntries, Collectable, RecoveredSequence, IsLastLog, Replayed, Cut, InFlight;
    }
  }

  lemma {:induction false} OpeningIsFresh(states: seq<State>, steps: seq<Step>, n: nat)
    requires Run(states, steps) && n <= |steps|
    ensures FreshIfOpening(states[n])
  {
    hide Enabled, Next;
    if n > 0 {
      OpeningIsFresh(states, steps, n - 1);
      StaysFresh(states[n - 1], steps[n - 1]);
    }
  }

  lemma FinishOpenRuns(s: State)
    requires Inv(s) && s.mode.Collecting? && FreshIfOpening(s)
    ensures Enabled(s, FinishOpen(false))
    ensures var t := Next(s, FinishOpen(false));
            Works(t) && t.p.write.NoWrite? && t.p.imm.None? && t.history == s.history
  {
    hide DiskInv, ProcInv;
  }

  // ---- Garbage ----

  /** Of all the versions of a key that the oldest snapshot sees a compaction keeps one, and not even that if
      it is a deletion marker over a base level. */
  lemma MergeReclaims(s: State, j: nat, inputs: set<nat>, entries: seq<Entry>, above: set<Entry>, deeper: set<Entry>,
                      base: UserKey -> bool, a: Entry, b: Entry)
    requires Inv(s) && CanBeginMerge(s, j, inputs, entries, above, deeper, base)
    requires MergeBegun(s, j, inputs, entries, above, deeper, base).p.jobs[j].merge.Merging?
    requires var kept := MergeBegun(s, j, inputs, entries, above, deeper, base).p.jobs[j].merge.plan.Kept();
             a in kept && b in kept && a.user == b.user
    requires var oldest := if s.p.snapshots == [] then s.p.lastSequence else s.p.snapshots[0];
             a.sequence <= oldest && b.sequence <= oldest
    ensures a == b && (base(a.user) ==> a.Answer().Some?)
  {
    hide Inv, TableEntries;
    InputsParse(s, j, inputs, entries, above, deeper, base);
    var plan := MergeBegun(s, j, inputs, entries, above, deeper, base).p.jobs[j].merge.plan;
    Compaction.OnePerKey(plan.entries, plan.smallest, plan.base, a, b);
  }

  lemma InputsParse(s: State, j: nat, inputs: set<nat>, entries: seq<Entry>, above: set<Entry>, deeper: set<Entry>,
                    base: UserKey -> bool)
    requires Inv(s) && CanBeginMerge(s, j, inputs, entries, above, deeper, base)
    ensures forall e | e in entries :: e.Parses()
  {
    hide LogLayers, ManifestInv, Covered, JobsInv, LogsMatch, WriteInv, Layers, Numbering, InStep, SameReads;
    forall e | e in entries ensures e.Parses() {
      assert e in Compaction.Contents(entries);
      assert e in TableEntries(s.disk.tables, inputs);
      assert e in View(s.p, s.disk);
    }
  }

  /** When a compaction is installed, its inputs may go as soon as no reader holds a version with them. */
  lemma ReplacedTablesCanGo(s: State, t: nat)
    requires Inv(s) && s.mode.Up? && !s.p.bgError && |s.p.jobs| > 0 && s.p.jobs[0].merge.Installed?
    requires t in s.p.jobs[0].merge.plan.inputs && t !in PinnedTables(s.p.pinned)
    ensures var s1 := MergeInstalled(s, 0);
            CanCollect(s1, 0, {t}, {}) && t !in Collected(s1, 0, {t}, {}).disk.tables
  {
    hide Inv;
    InputsAreCurrent(s);
    hide PinnedTables;
    var s1 := MergeInstalled(s, 0);
    assert Live(s1.p) == s1.p.current + PinnedTables(s1.p.pinned);
  }

  lemma InputsAreCurrent(s: State)
    requires Inv(s) && s.mode.Up? && |s.p.jobs| > 0 && s.p.jobs[0].merge.Installed?
    ensures |s.p.jobs| == 1 && s.p.jobs[0].flush.NoFlush?
    ensures var m := s.p.jobs[0].merge;
            && m.plan.inputs <= s.p.current && m.edit.tables == s.p.current - m.plan.inputs + m.outputs
            && s.p.current !! s.p.pending && m.outputs <= s.p.pending
  {
    hide DiskInv, TableEntries, Layers, ReadsAgree, InStep, LogsMatch, WriteInv, Compaction.Contents,
         Compaction.GoodInputs;
  }

  /** When a flush is installed, the logs before the current one may go. */
  lemma FlushedLogsCanGo(s: State, n: nat)
    requires Inv(s) && s.mode.Up? && !s.p.bgError && |s.p.jobs| > 0 && s.p.jobs[0].flush.Durable?
    requires n < s.p.logfile
    ensures var s1 := FlushInstalled(s, 0);
            CanCollect(s1, 0, {}, {n}) && n !in Collected(s1, 0, {}, {n}).disk.logs
  {
    hide DiskInv, TableEntries, Layers, ReadsAgree, InStep, LogsMatch, WriteInv;
  }

  // ---- Scheduling ----

  /** Work that is asked for, or waiting, is scheduled, unless the engine has failed or shuts down; and
      nothing is scheduled without work. */
  lemma WorkIsScheduled(s: State, step: Step)
    requires Inv(s) && s.mode.Up? && Enabled(s, step)
    ensures step.AskForCompaction? ==> (Next(s, step).p.scheduled <==> s.p.scheduled || (!s.p.shutdown && !s.p.bgError))
    ensures step.SwitchMemtable? ==> (Next(s, step).p.scheduled <==> s.p.scheduled || !s.p.shutdown)
    ensures step.EndJob? ==> (Next(s, step).p.scheduled <==>
                                !s.p.shutdown && !s.p.bgError && (s.p.imm.Some? || step.needs))
  {
    hide DiskInv, FilesInv, TableEntries;
  }
}
