/** The merge loop inside the engine: its output files are opened and written by steps of the machine,
    between which anything else may happen, and when it is through the compaction can finish. */
module EngineOutputs {
  import opened Entries
  import opened EngineState
  import opened EngineInvariant
  import opened EngineRestart
  import opened EngineTheorems
  import opened CompactionWork
  import Compaction

  /** The output files opened so far, in their order, hold what the loop has put into its outputs; a file
      just opened is still empty. */
  ghost predicate Holds(s: State, ns: seq<nat>, outs: seq<Output>) {
    && s.mode.Up? && s.p.Merge().Merging?
    && (forall n :: n in ns <==> n in s.p.Merge().outputs)
    && |outs| <= |ns| <= |outs| + 1 && AllFaithful(outs)
    && (forall a: nat, b: nat | a < b < |ns| :: ns[a] != ns[b])
    && forall k: nat | k < |ns| ::
         ns[k] in s.disk.tables
             && s.disk.tables[ns[k]] == if k < |outs| then Compaction.Contents(outs[k].entries) else {}
  }

  /** The loop added an entry, to a new output or to the last. */
  ghost predicate HasOneMore(outs: seq<Output>, building: bool, outs': seq<Output>)
    requires AllFaithful(outs) && (building ==> |outs| > 0)
  {
    exists e :: outs' == AddEntry(outs, building, e)
  }

  /** A file is opened under the next number; one more entry goes to the file opened last, which is then
      as long as the loop's last output; every other step is somebody else's. */
  ghost predicate Tracks(s: State, step: Step, ns: seq<nat>, outs: seq<Output>, ns': seq<nat>, outs': seq<Output>) {
    match step
    case OpenOutput(_) => |ns| == |outs| && ns' == ns + [s.p.nextFile] && outs' == outs
    case WriteOutput(_, number, contents) =>
      && ns' == ns && |ns| > 0 && number == ns[|ns| - 1] && AllFaithful(outs) && |outs| <= |ns| == |outs'|
      && contents == Compaction.Contents(outs'[|outs'| - 1].entries)
      && HasOneMore(outs, |ns| == |outs|, outs')
    case _ => ns' == ns && outs' == outs
  }

  ghost predicate Ends(step: Step) { step.FinishMerge? || step.FailMerge? || step.Crash? }

  // ---- Steps of the loop ----

  lemma OutputsArePending(s: State)
    requires s.mode.Up? && Inv(s) && s.p.Merge().Merging?
    ensures |s.p.jobs| == 1 && s.p.queued == 0 && s.p.scheduled
    ensures Outputs(s.p) <= s.p.pending && TablesBelow(s.p.pending, s.p.nextFile)
    ensures s.p.Flush().Building? ==> s.p.Flush().number !in Outputs(s.p)
    ensures s.p.Merge().outputs <= s.disk.tables.Keys
  {
    hide DiskInv, InStep, LogsMatch, WriteInv, Layers, ReadsAgree, PlanInv, MergeEdit, FlushEdit, SnapshotsInv, Live;
  }

  lemma OpenHolds(s: State, step: Step, ns: seq<nat>, outs: seq<Output>, ns': seq<nat>, outs': seq<Output>)
    requires Inv(s) && Holds(s, ns, outs) && Enabled(s, step) && step.OpenOutput?
    requires Tracks(s, step, ns, outs, ns', outs')
    ensures Holds(Next(s, step), ns', outs') && Next(s, step).p.Merge().plan == s.p.Merge().plan
  {
    hide Inv, AllFaithful, Compaction.Contents;
    OutputsArePending(s);
    assert forall n | n in ns :: n < s.p.nextFile;
    assert forall k: nat | k < |ns| :: ns[k] in ns;
  }

  lemma WriteHolds(s: State, step: Step, ns: seq<nat>, outs: seq<Output>, ns': seq<nat>, outs': seq<Output>)
    requires Inv(s) && Holds(s, ns, outs) && Enabled(s, step) && step.WriteOutput?
    requires Tracks(s, step, ns, outs, ns', outs')
    ensures Holds(Next(s, step), ns', outs') && Next(s, step).p.Merge().plan == s.p.Merge().plan
  {
    hide Inv, AllFaithful, Compaction.Contents, Flatten;
    OutputsArePending(s);
    var e :| outs' == AddEntry(outs, |ns| == |outs|, e);
    assert forall k: nat | k < |ns| - 1 :: outs'[k] == outs[k];
  }

  // ---- Steps of others ----

  lemma OthersAreApart(s: State, step: Step)
    requires s.mode.Up? && |s.p.jobs| == 1 && s.p.queued == 0 && s.p.scheduled && s.p.Merge().Merging?
    requires Enabled(s, step) && !Ends(step) && !step.OpenOutput? && !step.WriteOutput?
    requires !Flushes(step) && !step.BeginFlush? && !step.BuildTable?
    ensures Next(s, step).mode.Up? && Next(s, step).p.jobs == s.p.jobs
  {
    hide Compaction.GoodInputs, TableEntries, Live, Extended, Collectable;
  }

  lemma FlushesAreApart(s: State, step: Step)
    requires s.mode.Up? && |s.p.jobs| == 1 && s.p.Merge().Merging?
    requires Enabled(s, step) && (Flushes(step) || step.BeginFlush? || step.BuildTable?)
    ensures Next(s, step).mode.Up? && Next(s, step).p.Merge() == s.p.Merge()
  {
    hide TableEntries, Live, EditNow;
  }

  lemma OutputRests(s: State, step: Step, n: nat)
    requires s.mode.Up? && Inv(s) && s.p.Merge().Merging? && n in s.p.Merge().outputs
    requires Enabled(s, step) && !Ends(step) && !step.OpenOutput? && !step.WriteOutput?
    ensures n in s.disk.tables && n in Next(s, step).disk.tables && Next(s, step).disk.tables[n] == s.disk.tables[n]
  {
    hide Inv, Flushes, Merges, Enabled, Next;
    OutputsArePending(s);
    if step.Collect? {
      CollectSparesPending(s, step, n);
    } else if WritesTables(step) {
      FlushSparesOutput(s, step, n);
    } else if Flushes(step) {
      FlushesKeepTables(s, step);
    } else if Merges(step) {
      MergesKeepTables(s, step);
    } else {
      OthersKeepTables(s, step);
    }
  }

  lemma CollectSparesPending(s: State, step: Step, n: nat)
    requires s.mode.Up? && Enabled(s, step) && step.Collect? && n in s.p.pending && n in s.disk.tables
    ensures n in Next(s, step).disk.tables && Next(s, step).disk.tables[n] == s.disk.tables[n]
  {
    hide Live;
  }

  lemma FlushSparesOutput(s: State, step: Step, n: nat)
    requires s.mode.Up? && |s.p.jobs| == 1 && Enabled(s, step) && (step.BeginFlush? || step.BuildTable?)
    requires n in s.disk.tables && n < s.p.nextFile && (s.p.Flush().Building? ==> s.p.Flush().number != n)
    ensures n in Next(s, step).disk.tables && Next(s, step).disk.tables[n] == s.disk.tables[n]
  {
    hide TableEntries, Live, EditNow;
  }

  lemma OtherHolds(s: State, step: Step, ns: seq<nat>, outs: seq<Output>)
    requires Inv(s) && Holds(s, ns, outs) && Enabled(s, step)
    requires !Ends(step) && !step.OpenOutput? && !step.WriteOutput?
    ensures Holds(Next(s, step), ns, outs) && Next(s, step).p.Merge().plan == s.p.Merge().plan
  {
    hide Inv, Enabled, Next, AllFaithful, Compaction.Contents, Flushes;
    OutputsArePending(s);
    if Flushes(step) || step.BeginFlush? || step.BuildTable? {
      FlushesAreApart(s, step);
    } else {
      OthersAreApart(s, step);
    }
    forall k: nat | k < |ns|
      ensures ns[k] in s.disk.tables && ns[k] in Next(s, step).disk.tables
              && Next(s, step).disk.tables[ns[k]] == s.disk.tables[ns[k]]
    {
      assert ns[k] in ns;
      OutputRests(s, step, ns[k]);
    }
  }

  // ---- The end of the loop ----

  lemma {:induction false} FlattenFrom(outs: seq<Output>, e: Entry)
    requires e in Flatten(outs)
    ensures exists k: nat :: k < |outs| && e in outs[k].entries
  {
    var n := |outs| - 1;
    if e !in outs[n].entries {
      FlattenFrom(outs[..n], e);
      var k: nat :| k < n && e in outs[..n][k].entries;
      assert e in outs[k].entries;
    }
  }

  /** The files together hold what the loop has kept so far. */
  lemma FilesHoldAll(s: State, ns: seq<nat>, outs: seq<Output>)
    requires Holds(s, ns, outs)
    ensures TableEntries(s.disk.tables, s.p.Merge().outputs) == Compaction.Contents(Flatten(outs))
  {
    hide Flatten, AllFaithful;
    var files := TableEntries(s.disk.tables, s.p.Merge().outputs);
    forall e | e in files ensures e in Flatten(outs) {
      var n :| n in s.p.Merge().outputs && n in s.disk.tables && e in s.disk.tables[n];
      var k: nat :| k < |ns| && ns[k] == n;
      FlattenHas(outs, k, e);
    }
    forall e | e in Flatten(outs) ensures e in files {
      FlattenFrom(outs, e);
      var k: nat :| k < |outs| && e in outs[k].entries;
      assert ns[k] in ns && e in s.disk.tables[ns[k]];
    }
  }

  /** All of the merge's entries are in the outputs: the compaction can finish. */
  lemma KeptEnablesFinish(s: State, ns: seq<nat>, outs: seq<Output>)
    requires Inv(s) && Holds(s, ns, outs) && s.p.Flush().NoFlush? && !s.p.shutdown
    requires var plan := s.p.Merge().plan;
             Flatten(outs) == Compaction.Kept(plan.entries, |plan.entries|, plan.smallest, plan.base)
    ensures CanFinishMerge(s, 0)
  {
    hide Inv, Flatten, AllFaithful, Compaction.Kept;
    OutputsArePending(s);
    FilesHoldAll(s, ns, outs);
  }

  // ---- A whole compaction ----

  /** From the step after a compaction began to state b, the outputs change only as the loop has it. */
  ghost predicate Loops(states: seq<State>, steps: seq<Step>, a: nat, b: nat, ns: seq<seq<nat>>,
                        outs: seq<seq<Output>>) {
    && |states| == |steps| + 1 == |ns| == |outs| && a < b <= |steps| && states[a].mode.Up? && steps[a].BeginMerge?
    && ns[a + 1] == [] && outs[a + 1] == []
    && forall k | a < k < b :: !Ends(steps[k]) && Tracks(states[k], steps[k], ns[k], outs[k], ns[k + 1], outs[k + 1])
  }

  lemma BeginHolds(s: State, step: Step)
    requires s.mode.Up? && Inv(s) && Enabled(s, step) && step.BeginMerge?
    ensures Holds(Next(s, step), [], [])
    ensures var plan := Next(s, step).p.Merge().plan;
            plan.inputs == step.inputs && plan.entries == step.entries && plan.base == step.base
  {
    hide DiskInv, FilesInv, FlushInv, MergeInv, SnapshotsInv, Compaction.GoodInputs, TableEntries;
  }

  lemma {:induction false} LoopHolds(states: seq<State>, steps: seq<Step>, a: nat, b: nat, ns: seq<seq<nat>>,
                                     outs: seq<seq<Output>>)
    requires CleanRun(states, steps) && Loops(states, steps, a, b, ns, outs)
    ensures Holds(states[b], ns[b], outs[b]) && states[a + 1].p.Merge().Merging?
    ensures states[b].p.Merge().plan == states[a + 1].p.Merge().plan
    decreases b
  {
    hide Inv, Enabled, Next, CleanReuse, Holds, Ends, Tracks;
    if b == a + 1 {
      RunInv(states, steps, a);
      BeginHolds(states[a], steps[a]);
      MergesUnder(states[b], ns[b], outs[b]);
    } else {
      var k := b - 1;
      LoopHolds(states, steps, a, k, ns, outs);
      RunInv(states, steps, k);
      MergesUnder(states[k], ns[k], outs[k]);
      StepHolds(states[k], steps[k], ns[k], outs[k], ns[b], outs[b]);
    }
  }

  lemma MergesUnder(s: State, ns: seq<nat>, outs: seq<Output>)
    requires Holds(s, ns, outs)
    ensures s.mode.Up? && s.p.Merge().Merging?
  {
  }

  lemma StepHolds(s: State, step: Step, ns: seq<nat>, outs: seq<Output>, ns': seq<nat>, outs': seq<Output>)
    requires Inv(s) && Holds(s, ns, outs) && Enabled(s, step) && !Ends(step)
    requires Tracks(s, step, ns, outs, ns', outs')
    ensures Holds(Next(s, step), ns', outs') && Next(s, step).p.Merge().Merging? && s.p.Merge().Merging?
    ensures Next(s, step).p.Merge().plan == s.p.Merge().plan
  {
    hide Inv, Enabled, Next, AllFaithful, Ends;
    if step.OpenOutput? {
      OpenHolds(s, step, ns, outs, ns', outs');
    } else if step.WriteOutput? {
      WriteHolds(s, step, ns, outs, ns', outs');
    } else {
      OtherHolds(s, step, ns, outs);
    }
  }

  /** Whatever writers, readers and a flush of the compaction's own job did in between: once the loop has
      put out everything it keeps, which is what DoCompactionWork returns, the step that builds the
      compaction's edit is enabled, unless a flush is under way or a shutdown was asked for. */
  lemma LoopEnablesFinish(states: seq<State>, steps: seq<Step>, a: nat, b: nat, ns: seq<seq<nat>>,
                          outs: seq<seq<Output>>)
    requires CleanRun(states, steps) && Loops(states, steps, a, b, ns, outs)
    requires states[a + 1].p.Merge().Merging?
    requires var plan := states[a + 1].p.Merge().plan;
             Flatten(outs[b]) == Compaction.Kept(plan.entries, |plan.entries|, plan.smallest, plan.base)
    requires states[b].p.Flush().NoFlush? && !states[b].p.shutdown
    ensures Enabled(states[b], FinishMerge(0))
  {
    hide Inv, Holds, Flatten, Compaction.Kept, CleanReuse, Tracks, Ends, CanFinishMerge;
    LoopHolds(states, steps, a, b, ns, outs);
    RunInv(states, steps, b);
    MergesUnder(states[b], ns[b], outs[b]);
    KeptEnablesFinish(states[b], ns[b], outs[b]);
  }

  /** And the loop's own steps are never in its way: it can open a file and write to the last. */
  lemma LoopGoesOn(s: State, ns: seq<nat>, outs: seq<Output>, contents: set<Entry>)
    requires Inv(s) && Holds(s, ns, outs) && s.p.Flush().NoFlush?
    ensures Enabled(s, OpenOutput(0))
    ensures |ns| > 0 ==> Enabled(s, WriteOutput(0, ns[|ns| - 1], contents))
  {
    hide Inv, AllFaithful;
    OutputsArePending(s);
    if |ns| > 0 {
      assert ns[|ns| - 1] in ns;
    }
  }
}
