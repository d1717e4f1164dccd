/** What the invariant means to a user of the database, over whole runs. */
module EngineTheorems {
  import opened Wrappers
  import opened Entries
  import opened EngineState
  import opened WriteBatch
  import opened LogFormat
  import opened EngineInvariant
  import opened EngineJobs
  import opened EngineRestart

  // ---- Reading ----

  /** Get: the memtable, then the immutable memtable, then the tables; the first that has
      anything for the key at the snapshot answers. */
  ghost function LayeredGet(p: Process, d: Disk, key: UserKey, snapshot: nat): Option<Value> {
    if Sees(p.mem, key, snapshot) then Read(p.mem, key, snapshot)
    else if Sees(ImmEntries(p), key, snapshot) then Read(ImmEntries(p), key, snapshot)
    else Read(TableEntries(d.tables, p.current), key, snapshot)
  }

  /** Sequence numbers reads may use: the latest, or any live snapshot's. */
  ghost predicate Readable(p: Process, snapshot: nat) {
    snapshot == p.lastSequence || snapshot in p.snapshots
  }

  lemma UnfinishedIsInvisible(mem: set<Entry>, last: nat, key: UserKey, s: nat)
    requires s <= last && UniqueSeqs(mem)
    ensures Sees(mem, key, s) == Sees(Finished(mem, last), key, s)
    ensures Read(mem, key, s) == Read(Finished(mem, last), key, s)
  {
    if Sees(mem, key, s) {
      var e := NewestExists(mem, key, s);
      assert Newest(Finished(mem, last), key, s, e);
      ReadIs(mem, key, s, e);
      ReadIs(Finished(mem, last), key, s, e);
    }
  }

  lemma LayersAreUnique(s: State)
    requires s.mode.Up? && Inv(s)
    ensures UniqueSeqs(s.p.mem) && UniqueSeqs(View(s.p, s.disk))
    ensures Above(Finished(s.p.mem, s.p.lastSequence), ImmEntries(s.p) + TableEntries(s.disk.tables, s.p.current))
    ensures Above(ImmEntries(s.p), TableEntries(s.disk.tables, s.p.current))
  {
    assert View(s.p, s.disk) <= s.history <= s.history + InFlight(s.p);
    assert s.p.mem <= s.history + InFlight(s.p);
  }

  /** A read at the latest sequence number or at any live snapshot answers like the whole
      history of writes, whatever flushes, compactions, half-applied writes and restarts have
      happened. */
  lemma GetFollowsHistory(s: State, key: UserKey, snapshot: nat)
    requires s.mode.Up? && Inv(s) && Readable(s.p, snapshot)
    ensures LayeredGet(s.p, s.disk, key, snapshot) == Read(s.history, key, snapshot)
  {
    var p := s.p;
    var mem, imm, tables := Finished(p.mem, p.lastSequence), ImmEntries(p), TableEntries(s.disk.tables, p.current);
    LayersAreUnique(s);
    assert s.floor <= snapshot <= p.lastSequence;
    UnfinishedIsInvisible(p.mem, p.lastSequence, key, snapshot);
    assert mem + (imm + tables) == View(p, s.disk);
    ReadLayered(mem, imm + tables, key, snapshot);
    ReadLayered(imm, tables, key, snapshot);
  }

  // ---- Whole runs ----

  lemma {:induction false} HistoryGrows(states: seq<State>, steps: seq<Step>, i: nat, j: nat)
    requires Run(states, steps) && i <= j <= |steps|
    ensures states[i].history <= states[j].history
  {
    hide Enabled, Next;
    if i < j {
      HistoryGrows(states, steps, i, j - 1);
      StepGrowsHistory(states[j - 1], steps[j - 1]);
    }
  }

  lemma StepGrowsHistory(s: State, step: Step)
    requires Enabled(s, step)
    ensures s.history <= Next(s, step).history
  {
    hide CanCollect, Collectable, EditNow, Extended, Compaction.GoodInputs, Compaction.Contents, TableEntries, Live,
         MaybeSchedule, CutThrough, Cut, EndAfter, Logged, InFlight;
  }

  /** Crash safety: at every moment of a run what a restart would find reads like everything
      written so far, the batch in flight included once its log record is complete. */
  lemma NothingIsLost(states: seq<State>, steps: seq<Step>, n: nat)
    requires CleanRun(states, steps) && n <= |steps|
    ensures var s := states[n];
            SameReads(s.history + InFlight(s.p), Recoverable(s.disk), s.floor)
                && s.floor <= s.disk.manifest.lastSequence
  {
    RunInv(states, steps, n);
    var s := states[n];
    assert s.p.write.NoWrite? ==> s.history + InFlight(s.p) == s.history;
  }

  /** A write that returned stays in the history for good, and every later read at the latest
      sequence number, before or after restarts, answers like that history. */
  lemma FinishedWritesSurvive(states: seq<State>, steps: seq<Step>, i: nat, j: nat, key: UserKey)
    requires CleanRun(states, steps) && i < j <= |steps| && steps[i].EndWrite?
    ensures states[i].p.write.Applying? && states[i].p.write.batch.All() <= states[j].history
    ensures states[j].mode.Up? ==>
              LayeredGet(states[j].p, states[j].disk, key, states[j].p.lastSequence)
              == Read(states[j].history, key, states[j].p.lastSequence)
  {
    assert CanEndWrite(states[i]);
    HistoryGrows(states, steps, i + 1, j);
    RunInv(states, steps, j);
    if states[j].mode.Up? {
      GetFollowsHistory(states[j], key, states[j].p.lastSequence);
    }
  }

  /** Sequence numbers in the memtable exceed those in the immutable memtable, which exceed
      those in the tables, in every state of a run. */
  lemma LayersStayOrdered(states: seq<State>, steps: seq<Step>, n: nat)
    requires CleanRun(states, steps) && n <= |steps| && states[n].mode.Up?
    ensures var p := states[n].p;
            Layers(p.mem, ImmEntries(p), TableEntries(states[n].disk.tables, p.current))
  {
    RunInv(states, steps, n);
  }

  /** Never two background jobs, and never a full immutable memtable without one. */
  lemma OneBackgroundJob(states: seq<State>, steps: seq<Step>, n: nat)
    requires CleanRun(states, steps) && n <= |steps| && states[n].mode.Up?
    ensures var p := states[n].p;
            && p.queued + |p.jobs| <= 1
            && (p.imm.Some? && !p.shutdown && !p.bgError ==> p.queued + |p.jobs| == 1)
  {
    RunInv(states, steps, n);
  }

  // ---- Files ----

  /** The files somebody still needs are on disk: every live and every committed table, the
      outputs of a running compaction, and a flushed table that is built but not committed. */
  lemma NeededFilesExist(s: State)
    requires s.mode.Up? && Inv(s)
    ensures Live(s.p) <= s.disk.tables.Keys && s.disk.manifest.tables <= s.disk.tables.Keys
    ensures Outputs(s.p) <= s.disk.tables.Keys
    ensures s.p.Flush().Committing? && ImmEntries(s.p) != {} ==>
              s.p.Flush().number in s.disk.tables && s.disk.tables[s.p.Flush().number] == ImmEntries(s.p)
  {
  }

  lemma LiveIsKept(s: State, t: nat)
    requires s.mode.Up? && Inv(s) && t in Live(s.p)
    ensures t in s.disk.tables && t < s.p.nextFile && t !in s.p.pending
    ensures Outputs(s.p) <= s.p.pending && |s.p.jobs| <= 1
    ensures forall j | 0 <= j < |s.p.jobs| && s.p.jobs[j].flush.Building? :: s.p.jobs[j].flush.number in s.p.pending
  {
    hide DiskInv, ReadsAgree, Layers, LogsMatch, WriteInv, PlanInv, FlushEdit, MergeEdit, TableEntries, LogsFrom,
         LogEntries, SameReads, Live, VersionsInUse;
    assert OneJob(s.p, true);
    forall j | 0 <= j < |s.p.jobs| && s.p.jobs[j].flush.Building? ensures s.p.jobs[j].flush.number in s.p.pending {
      assert j == 0;
    }
  }

  ghost predicate WritesTables(step: Step) {
    step.BeginFlush? || step.BuildTable? || step.OpenOutput? || step.WriteOutput? || step.Collect?
  }

  ghost predicate Flushes(step: Step) { step.FailFlush? || step.CommitFlush? || step.InstallFlush? }

  ghost predicate Merges(step: Step) {
    step.BeginMerge? || step.FinishMerge? || step.FailMerge? || step.CommitMerge? || step.InstallMerge?
  }

  lemma FlushesKeepTables(s: State, step: Step)
    requires s.mode.Up? && Enabled(s, step) && Flushes(step)
    ensures Next(s, step).disk.tables == s.disk.tables
  {
  }

  lemma MergesKeepTables(s: State, step: Step)
    requires s.mode.Up? && Enabled(s, step) && Merges(step)
    ensures Next(s, step).disk.tables == s.disk.tables
  {
    hide EditNow, CanBeginMerge, CanFinishMerge, MergeBegun;
    match step
    case BeginMerge(j, inputs, entries, above, deeper, base) => BeginMergeKeepsTables(s, j, inputs, entries, above,
                                                                                      deeper, base);
    case FinishMerge(_) =>
    case FailMerge(_) =>
    case CommitMerge(_) =>
    case InstallMerge(_) =>
  }

  lemma BeginMergeKeepsTables(s: State, j: nat, inputs: set<nat>, entries: seq<Entry>, above: set<Entry>,
                              deeper: set<Entry>,
                              base: UserKey -> bool)
    requires CanBeginMerge(s, j, inputs, entries, above, deeper, base)
    ensures MergeBegun(s, j, inputs, entries, above, deeper, base).disk == s.disk
  {
    hide Compaction.GoodInputs, TableEntries;
  }

  lemma OthersKeepTables(s: State, step: Step)
    requires s.mode.Up? && Enabled(s, step) && !WritesTables(step) && !Flushes(step) && !Merges(step)
    ensures Next(s, step).disk.tables == s.disk.tables
  {
    hide Extended, MaybeSchedule, CutThrough, Cut, EndAfter, Logged, InFlight;
  }

  lemma CollectSpares(s: State, step: Step, t: nat)
    requires s.mode.Up? && Enabled(s, step) && step.Collect? && t in Live(s.p) && t in s.disk.tables
    ensures t in Next(s, step).disk.tables && Next(s, step).disk.tables[t] == s.disk.tables[t]
  {
    hide Live;
  }

  lemma WritersSpare(s: State, step: Step, t: nat)
    requires s.mode.Up? && Enabled(s, step) && WritesTables(step) && !step.Collect?
    requires t in s.disk.tables && t < s.p.nextFile && t !in s.p.pending && Outputs(s.p) <= s.p.pending
    requires |s.p.jobs| <= 1
    requires forall j | 0 <= j < |s.p.jobs| && s.p.jobs[j].flush.Building? :: s.p.jobs[j].flush.number in s.p.pending
    ensures t in Next(s, step).disk.tables && Next(s, step).disk.tables[t] == s.disk.tables[t]
  {
    hide Compaction.GoodInputs, Live, Logged, Compaction.Contents, EditNow, TableEntries;
  }

  /** A table some version in use names is never deleted and never rewritten. */
  lemma LiveTablesNeverChange(s: State, step: Step, t: nat)
    requires s.mode.Up? && Inv(s) && Enabled(s, step) && t in Live(s.p)
    ensures t in Next(s, step).disk.tables && Next(s, step).disk.tables[t] == s.disk.tables[t]
  {
    hide Inv, Enabled, Next, Live, WritesTables, Flushes, Merges;
    LiveIsKept(s, t);
    if step.Collect? {
      CollectSpares(s, step, t);
    } else if WritesTables(step) {
      WritersSpare(s, step, t);
    } else if Flushes(step) {
      FlushesKeepTables(s, step);
    } else if Merges(step) {
      MergesKeepTables(s, step);
    } else {
      OthersKeepTables(s, step);
    }
  }

  /** A job that collects has no flush of its own under way, and there is no other job: so nothing has. */
  lemma NoFlushElsewhere(s: State, j: nat, tables: set<nat>, logs: set<nat>)
    requires s.mode.Up? && Inv(s) && CanCollect(s, j, tables, logs)
    ensures forall i | 0 <= i < |s.p.jobs| :: i == j && s.p.jobs[i].flush.NoFlush?
    ensures s.disk.manifest.tables == s.p.current && s.disk.manifest.logNumber == s.p.logNumber
  {
    hide DiskInv, FlushInv, MergeInv, SnapshotsInv, Numbering, LogsMatch, WriteInv, Layers, ReadsAgree, Collectable;
    OnlyJob(s, j);
  }

  /** File collection deletes nothing a restart, a reader, a running compaction or a flush on its way to
      the manifest needs. A flushed table is neither live nor pending while its edit is being committed;
      what keeps it is that the collecting job is the only one. */
  lemma CollectionIsSafe(s: State, j: nat, tables: set<nat>, logs: set<nat>)
    requires s.mode.Up? && Inv(s) && CanCollect(s, j, tables, logs)
    ensures var s' := Collected(s, j, tables, logs);
            && Recoverable(s'.disk) == Recoverable(s.disk)
            && Live(s.p) <= s'.disk.tables.Keys && Outputs(s.p) <= s'.disk.tables.Keys
            && s.p.logfile in s'.disk.logs
    ensures Uncommitted(s.p.jobs) !! tables
  {
    var s' := Collected(s, j, tables, logs);
    NoFlushElsewhere(s, j, tables, logs);
    TableFrame(s.disk.tables, s'.disk.tables, s.p.current);
    LogFrame(s.disk.logs, s'.disk.logs, s.p.logNumber, 0);
  }

  /** Flushed tables whose edits are not durable yet. */
  ghost function Uncommitted(jobs: seq<Job>): set<nat> {
    set i | 0 <= i < |jobs| && jobs[i].flush.Committing? :: jobs[i].flush.number
  }

  /** With a second job, whatever else held, a collection could take such a table away. */
  lemma TwoJobsWouldCollide(s: State, i: nat, j: nat)
    requires s.mode.Up? && !s.p.bgError && i < |s.p.jobs| && j < |s.p.jobs| && i != j
    requires s.p.jobs[i].flush.Committing? && s.p.jobs[j] == Job(NoFlush, NoMerge)
    requires s.p.jobs[i].flush.number !in Live(s.p) + s.p.pending
    ensures var n := s.p.jobs[i].flush.number;
            CanCollect(s, j, {n}, {}) && n in Uncommitted(s.p.jobs) && n !in Collected(s, j, {n}, {}).disk.tables
  {
    hide Live;
  }

  // ---- Keeping a log that ends in an incomplete record ----

  /** A write has returned, no write is in flight, and a restart would not find it. */
  ghost predicate HasLostAWrite(s: State) {
    s.mode.Up? && s.p.write.NoWrite? && exists e :: e in s.history && e !in Recoverable(s.disk) && s.history == {e}
  }

  lemma OpenEmpty(d: Disk)
    requires d.manifest.lastSequence == 0 && forall n | n in Replayed(d) :: d.logs[n].batches == []
    ensures RecoveredSequence(d) == 0
  {
    assert Lasts(d) == {};
    assert IsMaxSequence(d, RecoveredSequence(d));
  }

  const Idle := FreshProcess.(logfile := 3, logNumber := 3, nextFile := 4)
  const FirstManifest := Manifest({}, 3, 0, 4)

  /** A log with nothing to be found in it, and the log that a crash leaves six bytes into a first record. */
  const Torn := LogFile([], 6, BlockSize)

  ghost function OneLog(log: LogFile, m: Manifest): Disk { Disk(map[], map[3 := log], m) }

  lemma FirstOpen()
    ensures CanRestore(NewDatabase, map[], false, 3, 4, true)
    ensures Restored(NewDatabase, map[], false, 3, 4, true)
            == State(OneLog(EmptyLog, NewDatabase.disk.manifest), Opening(FirstManifest), Idle, {}, 0)
  {
    OpenEmpty(NewDatabase.disk);
    var none: map<nat, set<Entry>> := map[];
    assert none + none == none && NewDatabase.disk.manifest.tables + none.Keys == {};
  }

  lemma SecondOpen(s: State)
    requires s == State(OneLog(Torn, FirstManifest), Down, FreshProcess, {}, 0)
    ensures CanRestore(s, map[], true, 3, 5, false)
    ensures Restored(s, map[], true, 3, 5, false) == s.(mode := Collecting, p := Idle.(nextFile := 5))
  {
    assert Logged([]) == {};
    assert LogsFrom(s.disk.logs, 3) == {};
    OpenEmpty(s.disk);
    assert IsLastLog(s.disk, 3);
    var none: map<nat, set<Entry>> := map[];
    assert none + none == none && s.disk.manifest.tables + none.Keys == {};
  }

  ghost predicate Reachable(s: State) {
    exists states, steps :: Run(states, steps) && states[|steps|] == s
  }

  lemma ReachStep(s: State, step: Step)
    requires Reachable(s) && Enabled(s, step)
    ensures Reachable(Next(s, step))
  {
    hide Enabled, Next;
    var states, steps :| Run(states, steps) && states[|steps|] == s;
    var states', steps' := states + [Next(s, step)], steps + [step];
    forall i | 0 <= i < |steps'|
      ensures Enabled(states'[i], steps'[i]) && states'[i + 1] == Next(states'[i], steps'[i])
    {
      assert i < |steps| ==> states'[i] == states[i] && states'[i + 1] == states[i + 1] && steps'[i] == steps[i];
    }
    assert Run(states', steps');
  }

  lemma Start()
    ensures Reachable(NewDatabase)
  {
    assert Run([NewDatabase], []);
  }

  lemma FirstUp(s3: State)
    requires s3 == State(OneLog(EmptyLog, FirstManifest), Up, Idle, {}, 0)
    ensures Reachable(s3)
  {
    hide Reachable, CanRestore, Live, TableEntries, Logged;
    var none: map<nat, set<Entry>> := map[];
    Start();
    FirstOpen();
    var s1 := Restored(NewDatabase, none, false, 3, 4, true);
    ReachStep(NewDatabase, Restore(none, false, 3, 4, true));
    ReachStep(s1, CommitOpen);
    ReachStep(OpenDurable(s1), FinishOpen(false));
  }

  lemma CutShort(s: State)
    requires s == State(OneLog(Torn, FirstManifest), Down, FreshProcess, {}, 0)
    ensures Reachable(s)
  {
    hide Reachable, Live, TableEntries, Logged;
    var s3 := State(OneLog(EmptyLog, FirstManifest), Up, Idle, {}, 0);
    FirstUp(s3);
    ReachStep(s3, BeginAppend([Put(1.0, "aaaaaaaaaa")], 30));
    var s4 := AppendBegun(s3, [Put(1.0, "aaaaaaaaaa")], 30);
    ReachStep(s4, Crash(6));
    assert Crashed(s4, 6) == s;
  }

  lemma Reused(s: State) returns (s': State)
    requires s == State(OneLog(Torn, FirstManifest), Down, FreshProcess, {}, 0)
    ensures Reachable(s') && s' == s.(mode := Up, p := Idle.(nextFile := 5))
  {
    hide Reachable, Live, Logged, TableEntries, LogsFrom, CanRestore;
    CutShort(s);
    SecondOpen(s);
    ReachStep(s, Restore(map[], true, 3, 5, false));
    s' := Restored(s, map[], true, 3, 5, false);
    ReachStep(s', FinishOpen(false));
    s' := OpenDone(s', false);
  }

  /** A write runs from its beginning to its return. */
  lemma WholeWrite(s: State, b: Batch, bytes: nat) returns (s': State)
    requires Reachable(s) && CanBeginAppend(s, b.ops, bytes) && b == Batch(s.p.lastSequence + 1, b.ops) && |b.ops| == 1
    ensures Reachable(s') && s'.mode.Up? && s'.p.write.NoWrite? && s'.history == s.history + b.All()
    ensures s'.disk == s.disk.(logs := s.disk.logs[s.p.logfile := Extended(s.disk.logs[s.p.logfile], b, bytes)])
  {
    hide Reachable, Extended, EndAfter, TableEntries, Logged;
    ReachStep(s, BeginAppend(b.ops, bytes));
    s' := AppendBegun(s, b.ops, bytes);
    ReachStep(s', EndAppend);
    s' := AppendEnded(s');
    ReachStep(s', ApplyOne);
    s' := EntryApplied(s');
    ReachStep(s', EndWrite);
    s' := WriteEnded(s');
  }

  /** Recovery does not look for an incomplete record before it reuses a log, so a run can lose a
      write that returned: a first write is cut short, the restart keeps the log, and the next
      write, which succeeds, lands behind the stump. */
  lemma TornReuseLosesAWrite()
    ensures exists s :: Reachable(s) && HasLostAWrite(s)
  {
    hide Reachable, Live;
    var b := Batch(1, [Put(2.0, "b")]);
    var e := b.EntryAt(0);
    assert b.All() == {e};
    var s := Reused(State(OneLog(Torn, FirstManifest), Down, FreshProcess, {}, 0));
    s := WholeWrite(s, b, 20);
    assert s.disk == OneLog(Torn.(length := 33), FirstManifest);
    assert Recoverable(s.disk) == {} by { assert Logged([]) == {}; }
    assert s.history == {e};
    assert HasLostAWrite(s);
  }
}
