/** Crashes and restarts keep the invariant, and what it means over whole runs. */
module EngineRestart {
  import opened Wrappers
  import opened Entries
  import opened EngineState
  import opened LogFormat
  import opened EngineInvariant
  import opened EngineJobs

  lemma InitInv()
    ensures Inv(NewDatabase)
  {
    var d := NewDatabase.disk;
    assert Recoverable(d) == {};
  }

  lemma KeepsCrash(s: State, written: nat)
    requires CanCrash(s, written) && Inv(s)
    ensures Inv(Crashed(s, written))
  {
    hide LogLayers, Logged, SameReads, TableEntries, UniqueSeqs, Sound, UpTo, FilesInv, JobsInv, LogEntries, EndAfter,
         CutThrough;
    LogFrame(s.disk.logs, Crashed(s, written).disk.logs, s.disk.manifest.logNumber, 0);
    assert s.p.write.NoWrite? ==> s.history + InFlight(s.p) == s.history;
  }

  /** An open may die anywhere before its edit is committed. */
  lemma KeepsBreakOff(s: State, left: map<nat, set<Entry>>, log: Option<nat>)
    requires CanBreakOff(s, left, log) && Inv(s)
    ensures Inv(BrokenOff(s, left, log))
  {
    TableFrame(s.disk.tables, s.disk.tables + left, s.disk.manifest.tables);
    if log.Some? {
      assert forall n | n in s.disk.logs && n >= s.disk.manifest.logNumber :: n in Replayed(s.disk);
      LogAdded(s.disk.logs, log.value, s.disk.manifest.logNumber);
    }
  }

  // ---- Restarting ----

  /** The replayed entries are those the restart writes to tables and those it keeps in the
      reused log's memtable. */
  lemma RestoreSplit(s: State, split: map<nat, set<Entry>>, reuse: bool, newLog: nat, nextFile: nat, newManifest: bool)
    requires CanRestore(s, split, reuse, newLog, nextFile, newManifest) && Inv(s)
    ensures var s', d := Restored(s, split, reuse, newLog, nextFile, newManifest), s.disk;
            && newLog in s'.disk.logs && d.manifest.logNumber <= newLog
            && (forall n | n in s'.disk.logs :: n <= newLog)
            && Logged(s'.disk.logs[newLog].batches) == s'.p.mem
            && LogsFrom(s'.disk.logs, newLog) == s'.p.mem
            && LogsFrom(d.logs, d.manifest.logNumber) == TableEntries(split, split.Keys) + s'.p.mem
            && LogsFrom(s'.disk.logs, d.manifest.logNumber) == LogsFrom(d.logs, d.manifest.logNumber)
            && LogEntries(s'.disk.logs, d.manifest.logNumber, newLog) == TableEntries(split, split.Keys)
  {
    var s', d := Restored(s, split, reuse, newLog, nextFile, newManifest), s.disk;
    var from := d.manifest.logNumber;
    assert Logged([]) == {};
    assert forall n | n in d.logs && n >= from :: n in Replayed(d);
    if !reuse {
      LogAdded(d.logs, newLog, from);
    }
    LogSplit(s'.disk.logs, from, newLog);
  }

  lemma RestoreTables(s: State, split: map<nat, set<Entry>>, reuse: bool, newLog: nat, nextFile: nat, newManifest: bool)
    requires CanRestore(s, split, reuse, newLog, nextFile, newManifest) && Inv(s)
    ensures var s', d := Restored(s, split, reuse, newLog, nextFile, newManifest), s.disk;
            && TableEntries(s'.disk.tables, d.manifest.tables) == TableEntries(d.tables, d.manifest.tables)
            && TableEntries(s'.disk.tables, s'.p.current) == TableEntries(d.tables, d.manifest.tables)
               + TableEntries(split, split.Keys)
            && s'.p.current <= s'.disk.tables.Keys
  {
    var s', d := Restored(s, split, reuse, newLog, nextFile, newManifest), s.disk;
    TableFrame(d.tables, s'.disk.tables, d.manifest.tables);
    TableFrame(split, s'.disk.tables, split.Keys);
    TableUnion(s'.disk.tables, d.manifest.tables, split.Keys);
  }

  lemma RestoreDisk(s: State, split: map<nat, set<Entry>>, reuse: bool, newLog: nat, nextFile: nat, newManifest: bool)
    requires CanRestore(s, split, reuse, newLog, nextFile, newManifest) && Inv(s)
    ensures DiskInv(Restored(s, split, reuse, newLog, nextFile, newManifest).disk, s.history, s.floor)
  {
    RestoreSplit(s, split, reuse, newLog, nextFile, newManifest);
    RestoreTables(s, split, reuse, newLog, nextFile, newManifest);
    if !reuse {
      assert forall n | n in s.disk.logs && n >= s.disk.manifest.logNumber :: n in Replayed(s.disk);
      LogAdded(s.disk.logs, newLog, s.disk.manifest.logNumber);
    }
  }

  lemma RestoreSequences(s: State, split: map<nat, set<Entry>>, reuse: bool, newLog: nat, nextFile: nat,
                         newManifest: bool)
    requires CanRestore(s, split, reuse, newLog, nextFile, newManifest) && Inv(s)
    ensures var s' := Restored(s, split, reuse, newLog, nextFile, newManifest);
            && TableEntries(s'.disk.tables, s'.p.current) + s'.p.mem == Recoverable(s.disk) <= s.history
            && UpTo(s.history, s'.p.lastSequence) && s'.p.lastSequence < MaxSequence
  {
    hide ProcInv, Logged, TableEntries, SameReads, UniqueSeqs, Sound, Live, Replayed, IsLastLog;
    var s', d := Restored(s, split, reuse, newLog, nextFile, newManifest), s.disk;
    RestoreSplit(s, split, reuse, newLog, nextFile, newManifest);
    RestoreTables(s, split, reuse, newLog, nextFile, newManifest);
    ReplayedUpTo(d, s'.p.lastSequence);
  }

  lemma ReplayedUpTo(d: Disk, m: nat)
    requires IsMaxSequence(d, m)
    ensures UpTo(LogsFrom(d.logs, d.manifest.logNumber), m)
    ensures d.manifest.lastSequence < MaxSequence && LogLayers(d.logs, d.manifest.logNumber, {}) ==> m < MaxSequence
  {
    forall n | n in d.logs && n >= d.manifest.logNumber ensures UpTo(Logged(d.logs[n].batches), m) {
      forall b | b in d.logs[n].batches ensures b.Last() <= m {
        assert n in Replayed(d) && b.Last() in Lasts(d);
      }
      LoggedUpTo(d.logs[n].batches, m);
    }
  }

  lemma RestoreLayers(s: State, split: map<nat, set<Entry>>, reuse: bool, newLog: nat, nextFile: nat, newManifest: bool)
    requires CanRestore(s, split, reuse, newLog, nextFile, newManifest) && Inv(s)
    ensures var s' := Restored(s, split, reuse, newLog, nextFile, newManifest);
            Above(s'.p.mem, TableEntries(s'.disk.tables, s'.p.current))
  {
    hide ProcInv, Logged, TableEntries, SameReads, UniqueSeqs, Sound, UpTo, Live, ManifestInv, NothingLost, Covered,
         Replayed, IsLastLog, RecoveredSequence;
    var s', d := Restored(s, split, reuse, newLog, nextFile, newManifest), s.disk;
    RestoreSplit(s, split, reuse, newLog, nextFile, newManifest);
    RestoreTables(s, split, reuse, newLog, nextFile, newManifest);
    if reuse {
      assert forall e | e in LogEntries(d.logs, d.manifest.logNumber, newLog) ::
          exists n :: n in d.logs.Keys && d.manifest.logNumber <= n < newLog && e in Logged(d.logs[n].batches);
    }
  }

  lemma RestoreCommitted(s: State, split: map<nat, set<Entry>>, reuse: bool, newLog: nat, nextFile: nat,
                         newManifest: bool)
    requires CanRestore(s, split, reuse, newLog, nextFile, newManifest) && Inv(s) && newManifest
    ensures var s' := Restored(s, split, reuse, newLog, nextFile, newManifest);
            DiskInv(s'.disk.(manifest := s'.mode.edit), s.history, s.floor)
  {
    hide ProcInv, Logged, LogEntries, TableEntries, Replayed, Live, SameReads, UniqueSeqs, Sound, Finished, IsLastLog,
         LogsFrom;
    var s', d := Restored(s, split, reuse, newLog, nextFile, newManifest), s.disk;
    RestoreSplit(s, split, reuse, newLog, nextFile, newManifest);
    RestoreLayers(s, split, reuse, newLog, nextFile, newManifest);
    RestoreSequences(s, split, reuse, newLog, nextFile, newManifest);
    RestoreTables(s, split, reuse, newLog, nextFile, newManifest);
    assert IsMaxSequence(d, s'.p.lastSequence);
    assert Recoverable(s'.disk.(manifest := s'.mode.edit)) == Recoverable(d);
  }

  /** A log may be kept only if nothing at its end hides what is appended to it. */
  ghost predicate CleanReuse(s: State, step: Step) {
    step.Restore? && step.reuse && step.newLog in s.disk.logs ==> s.disk.logs[step.newLog].Readable()
  }

  lemma RestoreNumbering(s: State, split: map<nat, set<Entry>>, reuse: bool, newLog: nat, nextFile: nat,
                         newManifest: bool, m: Manifest)
    requires CanRestore(s, split, reuse, newLog, nextFile, newManifest) && Inv(s)
    requires m == if newManifest then Restored(s, split, reuse, newLog, nextFile, newManifest).mode.edit
             else s.disk.manifest
    ensures var s' := Restored(s, split, reuse, newLog, nextFile, newManifest);
            Numbering(s'.p, s'.disk.(manifest := m)) && InStep(s'.p, m)
  {
    hide LogLayers, NothingLost, Covered, Logged, LogEntries, LogsFrom, Replayed, IsLastLog, Above, SameReads,
         TableEntries, UpTo, ProcInv, Lasts;
    var s' := Restored(s, split, reuse, newLog, nextFile, newManifest);
    RestoreSplit(s, split, reuse, newLog, nextFile, newManifest);
    RestoreTables(s, split, reuse, newLog, nextFile, newManifest);
    assert Live(s'.p) == s'.p.current;
    assert IsMaxSequence(s.disk, s'.p.lastSequence);
  }

  /** A process that holds exactly what was found, all of it finished. */
  lemma HoldsWhatWasFound(p: Process, d: Disk, history: set<Entry>, found: set<Entry>, floor: nat)
    requires p.imm.None? && TableEntries(d.tables, p.current) + p.mem == found
    requires Above(p.mem, TableEntries(d.tables, p.current))
    requires NothingLost(history, found, floor) && UpTo(history, p.lastSequence)
    ensures Finished(p.mem, p.lastSequence) == p.mem
    ensures Layers(p.mem, ImmEntries(p), TableEntries(d.tables, p.current))
    ensures ReadsAgree(history, View(p, d), p.lastSequence, floor)
  {
    hide UniqueSeqs, Sound, SameReads, TableEntries;
    assert Finished(p.mem, p.lastSequence) == p.mem;
    assert View(p, d) == found;
  }

  lemma RestoreReads(s: State, split: map<nat, set<Entry>>, reuse: bool, newLog: nat, nextFile: nat, newManifest: bool)
    requires CanRestore(s, split, reuse, newLog, nextFile, newManifest) && Inv(s)
    ensures var s' := Restored(s, split, reuse, newLog, nextFile, newManifest);
            && Finished(s'.p.mem, s'.p.lastSequence) == s'.p.mem && s'.p.lastSequence < MaxSequence
            && Layers(s'.p.mem, ImmEntries(s'.p), TableEntries(s'.disk.tables, s'.p.current))
            && ReadsAgree(s.history, View(s'.p, s'.disk), s'.p.lastSequence, s.floor)
  {
    hide LogLayers, NothingLost, Covered, Layers, ReadsAgree, View, TableEntries, LogsFrom, Logged, Finished,
         Recoverable;
    var s' := Restored(s, split, reuse, newLog, nextFile, newManifest);
    RestoreLayers(s, split, reuse, newLog, nextFile, newManifest);
    RestoreSequences(s, split, reuse, newLog, nextFile, newManifest);
    HoldsWhatWasFound(s'.p, s'.disk, s.history, Recoverable(s.disk), s.floor);
  }

  lemma RestoreFiles(s: State, split: map<nat, set<Entry>>, reuse: bool, newLog: nat, nextFile: nat, newManifest: bool,
                     m: Manifest)
    requires CanRestore(s, split, reuse, newLog, nextFile, newManifest) && Inv(s)
    requires reuse && newLog in s.disk.logs ==> s.disk.logs[newLog].Readable()
    requires m == if newManifest then Restored(s, split, reuse, newLog, nextFile, newManifest).mode.edit
             else s.disk.manifest
    ensures var s' := Restored(s, split, reuse, newLog, nextFile, newManifest);
            FilesInv(s'.p, s'.disk.(manifest := m), s.history, s.floor)
  {
    hide DiskInv, Layers, ReadsAgree, LogsFrom, Numbering, InStep, Finished, UpTo, Live, JobsInv, Logged, Replayed,
         IsLastLog, RecoveredSequence;
    var s' := Restored(s, split, reuse, newLog, nextFile, newManifest);
    RestoreReads(s, split, reuse, newLog, nextFile, newManifest);
    RestoreSplit(s, split, reuse, newLog, nextFile, newManifest);
    LogSplit(s'.disk.logs, newLog, newLog);
    RestoreNumbering(s, split, reuse, newLog, nextFile, newManifest, m);
    assert View(s'.p, s'.disk.(manifest := m)) == View(s'.p, s'.disk);
    RestoredUpTo(s'.p.mem, s'.p.lastSequence);
  }

  lemma RestoredUpTo(mem: set<Entry>, last: nat)
    requires Finished(mem, last) == mem
    ensures UpTo(mem, last)
  {
    assert forall e | e in mem :: e in Finished(mem, last);
  }

  lemma RestoreJobs(s: State, split: map<nat, set<Entry>>, reuse: bool, newLog: nat, nextFile: nat, newManifest: bool,
                    d: Disk)
    requires CanRestore(s, split, reuse, newLog, nextFile, newManifest) && Inv(s)
    ensures JobsInv(Restored(s, split, reuse, newLog, nextFile, newManifest).p, d, s.floor, false)
  {
    hide ManifestInv, LogLayers, NothingLost, Covered, FilesInv, FlushEdit, PlanInv, MergeEdit, TableEntries, Logged,
         LogsFrom, LogEntries, Replayed, IsLastLog;
    assert IsMaxSequence(s.disk, Restored(s, split, reuse, newLog, nextFile, newManifest).p.lastSequence);
  }

  lemma KeepsRestore(s: State, split: map<nat, set<Entry>>, reuse: bool, newLog: nat, nextFile: nat, newManifest: bool)
    requires CanRestore(s, split, reuse, newLog, nextFile, newManifest) && Inv(s)
    requires reuse && newLog in s.disk.logs ==> s.disk.logs[newLog].Readable()
    ensures Inv(Restored(s, split, reuse, newLog, nextFile, newManifest))
  {
    hide DiskInv, FilesInv, JobsInv, CanRestore, RecoveredSequence, TableEntries, LogsFrom, LogEntries, Replayed,
         Logged;
    var s' := Restored(s, split, reuse, newLog, nextFile, newManifest);
    RestoreDisk(s, split, reuse, newLog, nextFile, newManifest);
    if newManifest {
      RestoreCommitted(s, split, reuse, newLog, nextFile, newManifest);
      RestoreFiles(s, split, reuse, newLog, nextFile, newManifest, s'.mode.edit);
      RestoreJobs(s, split, reuse, newLog, nextFile, newManifest, s'.disk.(manifest := s'.mode.edit));
    } else {
      RestoreFiles(s, split, reuse, newLog, nextFile, newManifest, s.disk.manifest);
      RestoreJobs(s, split, reuse, newLog, nextFile, newManifest, s'.disk);
      assert s'.disk.(manifest := s.disk.manifest) == s'.disk;
    }
  }

  lemma KeepsFinishOpen(s: State, needs: bool)
    requires CanFinishOpen(s, needs) && Inv(s)
    ensures Inv(OpenDone(s, needs))
  {
    Bookkeeping(s.p, OpenDone(s, needs).p, s.disk, s.history, s.floor, false, true);
    assert s.history + InFlight(OpenDone(s, needs).p) == s.history;
  }

  // ---- Every step ----

  lemma InvSnapshotStep(s: State, step: Step)
    requires Inv(s) && Enabled(s, step) && CleanReuse(s, step)
    requires step.TakeSnapshot? || step.ReleaseSnapshot?
    ensures Inv(Next(s, step))
  {
    hide UpInv, DiskInv, ProcInv, Quiet;
    match step
    case TakeSnapshot => KeepsTakeSnapshot(s);
    case ReleaseSnapshot(i) => KeepsReleaseSnapshot(s, i);
  }

  lemma InvPinStep(s: State, step: Step)
    requires Inv(s) && Enabled(s, step) && CleanReuse(s, step)
    requires step.PinVersion? || step.UnpinVersion?
    ensures Inv(Next(s, step))
  {
    hide UpInv, DiskInv, ProcInv, Quiet;
    match step
    case PinVersion => KeepsPinVersion(s);
    case UnpinVersion(v) => KeepsUnpinVersion(s, v);
  }

  lemma InvScheduleStep(s: State, step: Step)
    requires Inv(s) && Enabled(s, step) && CleanReuse(s, step)
    requires step.AskForCompaction? || step.ShutDown?
    ensures Inv(Next(s, step))
  {
    hide UpInv, DiskInv, ProcInv, Quiet;
    match step
    case AskForCompaction => KeepsAskForCompaction(s);
    case ShutDown => KeepsShutDown(s);
  }

  lemma InvJobStep(s: State, step: Step)
    requires Inv(s) && Enabled(s, step) && CleanReuse(s, step)
    requires step.BeginJob? || step.EndJob?
    ensures Inv(Next(s, step))
  {
    hide UpInv, DiskInv, ProcInv, Quiet;
    match step
    case BeginJob => KeepsBeginJob(s);
    case EndJob(j, needs) => KeepsEndJob(s, j, needs);
  }

  lemma InvWriteStep(s: State, step: Step)
    requires Inv(s) && Enabled(s, step) && CleanReuse(s, step)
    requires step.BeginAppend? || step.EndAppend? || step.ApplyOne? || step.EndWrite?
    ensures Inv(Next(s, step))
  {
    hide UpInv, DiskInv, ProcInv, Quiet;
    match step
    case BeginAppend(ops, bytes) => KeepsBeginAppend(s, ops, bytes);
    case EndAppend => KeepsEndAppend(s);
    case ApplyOne => KeepsApplyOne(s);
    case EndWrite => KeepsEndWrite(s);
  }

  lemma InvFlushStep(s: State, step: Step)
    requires Inv(s) && Enabled(s, step) && CleanReuse(s, step)
    requires step.SwitchMemtable? || step.BeginFlush? || step.BuildTable?
    ensures Inv(Next(s, step))
  {
    hide UpInv, DiskInv, ProcInv, Quiet;
    match step
    case SwitchMemtable => KeepsSwitchMemtable(s);
    case BeginFlush(j) => KeepsBeginFlush(s, j);
    case BuildTable(j) => KeepsBuildTable(s, j);
  }

  lemma InvInstallStep(s: State, step: Step)
    requires Inv(s) && Enabled(s, step) && CleanReuse(s, step)
    requires step.FailFlush? || step.CommitFlush? || step.InstallFlush?
    ensures Inv(Next(s, step))
  {
    hide UpInv, DiskInv, ProcInv, Quiet;
    match step
    case FailFlush(j) => KeepsFailFlush(s, j);
    case CommitFlush(j) => KeepsCommitFlush(s, j);
    case InstallFlush(j) => KeepsInstallFlush(s, j);
  }

  lemma InvOutputStep(s: State, step: Step)
    requires Inv(s) && Enabled(s, step) && CleanReuse(s, step)
    requires step.BeginMerge? || step.OpenOutput?
    ensures Inv(Next(s, step))
  {
    hide UpInv, DiskInv, ProcInv, Quiet;
    match step
    case BeginMerge(j, inputs, entries, above, deeper, base) => KeepsBeginMerge(s, j, inputs, entries, above, deeper,
                                                                                base);
    case OpenOutput(j) => KeepsOpenOutput(s, j);
  }

  lemma InvCloseStep(s: State, step: Step)
    requires Inv(s) && Enabled(s, step) && CleanReuse(s, step)
    requires step.WriteOutput? || step.FinishMerge?
    ensures Inv(Next(s, step))
  {
    hide UpInv, DiskInv, ProcInv, Quiet;
    match step
    case WriteOutput(j, n, contents) => KeepsWriteOutput(s, j, n, contents);
    case FinishMerge(j) => KeepsFinishMerge(s, j);
  }

  lemma InvMergeStep(s: State, step: Step)
    requires Inv(s) && Enabled(s, step) && CleanReuse(s, step)
    requires step.FailMerge? || step.CommitMerge? || step.InstallMerge?
    ensures Inv(Next(s, step))
  {
    hide UpInv, DiskInv, ProcInv, Quiet;
    match step
    case FailMerge(j) => KeepsFailMerge(s, j);
    case CommitMerge(j) => KeepsCommitMerge(s, j);
    case InstallMerge(j) => KeepsInstallMerge(s, j);
  }

  lemma InvRestartStep(s: State, step: Step)
    requires Inv(s) && Enabled(s, step) && CleanReuse(s, step)
    requires step.Crash? || step.BreakOff? || step.Restore?
    ensures Inv(Next(s, step))
  {
    hide Inv, CanRestore, CanCrash, CanBreakOff, Restored, Crashed, BrokenOff;
    match step
    case Crash(written) => KeepsCrash(s, written);
    case BreakOff(left, log) => KeepsBreakOff(s, left, log);
    case Restore(split, reuse, newLog, nextFile, newManifest) => KeepsRestore(s, split, reuse, newLog, nextFile,
                                                                              newManifest);
  }

  lemma InvCollectStep(s: State, step: Step)
    requires Inv(s) && Enabled(s, step) && CleanReuse(s, step)
    requires step.Collect?
    ensures Inv(Next(s, step))
  {
    hide UpInv, DiskInv, ProcInv, Quiet;
    match step
    case Collect(j, tables, logs) => KeepsCollect(s, j, tables, logs);
  }

  lemma InvOpenStep(s: State, step: Step)
    requires Inv(s) && Enabled(s, step) && CleanReuse(s, step)
    requires step.CommitOpen? || step.FinishOpen?
    ensures Inv(Next(s, step))
  {
    hide UpInv, DiskInv, ProcInv, MaybeSchedule, Quiet;
    match step
    case CommitOpen =>
    case FinishOpen(needs) => KeepsFinishOpen(s, needs);
  }

  lemma InvStep(s: State, step: Step)
    requires Inv(s) && Enabled(s, step) && CleanReuse(s, step)
    ensures Inv(Next(s, step))
  {
    hide Inv, Enabled, Next, CleanReuse;
    if step.TakeSnapshot? || step.ReleaseSnapshot? {
      InvSnapshotStep(s, step);
    } else if step.PinVersion? || step.UnpinVersion? {
      InvPinStep(s, step);
    } else if step.AskForCompaction? || step.ShutDown? {
      InvScheduleStep(s, step);
    } else if step.BeginJob? || step.EndJob? {
      InvJobStep(s, step);
    } else if step.BeginAppend? || step.EndAppend? || step.ApplyOne? || step.EndWrite? {
      InvWriteStep(s, step);
    } else if step.SwitchMemtable? || step.BeginFlush? || step.BuildTable? {
      InvFlushStep(s, step);
    } else if step.FailFlush? || step.CommitFlush? || step.InstallFlush? {
      InvInstallStep(s, step);
    } else if step.BeginMerge? || step.OpenOutput? {
      InvOutputStep(s, step);
    } else if step.WriteOutput? || step.FinishMerge? {
      InvCloseStep(s, step);
    } else if step.FailMerge? || step.CommitMerge? || step.InstallMerge? {
      InvMergeStep(s, step);
    } else if step.Crash? || step.BreakOff? || step.Restore? {
      InvRestartStep(s, step);
    } else if step.Collect? {
      InvCollectStep(s, step);
    } else {
      InvOpenStep(s, step);
    }
  }

  ghost predicate CleanRun(states: seq<State>, steps: seq<Step>) {
    Run(states, steps) && forall i | 0 <= i < |steps| :: CleanReuse(states[i], steps[i])
  }

  lemma {:induction false} RunInv(states: seq<State>, steps: seq<Step>, n: nat)
    requires CleanRun(states, steps) && n <= |steps|
    ensures Inv(states[n])
  {
    hide Inv, Enabled, Next, CleanReuse;
    InitInv();
    if n > 0 {
      RunInv(states, steps, n - 1);
      InvStep(states[n - 1], steps[n - 1]);
    }
  }
}
