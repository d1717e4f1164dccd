/** The memtable switch, the background job and file collection keep the invariant. */
module EngineJobs {
  import opened Entries
  import opened EngineState
  import opened EngineInvariant
  import Compaction

  // ---- Switching memtables ----

  /** What was in the memtable's log is in the logs before the new one. */
  lemma SwitchLogs(s: State)
    requires CanSwitchMemtable(s) && UpInv(s)
    ensures LogsMatch(MemtableSwitched(s).p, MemtableSwitched(s).disk.logs)
    ensures Finished(s.p.mem, s.p.lastSequence) == s.p.mem
  {
    hide DiskInv, JobsInv, Layers, ReadsAgree, LogLayers;
    var s', p, logs, n := MemtableSwitched(s), s.p, s.disk.logs, s.p.nextFile;
    assert Finished(p.mem, p.lastSequence) == p.mem;
    assert Logged([]) == {};
    LogSplit(logs, p.logNumber, p.logfile);
    LogAdded(logs, n, p.logNumber);
    LogSplit(s'.disk.logs, p.logNumber, n);
    assert LogEntries(s'.disk.logs, p.logNumber, n) == LogsFrom(logs, p.logNumber);
  }

  lemma SwitchFiles(s: State)
    requires CanSwitchMemtable(s) && UpInv(s)
    ensures FilesInv(MemtableSwitched(s).p, MemtableSwitched(s).disk, s.history, s.floor)
  {
    hide DiskInv, LogsMatch, SameReads, TableEntries;
    SwitchLogs(s);
    assert View(MemtableSwitched(s).p, MemtableSwitched(s).disk) == View(s.p, s.disk);
  }

  lemma SwitchDisk(s: State)
    requires CanSwitchMemtable(s) && UpInv(s)
    ensures DiskInv(MemtableSwitched(s).disk, s.history + InFlight(s.p), s.floor)
  {
    hide JobsInv, Layers, ReadsAgree, SameReads, TableEntries, Logged, UniqueSeqs, Sound, UpTo, Live, Above;
    LogNumberBound(s);
    LogAdded(s.disk.logs, s.p.nextFile, s.disk.manifest.logNumber);
  }

  lemma SwitchJobs(s: State)
    requires CanSwitchMemtable(s) && UpInv(s)
    ensures JobsInv(MemtableSwitched(s).p, MemtableSwitched(s).disk, s.floor, true)
  {
    hide DiskInv, ReadsAgree, Layers, LogsMatch, WriteInv, TableEntries, Above, Compaction.GoodInputs, Logged, UpTo;
  }

  lemma KeepsSwitchMemtable(s: State)
    requires CanSwitchMemtable(s) && UpInv(s)
    ensures UpInv(MemtableSwitched(s))
  {
    hide DiskInv, FilesInv, JobsInv;
    SwitchJobs(s);
    SwitchFiles(s);
    SwitchDisk(s);
  }

  // ---- New and rewritten table files ----

  /** Writing a table file no live version and no committed version names. */
  lemma NewFileDisk(s: State, files: map<nat, set<Entry>>, n: nat)
    requires UpInv(s) && n !in s.disk.manifest.tables
    requires files.Keys + {n} >= s.disk.tables.Keys
    requires forall t | t in s.disk.tables && t != n :: t in files && files[t] == s.disk.tables[t]
    ensures DiskInv(s.disk.(tables := files), s.history + InFlight(s.p), s.floor)
  {
    hide FilesInv, JobsInv, SameReads, Logged, UniqueSeqs, Sound, UpTo, LogLayers, LogsFrom, Covered, TableEntries;
    TableFrame(s.disk.tables, files, s.disk.manifest.tables);
  }

  lemma NewFileFiles(s: State, files: map<nat, set<Entry>>, n: nat, p': Process)
    requires UpInv(s) && n !in Live(s.p)
    requires files.Keys + {n} >= s.disk.tables.Keys
    requires forall t | t in s.disk.tables && t != n :: t in files && files[t] == s.disk.tables[t]
    requires p' == s.p.(nextFile := p'.nextFile, pending := p'.pending, jobs := p'.jobs)
    requires !s.p.Flush().Durable? && !p'.Flush().Durable? && !s.p.Merge().Installed? && !p'.Merge().Installed?
    requires Live(p') == Live(s.p) && s.p.nextFile <= p'.nextFile
    requires TablesBelow(p'.pending, p'.nextFile) && Live(p') !! p'.pending
    ensures FilesInv(p', s.disk.(tables := files), s.history, s.floor)
  {
    hide DiskInv, JobsInv, SameReads, Logged, LogEntries, Above, UpTo, TableEntries, VersionsInUse, PinnedTables,
         Finished, UniqueSeqs;
    TableFrame(s.disk.tables, files, s.p.current);
    assert View(p', s.disk.(tables := files)) == View(s.p, s.disk);
  }

  /** The committed tables are live unless an edit is between its commit and its installation. */
  lemma CommittedIsLive(s: State)
    requires UpInv(s) && !s.p.Flush().Durable? && !s.p.Merge().Installed?
    ensures s.disk.manifest.tables == s.p.current <= Live(s.p)
  {
    hide DiskInv, JobsInv, LogsMatch, WriteInv, Layers, ReadsAgree, Numbering;
  }

  lemma PlanFrame(p: Process, p': Process, files: map<nat, set<Entry>>, files': map<nat, set<Entry>>, plan: Plan)
    requires PlanInv(p, files, plan) && p'.current == p.current && p'.snapshots == p.snapshots
    requires p.lastSequence <= p'.lastSequence
    requires forall t | t in p.current :: t in files && t in files' && files'[t] == files[t]
    ensures PlanInv(p', files', plan)
  {
    hide Above, Compaction.GoodInputs, TableEntries, Compaction.Contents;
    TableFrame(files, files', plan.inputs);
    TableFrame(files, files', plan.version);
    TableFrame(files, files', plan.version - plan.inputs);
    TableFrame(files, files', p.current - plan.version);
  }

  /** A running job is the only one. */
  lemma OnlyJob(s: State, j: nat)
    requires UpInv(s) && j < |s.p.jobs|
    ensures |s.p.jobs| == 1 && j == 0 && s.p.jobs[j] == Job(s.p.Flush(), s.p.Merge())
  {
    hide DiskInv, FilesInv, FlushInv, MergeInv, SnapshotsInv;
  }

  // ---- Flushing ----

  lemma BeginFlushJobs(s: State, j: nat)
    requires CanBeginFlush(s, j) && UpInv(s)
    ensures JobsInv(FlushBegun(s, j).p, FlushBegun(s, j).disk, s.floor, true)
  {
    hide DiskInv, ReadsAgree, LogsMatch, Layers, WriteInv, TableEntries, UpTo, Above, Compaction.GoodInputs,
         Compaction.Contents;
    if s.p.Merge().Merging? {
      PlanFrame(s.p, FlushBegun(s, j).p, s.disk.tables, FlushBegun(s, j).disk.tables, s.p.Merge().plan);
    }
  }

  lemma KeepsBeginFlush(s: State, j: nat)
    requires CanBeginFlush(s, j) && UpInv(s)
    ensures UpInv(FlushBegun(s, j))
  {
    hide DiskInv, JobsInv, ReadsAgree, LogsMatch, Layers, WriteInv;
    OnlyJob(s, j);
    var s' := FlushBegun(s, j);
    CommittedIsLive(s);
    NewFileDisk(s, s'.disk.tables, s.p.nextFile);
    NewFileFiles(s, s'.disk.tables, s.p.nextFile, s'.p);
    BeginFlushJobs(s, j);
  }

  lemma BuildTableEdit(s: State, j: nat)
    requires CanBuildTable(s, j) && UpInv(s)
    ensures var s' := TableBuilt(s, j); FlushEdit(s'.p, s'.disk, s'.p.Flush().number, s'.p.Flush().edit)
  {
    hide DiskInv, LogsMatch, Layers, SameReads, Above, LogEntries, Logged, Sound, PlanInv, Finished, TableEntries;
    var s', n := TableBuilt(s, j), s.p.Flush().number;
    assert n in s.p.pending && n !in Live(s.p);
    TableFrame(s.disk.tables, s'.disk.tables, s.p.current);
    assert ImmEntries(s.p) <= View(s.p, s.disk) <= s.history;
    assert TableEntries(s.disk.tables, s.p.current) <= View(s.p, s.disk);
  }

  lemma BuildTableJobs(s: State, j: nat)
    requires CanBuildTable(s, j) && UpInv(s)
    ensures JobsInv(TableBuilt(s, j).p, TableBuilt(s, j).disk, s.floor, true)
  {
    hide TableEntries, Above, Compaction.GoodInputs, DiskInv, ReadsAgree, LogsMatch, Layers, WriteInv, UpTo, FlushEdit;
    BuildTableEdit(s, j);
    if s.p.Merge().Merging? {
      PlanFrame(s.p, TableBuilt(s, j).p, s.disk.tables, TableBuilt(s, j).disk.tables, s.p.Merge().plan);
    }
  }

  lemma KeepsBuildTable(s: State, j: nat)
    requires CanBuildTable(s, j) && UpInv(s)
    ensures UpInv(TableBuilt(s, j))
  {
    hide DiskInv, ReadsAgree, LogsMatch, Layers, WriteInv, PlanInv, TableEntries;
    OnlyJob(s, j);
    var s' := TableBuilt(s, j);
    CommittedIsLive(s);
    NewFileDisk(s, s'.disk.tables, s.p.Flush().number);
    NewFileFiles(s, s'.disk.tables, s.p.Flush().number, s'.p);
    BuildTableJobs(s, j);
  }

  lemma FailFlushFiles(s: State, j: nat)
    requires CanFailFlush(s, j) && UpInv(s)
    ensures FilesInv(FlushFailed(s, j).p, s.disk, s.history, s.floor)
  {
    hide DiskInv, FlushInv, MergeInv, SnapshotsInv, Above, SameReads, TableEntries, Logged, LogEntries, UpTo, Finished,
         PinnedTables, UniqueSeqs;
  }

  lemma FailFlushJobs(s: State, j: nat)
    requires CanFailFlush(s, j) && UpInv(s)
    ensures JobsInv(FlushFailed(s, j).p, s.disk, s.floor, true)
  {
    hide DiskInv, ReadsAgree, LogsMatch, Layers, WriteInv, TableEntries, UpTo, Above, Compaction.GoodInputs,
         Compaction.Contents;
  }

  lemma KeepsFailFlush(s: State, j: nat)
    requires CanFailFlush(s, j) && UpInv(s)
    ensures UpInv(FlushFailed(s, j))
  {
    hide DiskInv, FilesInv, JobsInv;
    FailFlushFiles(s, j);
    FailFlushJobs(s, j);
  }

  lemma FlushedTables(p: Process, d: Disk, n: nat, e: Manifest)
    requires FlushEdit(p, d, n, e)
    ensures TableEntries(d.tables, e.tables) == TableEntries(d.tables, p.current) + ImmEntries(p)
  {
    if ImmEntries(p) != {} {
      TableUnion(d.tables, p.current, {n});
      assert TableEntries(d.tables, {n}) == ImmEntries(p);
    }
  }

  /** Once the flush's edit is durable the immutable memtable is found in its table instead of
      in the older logs. */
  lemma CommitFlushContents(s: State, j: nat)
    requires CanCommitFlush(s, j) && UpInv(s)
    ensures var p, d, e := s.p, s.disk, s.p.jobs[j].flush.edit;
            && TableEntries(d.tables, e.tables) == TableEntries(d.tables, p.current) + ImmEntries(p)
            && LogsFrom(d.logs, e.logNumber) == Logged(d.logs[p.logfile].batches)
            && LogsFrom(d.logs, d.manifest.logNumber) == ImmEntries(p) + Logged(d.logs[p.logfile].batches)
            && d.manifest.tables == p.current
  {
    hide DiskInv, Layers, ReadsAgree, WriteInv, Logged, LogsFrom, LogEntries, TableEntries, MergeInv, UpTo, Live,
         EditInv;
    OnlyJob(s, j);
    FlushedTables(s.p, s.disk, s.p.Flush().number, s.p.Flush().edit);
    LogSplit(s.disk.logs, s.p.logNumber, s.p.logfile);
  }

  lemma CommitFlushDisk(s: State, j: nat)
    requires CanCommitFlush(s, j) && UpInv(s)
    ensures DiskInv(FlushDurable(s, j).disk, s.history + InFlight(s.p), s.floor)
  {
    hide LogLayers, SameReads, Above, Logged, LogEntries, UniqueSeqs, ReadsAgree, MergeInv, LogsMatch, Layers,
         TableEntries, LogsFrom, Sound, SnapshotsInv, PinnedTables, VersionsInUse;
    var s', p, d, e := FlushDurable(s, j), s.p, s.disk, s.p.Flush().edit;
    OnlyJob(s, j);
    CommitFlushContents(s, j);
    assert Recoverable(s'.disk) == Recoverable(d);
    assert e.tables <= d.tables.Keys;
    CommitFlushLayers(s, j);
  }

  lemma CommitFlushLayers(s: State, j: nat)
    requires CanCommitFlush(s, j) && UpInv(s)
    ensures var d, e := s.disk, s.p.Flush().edit; LogLayers(d.logs, e.logNumber, TableEntries(d.tables, e.tables))
  {
    hide Logged, LogEntries, LogsFrom, TableEntries, UniqueSeqs, Sound, SameReads, MergeInv, UpTo;
    OnlyJob(s, j);
    CommitFlushContents(s, j);
    if s.p.write.Applying? {
      BatchIsNewer(s);
    }
  }

  /** A logged batch still being applied is newer than everything finished. */
  lemma BatchIsNewer(s: State)
    requires UpInv(s) && s.p.write.Applying?
    ensures Above(InFlight(s.p), s.history) && ImmEntries(s.p) <= s.history
    ensures TableEntries(s.disk.tables, s.p.current) <= s.history
  {
    hide DiskInv, JobsInv, LogsMatch, Layers, Numbering, InStep, TableEntries, SameReads;
    assert View(s.p, s.disk) <= s.history;
  }

  lemma CommitFlushProc(s: State, j: nat)
    requires CanCommitFlush(s, j) && UpInv(s)
    ensures var s' := FlushDurable(s, j); FilesInv(s'.p, s'.disk, s.history, s.floor)
  {
    hide DiskInv, MergeInv, SnapshotsInv, Above, SameReads, TableEntries, Logged, LogEntries, UpTo, Finished,
         PinnedTables;
  }

  lemma CommitFlushJobs(s: State, j: nat)
    requires CanCommitFlush(s, j) && UpInv(s)
    ensures var s' := FlushDurable(s, j); JobsInv(s'.p, s'.disk, s.floor, true)
  {
    hide DiskInv, ReadsAgree, LogsMatch, Layers, WriteInv, TableEntries, UpTo, Above, Compaction.GoodInputs,
         Compaction.Contents, PinnedTables;
  }

  lemma KeepsCommitFlush(s: State, j: nat)
    requires CanCommitFlush(s, j) && UpInv(s)
    ensures UpInv(FlushDurable(s, j))
  {
    hide DiskInv, FilesInv, JobsInv;
    CommitFlushDisk(s, j);
    CommitFlushProc(s, j);
    CommitFlushJobs(s, j);
  }

  lemma InstallFlushContents(s: State, j: nat)
    requires CanInstallFlush(s, j) && UpInv(s)
    ensures var p, d, e := s.p, s.disk, s.p.jobs[j].flush.edit;
            && TableEntries(d.tables, e.tables) == TableEntries(d.tables, p.current) + ImmEntries(p)
            && LogEntries(d.logs, p.logfile, p.logfile) == {}
  {
    hide DiskInv, Layers, ReadsAgree, WriteInv, Logged, TableEntries, MergeInv, UpTo, Live, EditInv;
    OnlyJob(s, j);
    FlushedTables(s.p, s.disk, s.p.Flush().number, s.p.Flush().edit);
    LogSplit(s.disk.logs, s.p.logfile, s.p.logfile);
  }

  lemma InstallFlushReads(s: State, j: nat)
    requires CanInstallFlush(s, j) && UpInv(s)
    ensures var p := FlushInstalled(s, j).p;
            && Layers(p.mem, ImmEntries(p), TableEntries(s.disk.tables, p.current))
            && ReadsAgree(s.history, View(p, s.disk), p.lastSequence, s.floor)
  {
    hide DiskInv, JobsInv, Numbering, InStep, LogsMatch, WriteInv, UpTo, SameReads, TableEntries, LogEntries;
    OnlyJob(s, j);
    InstallFlushContents(s, j);
    assert View(FlushInstalled(s, j).p, s.disk) == View(s.p, s.disk);
  }

  lemma InstallFlushFiles(s: State, j: nat)
    requires CanInstallFlush(s, j) && UpInv(s)
    ensures FilesInv(FlushInstalled(s, j).p, s.disk, s.history, s.floor)
  {
    hide DiskInv, Layers, ReadsAgree, TableEntries, Logged, Finished, UpTo, MergeInv, View, SnapshotsInv, PinnedTables;
    OnlyJob(s, j);
    InstallFlushContents(s, j);
    InstallFlushReads(s, j);
  }

  lemma InstallFlushPlan(s: State, j: nat)
    requires CanInstallFlush(s, j) && UpInv(s) && s.p.Merge().Merging?
    ensures PlanInv(FlushInstalled(s, j).p, s.disk.tables, s.p.Merge().plan)
  {
    hide DiskInv, ReadsAgree, LogsMatch, WriteInv, LogEntries, Logged, Compaction.GoodInputs, Compaction.Contents,
         UpTo, Live, SnapshotsInv, EditInv;
    var p, plan, files := s.p, s.p.Merge().plan, s.disk.tables;
    var added := p.Flush().edit.tables - p.current;
    assert p.Flush().edit.tables - plan.version == (p.current - plan.version) + added;
    TableUnion(files, p.current - plan.version, added);
    assert TableEntries(files, added) <= ImmEntries(p);
    assert TableEntries(files, plan.version) <= TableEntries(files, p.current);
  }

  lemma InstallFlushJobs(s: State, j: nat)
    requires CanInstallFlush(s, j) && UpInv(s)
    ensures JobsInv(FlushInstalled(s, j).p, s.disk, s.floor, true)
  {
    hide DiskInv, ReadsAgree, LogsMatch, Layers, WriteInv, TableEntries, UpTo, Above, PlanInv;
    if s.p.Merge().Merging? {
      InstallFlushPlan(s, j);
    }
  }

  lemma KeepsInstallFlush(s: State, j: nat)
    requires CanInstallFlush(s, j) && UpInv(s)
    ensures UpInv(FlushInstalled(s, j))
  {
    hide DiskInv, FilesInv, JobsInv;
    InstallFlushFiles(s, j);
    InstallFlushJobs(s, j);
  }

  // ---- Compacting ----

  lemma BeginMergeJobs(s: State, j: nat, inputs: set<nat>, entries: seq<Entry>, above: set<Entry>, deeper: set<Entry>,
                       base: UserKey -> bool)
    requires CanBeginMerge(s, j, inputs, entries, above, deeper, base) && UpInv(s)
    ensures JobsInv(MergeBegun(s, j, inputs, entries, above, deeper, base).p, s.disk, s.floor, true)
  {
    hide DiskInv, FilesInv, Compaction.GoodInputs;
    assert s.p.current - s.p.current == {};
  }

  lemma KeepsBeginMerge(s: State, j: nat, inputs: set<nat>, entries: seq<Entry>, above: set<Entry>, deeper: set<Entry>,
                        base: UserKey -> bool)
    requires CanBeginMerge(s, j, inputs, entries, above, deeper, base) && UpInv(s)
    ensures UpInv(MergeBegun(s, j, inputs, entries, above, deeper, base))
  {
    hide DiskInv, ReadsAgree, LogsMatch, Layers, WriteInv, Compaction.GoodInputs, Compaction.Contents, Above,
         TableEntries, FlushEdit, MergeEdit, PlanInv;
    var s' := MergeBegun(s, j, inputs, entries, above, deeper, base);
    BeginMergeJobs(s, j, inputs, entries, above, deeper, base);
    assert Live(s'.p) == Live(s.p);
    NewFileFiles(s, s.disk.tables, s.p.nextFile, s'.p);
  }

  lemma OpenOutputJobs(s: State, j: nat)
    requires CanOpenOutput(s, j) && UpInv(s)
    ensures JobsInv(OutputOpened(s, j).p, OutputOpened(s, j).disk, s.floor, true)
  {
    hide DiskInv, ReadsAgree, LogsMatch, Layers, WriteInv, PlanInv;
    OnlyJob(s, j);
    PlanFrame(s.p, OutputOpened(s, j).p, s.disk.tables, OutputOpened(s, j).disk.tables, s.p.Merge().plan);
  }

  lemma KeepsOpenOutput(s: State, j: nat)
    requires CanOpenOutput(s, j) && UpInv(s)
    ensures UpInv(OutputOpened(s, j))
  {
    hide ReadsAgree, LogsMatch, Layers, WriteInv, DiskInv, JobsInv, TableEntries, Outputs, PinnedTables, InStep;
    OnlyJob(s, j);
    var s' := OutputOpened(s, j);
    CommittedIsLive(s);
    NewFileDisk(s, s'.disk.tables, s.p.nextFile);
    NewFileFiles(s, s'.disk.tables, s.p.nextFile, s'.p);
    OpenOutputJobs(s, j);
  }

  lemma KeepsWriteOutput(s: State, j: nat, n: nat, contents: set<Entry>)
    requires CanWriteOutput(s, j, n, contents) && UpInv(s)
    ensures UpInv(OutputWritten(s, j, n, contents))
  {
    hide ReadsAgree, LogsMatch, Layers, WriteInv, TableEntries, DiskInv, PlanInv;
    OnlyJob(s, j);
    var s' := OutputWritten(s, j, n, contents);
    CommittedIsLive(s);
    NewFileDisk(s, s'.disk.tables, n);
    NewFileFiles(s, s'.disk.tables, n, s'.p);
    PlanFrame(s.p, s'.p, s.disk.tables, s'.disk.tables, s.p.Merge().plan);
  }

  lemma FinishMergeJobs(s: State, j: nat)
    requires CanFinishMerge(s, j) && UpInv(s)
    ensures JobsInv(MergeFinished(s, j).p, s.disk, s.floor, true)
  {
    hide DiskInv, LogsMatch, WriteInv, SameReads, Above, Logged, LogEntries, Compaction.GoodInputs,
         Compaction.Contents, Finished, FlushEdit;
    assert TableEntries(s.disk.tables, s.p.current) <= View(s.p, s.disk);
  }

  lemma KeepsFinishMerge(s: State, j: nat)
    requires CanFinishMerge(s, j) && UpInv(s)
    ensures UpInv(MergeFinished(s, j))
  {
    FinishMergeJobs(s, j);
    NewFileFiles(s, s.disk.tables, s.p.nextFile, MergeFinished(s, j).p);
  }

  lemma FailMergeFiles(s: State, j: nat)
    requires CanFailMerge(s, j) && UpInv(s)
    ensures FilesInv(MergeFailed(s, j).p, s.disk, s.history, s.floor)
  {
    hide DiskInv, FlushInv, MergeInv, SnapshotsInv, Above, SameReads, TableEntries, Logged, LogEntries, UpTo, Finished,
         PinnedTables, UniqueSeqs;
    assert Live(MergeFailed(s, j).p) <= Live(s.p);
  }

  lemma FailMergeJobs(s: State, j: nat)
    requires CanFailMerge(s, j) && UpInv(s)
    ensures JobsInv(MergeFailed(s, j).p, s.disk, s.floor, true)
  {
    hide DiskInv, ReadsAgree, LogsMatch, Layers, WriteInv, TableEntries, UpTo, Above;
  }

  lemma KeepsFailMerge(s: State, j: nat)
    requires CanFailMerge(s, j) && UpInv(s)
    ensures UpInv(MergeFailed(s, j))
  {
    hide DiskInv, FilesInv, JobsInv;
    FailMergeFiles(s, j);
    FailMergeJobs(s, j);
  }

  /** Readers at the plan's snapshot or later cannot tell the outputs from the inputs, whatever
      newer entries they also see. */
  lemma MergeSwapsReads(plan: Plan, newer: set<Entry>)
    requires Compaction.GoodInputs(plan.entries, plan.above, plan.deeper, plan.base)
    requires Sound(Compaction.Contents(plan.entries))
    requires UniqueSeqs(Compaction.Contents(plan.entries) + plan.above + plan.deeper + newer)
    requires Above(newer, Compaction.Contents(plan.entries))
    ensures SameReads(Compaction.Contents(plan.entries) + (plan.above + plan.deeper) + newer,
                      plan.Kept() + (plan.above + plan.deeper) + newer, plan.smallest)
  {
    var inputs, kept, outside := Compaction.Contents(plan.entries), plan.Kept(), plan.above + newer + plan.deeper;
    assert inputs + (plan.above + newer) + plan.deeper == inputs + plan.above + plan.deeper + newer;
    assert forall e | e in plan.entries :: e in inputs;
    forall r, i | r in plan.above + newer && 0 <= i < |plan.entries| && plan.entries[i].user == r.user
      ensures r.sequence > plan.entries[i].sequence
    {
      assert plan.entries[i] in inputs;
    }
    Compaction.GoodInputsAreHarmless(plan.entries, plan.above + newer, plan.deeper, plan.smallest, plan.base);
    assert inputs + outside == inputs + (plan.above + plan.deeper) + newer;
    assert kept + outside == kept + (plan.above + plan.deeper) + newer;
  }

  lemma SameReadsChain(a: set<Entry>, b: set<Entry>, c: set<Entry>, floor: nat, smallest: nat, floor': nat)
    requires SameReads(a, b, floor) && SameReads(b, c, smallest) && floor' >= floor && floor' >= smallest
    ensures SameReads(a, c, floor')
  {
  }

  /** The table set before and after the edit, input by input. */
  lemma MergeTables(p: Process, d: Disk, plan: Plan, outputs: set<nat>, e: Manifest)
    requires PlanInv(p, d.tables, plan) && MergeEdit(p, d, plan, outputs, e)
    ensures var rest, newer := plan.above + plan.deeper, TableEntries(d.tables, p.current - plan.version);
            && TableEntries(d.tables, p.current) == Compaction.Contents(plan.entries) + rest + newer
            && TableEntries(d.tables, e.tables) == plan.Kept() + rest + newer
            && plan.Kept() <= Compaction.Contents(plan.entries)
            && Above(newer, Compaction.Contents(plan.entries))
  {
    var files := d.tables;
    TableUnion(files, plan.inputs, plan.version - plan.inputs);
    assert plan.inputs + (plan.version - plan.inputs) == plan.version;
    TableUnion(files, plan.version, p.current - plan.version);
    assert plan.version + (p.current - plan.version) == p.current;
    TableUnion(files, plan.version - plan.inputs, p.current - plan.version);
    assert (plan.version - plan.inputs) + (p.current - plan.version) == p.current - plan.inputs;
    TableUnion(files, p.current - plan.inputs, outputs);
    Compaction.KeptIsPart(plan.entries, plan.smallest, plan.base);
  }

  /** Swapping a plan's outputs for its inputs in any collection that is otherwise newer. */
  lemma MergeKeepsReads(p: Process, d: Disk, plan: Plan, outputs: set<nat>, e: Manifest,
                        written: set<Entry>, layers: set<Entry>, floor: nat, floor': nat)
    requires PlanInv(p, d.tables, plan) && MergeEdit(p, d, plan, outputs, e)
    requires NothingLost(written, TableEntries(d.tables, p.current) + layers, floor)
    requires Above(layers, TableEntries(d.tables, p.current)) && floor' >= floor && floor' >= plan.smallest
    ensures NothingLost(written, TableEntries(d.tables, e.tables) + layers, floor')
  {
    MergeTables(p, d, plan, outputs, e);
    var inputs, rest := Compaction.Contents(plan.entries), plan.above + plan.deeper;
    var newer := TableEntries(d.tables, p.current - plan.version);
    var found, found' := TableEntries(d.tables, p.current) + layers, TableEntries(d.tables, e.tables) + layers;
    assert inputs + plan.above + plan.deeper + (newer + layers) == found;
    MergeSwapsReads(plan, newer + layers);
    assert found == inputs + rest + (newer + layers);
    assert found' == plan.Kept() + rest + (newer + layers);
    SameReadsChain(written, found, found', floor, plan.smallest, floor');
  }

  lemma CommitMergeDisk(s: State, j: nat)
    requires CanCommitMerge(s, j) && UpInv(s)
    ensures var s' := MergeDurable(s, j); DiskInv(s'.disk, s.history + InFlight(s.p), s'.floor)
  {
    var s', p, d, m := MergeDurable(s, j), s.p, s.disk, s.p.Merge();
    CommittedIsLive(s);
    MergeKeepsReads(p, d, m.plan, m.outputs, m.edit, s.history + InFlight(p), LogsFrom(d.logs, p.logNumber), s.floor,
                    s'.floor);
    CommitMergeManifest(s, j);
  }

  lemma LessOfThem(before: set<Entry>, after: set<Entry>, logs: map<nat, LogFile>, from: nat, last: nat)
    requires after <= before && UpTo(before, last) && LogLayers(logs, from, before)
    ensures UpTo(after, last) && LogLayers(logs, from, after)
  {
    hide Logged, LogsFrom;
  }

  lemma CommitMergeManifest(s: State, j: nat)
    requires CanCommitMerge(s, j) && UpInv(s)
    ensures var d, e := s.disk, s.p.Merge().edit;
            ManifestInv(e, d.tables) && LogLayers(d.logs, e.logNumber, TableEntries(d.tables, e.tables))
  {
    hide ReadsAgree, LogsMatch, Layers, LogLayers, NothingLost, Covered, TableEntries, UpTo, PlanInv, SnapshotsInv,
         FlushEdit, Compaction.Contents, Compaction.GoodInputs, Above;
    var p, d, m := s.p, s.disk, s.p.Merge();
    OnlyJob(s, j);
    MergeTables(p, d, m.plan, m.outputs, m.edit);
    LessOfThem(TableEntries(d.tables, p.current), TableEntries(d.tables, m.edit.tables), d.logs, p.logNumber,
               m.edit.lastSequence);
  }

  lemma CommitMergeProc(s: State, j: nat)
    requires CanCommitMerge(s, j) && UpInv(s)
    ensures var s' := MergeDurable(s, j); FilesInv(s'.p, s'.disk, s.history, s'.floor)
  {
    hide DiskInv, FlushEdit, PlanInv, SnapshotsInv, Above, TableEntries, Logged, LogEntries, UpTo, Finished,
         PinnedTables;
    OnlyJob(s, j);
    assert Live(MergeDurable(s, j).p) == Live(s.p);
  }

  lemma CommitMergeJobs(s: State, j: nat)
    requires CanCommitMerge(s, j) && UpInv(s)
    ensures var s' := MergeDurable(s, j); JobsInv(s'.p, s'.disk, s'.floor, true)
  {
    hide DiskInv, ReadsAgree, LogsMatch, Layers, WriteInv, TableEntries, UpTo, Above, Compaction.GoodInputs,
         Compaction.Contents, FlushEdit;
  }

  lemma KeepsCommitMerge(s: State, j: nat)
    requires CanCommitMerge(s, j) && UpInv(s)
    ensures UpInv(MergeDurable(s, j))
  {
    hide DiskInv, FilesInv, JobsInv;
    CommitMergeDisk(s, j);
    CommitMergeProc(s, j);
    CommitMergeJobs(s, j);
  }

  lemma InstallMergeReads(s: State, j: nat)
    requires CanInstallMerge(s, j) && UpInv(s)
    ensures var p' := MergeInstalled(s, j).p;
            && ReadsAgree(s.history, View(p', s.disk), s.p.lastSequence, s.floor)
            && Layers(p'.mem, ImmEntries(p'), TableEntries(s.disk.tables, p'.current))
  {
    hide LogsMatch, WriteInv, Numbering, InStep, Logged, LogEntries, TableEntries, UpTo, Live, SnapshotsInv, FlushInv,
         PlanInv, MergeEdit, SameReads, ManifestInv, LogLayers, Covered;
    var p, d, m := s.p, s.disk, s.p.Merge();
    var layers := ImmEntries(p) + Finished(p.mem, p.lastSequence);
    assert TableEntries(d.tables, p.current) + layers == View(p, d);
    assert s.history <= s.history + InFlight(p);
    MergeKeepsReads(p, d, m.plan, m.outputs, m.edit, s.history, layers, s.floor, s.floor);
    MergeTables(p, d, m.plan, m.outputs, m.edit);
    assert View(MergeInstalled(s, j).p, d) == TableEntries(d.tables, m.edit.tables) + layers;
  }

  lemma InstallMergeFiles(s: State, j: nat)
    requires CanInstallMerge(s, j) && UpInv(s)
    ensures FilesInv(MergeInstalled(s, j).p, s.disk, s.history, s.floor)
  {
    InstallMergeReads(s, j);
    assert Live(MergeInstalled(s, j).p) <= Live(s.p) + s.p.Merge().outputs;
  }

  lemma InstallMergeJobs(s: State, j: nat)
    requires CanInstallMerge(s, j) && UpInv(s)
    ensures JobsInv(MergeInstalled(s, j).p, s.disk, s.floor, true)
  {
    hide DiskInv, ReadsAgree, LogsMatch, Layers, WriteInv, TableEntries, UpTo, Above, PlanInv;
  }

  lemma KeepsInstallMerge(s: State, j: nat)
    requires CanInstallMerge(s, j) && UpInv(s)
    ensures UpInv(MergeInstalled(s, j))
  {
    hide DiskInv, FilesInv, JobsInv;
    InstallMergeFiles(s, j);
    InstallMergeJobs(s, j);
  }

  // ---- Deleting files ----

  lemma CollectDisk(d: Disk, tables: set<nat>, logs: set<nat>, written: set<Entry>, floor: nat)
    requires DiskInv(d, written, floor) && tables !! d.manifest.tables && forall n | n in logs ::
               n < d.manifest.logNumber
    ensures DiskInv(d.(tables := d.tables - tables, logs := d.logs - logs), written, floor)
  {
    TableFrame(d.tables, d.tables - tables, d.manifest.tables);
    LogFrame(d.logs, d.logs - logs, d.manifest.logNumber, 0);
  }

  lemma CollectFiles(p: Process, d: Disk, tables: set<nat>, logs: set<nat>, history: set<Entry>, floor: nat)
    requires FilesInv(p, d, history, floor) && tables !! Live(p) + p.pending && forall n | n in logs :: n < p.logNumber
    ensures FilesInv(p, d.(tables := d.tables - tables, logs := d.logs - logs), history, floor)
  {
    TableFrame(d.tables, d.tables - tables, p.current);
    LogFrame(d.logs, d.logs - logs, p.logNumber, p.logfile);
  }

  lemma CollectJobs(p: Process, d: Disk, tables: set<nat>, logs: set<nat>, floor: nat, open: bool)
    requires JobsInv(p, d, floor, open) && tables !! Live(p) + p.pending
    requires p.Flush().NoFlush? && (p.Merge().NoMerge? || p.Merge().Merging?)
    requires Live(p) <= d.tables.Keys
    ensures JobsInv(p, d.(tables := d.tables - tables, logs := d.logs - logs), floor, open)
  {
    if p.Merge().Merging? {
      PlanFrame(p, p, d.tables, d.tables - tables, p.Merge().plan);
    }
  }

  /** Because no other job runs, the job that collects files is the one whose table might not be
      committed yet, and it has none. */
  lemma CollectUp(s: State, j: nat, tables: set<nat>, logs: set<nat>)
    requires CanCollect(s, j, tables, logs) && UpInv(s) && s.mode.Up?
    ensures UpInv(Collected(s, j, tables, logs))
  {
    OnlyJob(s, j);
    CommittedIsLive(s);
    LiveOnDisk(s);
    hide DiskInv, FilesInv, JobsInv;
    CollectDisk(s.disk, tables, logs, s.history + InFlight(s.p), s.floor);
    CollectFiles(s.p, s.disk, tables, logs, s.history, s.floor);
    CollectJobs(s.p, s.disk, tables, logs, s.floor, true);
  }

  lemma LiveOnDisk(s: State)
    requires UpInv(s)
    ensures Live(s.p) <= s.disk.tables.Keys
    ensures !s.p.Flush().Durable? && !s.p.Merge().Installed? ==> s.disk.manifest.logNumber == s.p.logNumber
  {
    hide DiskInv, JobsInv, LogsMatch, WriteInv, Layers, ReadsAgree, Live;
  }

  lemma KeepsCollect(s: State, j: nat, tables: set<nat>, logs: set<nat>)
    requires CanCollect(s, j, tables, logs) && Inv(s)
    ensures Inv(Collected(s, j, tables, logs))
  {
    if s.mode.Up? {
      hide UpInv, ProcInv, DiskInv, Quiet;
      CollectUp(s, j, tables, logs);
    } else {
      CollectDisk(s.disk, tables, logs, s.history, s.floor);
      CollectFiles(s.p, s.disk, tables, logs, s.history, s.floor);
      CollectJobs(s.p, s.disk, tables, logs, s.floor, false);
    }
  }
}
