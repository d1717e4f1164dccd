/** What every step of the engine keeps. */
module EngineInvariant {
  import opened Entries
  import opened EngineState
  import opened WriteBatch
  import opened LogFormat
  import Compaction

  // ---- The disk ----

  ghost predicate Sound(es: set<Entry>) { forall e | e in es :: e.Parses() }

  ghost predicate UpTo(es: set<Entry>, m: nat) { forall e | e in es :: e.sequence <= m }

  ghost predicate TablesBelow(numbers: set<nat>, bound: nat) { forall t | t in numbers :: t < bound }

  /** Later logs hold newer entries, and every log from `from` on is newer than the tables. */
  ghost predicate LogLayers(logs: map<nat, LogFile>, from: nat, tables: set<Entry>) {
    && (forall n, m | n in logs && m in logs && from <= n < m ::
         Above(Logged(logs[m].batches), Logged(logs[n].batches)))
    && Above(LogsFrom(logs, from), tables)
    && (forall n, b | n in logs && from <= n && b in logs[n].batches :: b.Last() < MaxSequence)
  }

  /** No entry of a log is newer than its batches. */
  lemma {:induction false} LoggedUpTo(batches: seq<Batch>, m: nat)
    requires forall b | b in batches :: b.Last() <= m
    ensures UpTo(Logged(batches), m)
  {
    if |batches| > 0 {
      var b := batches[|batches| - 1];
      LoggedUpTo(batches[..|batches| - 1], m);
      assert b in batches;
      assert UpTo(b.All(), m);
    }
  }

  ghost predicate ManifestInv(m: Manifest, files: map<nat, set<Entry>>) {
    && m.tables <= files.Keys && TablesBelow(m.tables, m.nextFile) && m.logNumber < m.nextFile
    && UpTo(TableEntries(files, m.tables), m.lastSequence) && m.lastSequence < MaxSequence
  }

  /** What a restart finds reads, from `floor` on, like everything written. */
  ghost predicate NothingLost(written: set<Entry>, found: set<Entry>, floor: nat) {
    found <= written && UniqueSeqs(written) && Sound(written) && SameReads(written, found, floor)
  }

  /** Everything written is covered by the manifest's sequence number or still in a log. */
  ghost predicate Covered(written: set<Entry>, logged: set<Entry>, last: nat) {
    UpTo(written, MaxSequence - 1) && forall h | h in written :: h.sequence <= last || h in logged
  }

  ghost predicate DiskInv(d: Disk, written: set<Entry>, floor: nat) {
    var m := d.manifest;
    && ManifestInv(m, d.tables)
    && LogLayers(d.logs, m.logNumber, TableEntries(d.tables, m.tables))
    && NothingLost(written, Recoverable(d), floor) && floor <= m.lastSequence
    && Covered(written, LogsFrom(d.logs, m.logNumber), m.lastSequence)
  }

  // ---- The process ----

  ghost predicate Numbering(p: Process, d: Disk) {
    && Live(p) <= d.tables.Keys
    && TablesBelow(Live(p) + p.pending, p.nextFile)
    && Live(p) !! p.pending
    && d.manifest.nextFile <= p.nextFile
    && p.logfile in d.logs && p.logNumber <= p.logfile < p.nextFile
    && (forall n | n in d.logs :: n <= p.logfile)
  }

  /** The manifest is the current version's, except between an edit's commit and its installation. */
  ghost predicate InStep(p: Process, m: Manifest) {
    && m.lastSequence <= p.lastSequence
    && (if p.Flush().Durable? then m == p.Flush().edit
        else if p.Merge().Installed? then m == p.Merge().edit
        else m.tables == p.current && m.logNumber == p.logNumber)
  }

  /** The current log is the memtable, the logs before it are the immutable memtable. */
  ghost predicate LogsMatch(p: Process, logs: map<nat, LogFile>) {
    && p.logfile in logs
    && Logged(logs[p.logfile].batches) == Finished(p.mem, p.lastSequence) + InFlight(p)
    && LogEntries(logs, p.logNumber, p.logfile) == ImmEntries(p)
    && logs[p.logfile].Readable()
    && (p.write.Appending? || p.write.Applying? ==> p.write.clean)
  }

  ghost predicate WriteInv(p: Process) {
    && p.lastSequence < MaxSequence
    && (!p.write.Applying? ==> UpTo(p.mem, p.lastSequence))
    && (p.write.Appending? || p.write.Applying? ==>
          p.write.batch.start == p.lastSequence + 1 && p.lastSequence + |p.write.batch.ops| < MaxSequence)
    && (p.write.Applying? ==>
         p.write.done <= |p.write.batch.ops|
             && p.mem == Finished(p.mem, p.lastSequence) + p.write.batch.Prefix(p.write.done))
  }

  /** Newer layers hold newer entries. */
  ghost predicate Layers(mem: set<Entry>, imm: set<Entry>, tables: set<Entry>) {
    Above(mem, imm) && Above(mem, tables) && Above(imm, tables)
  }

  /** What readers at finished sequence numbers see answers like the whole history. */
  ghost predicate ReadsAgree(history: set<Entry>, view: set<Entry>, last: nat, floor: nat) {
    view <= history && UpTo(history, last) && SameReads(history, view, floor)
  }

  ghost function View(p: Process, d: Disk): set<Entry> {
    TableEntries(d.tables, p.current) + ImmEntries(p) + Finished(p.mem, p.lastSequence)
  }

  ghost predicate SnapshotsInv(snapshots: seq<nat>, floor: nat, last: nat) {
    && floor <= last
    && (forall i | 0 <= i < |snapshots| :: floor <= snapshots[i] <= last)
    && (forall i, j | 0 <= i < j < |snapshots| :: snapshots[i] <= snapshots[j])
  }

  /** At most one background job is scheduled or running, and a full immutable memtable has one. */
  ghost predicate OneJob(p: Process, open: bool) {
    && p.queued + |p.jobs| == (if p.scheduled then 1 else 0)
    && (open && p.imm.Some? && !p.shutdown && !p.bgError ==> p.scheduled)
  }

  ghost function Outputs(p: Process): set<nat> {
    if p.Merge().NoMerge? then {} else p.Merge().outputs
  }

  ghost predicate EditInv(p: Process, d: Disk, e: Manifest) {
    && TablesBelow(e.tables, e.nextFile) && e.logNumber < e.nextFile <= p.nextFile
    && d.manifest.lastSequence <= e.lastSequence <= p.lastSequence
    && UpTo(TableEntries(d.tables, p.current), e.lastSequence)
  }

  ghost predicate FlushEdit(p: Process, d: Disk, n: nat, e: Manifest) {
    var imm := ImmEntries(p);
    && EditInv(p, d, e) && UpTo(imm, e.lastSequence)
    && e.tables == p.current + (if imm == {} then {} else {n}) && e.logNumber == p.logfile
    && n !in Live(p) && n !in p.pending
    && (imm != {} ==> n in d.tables && d.tables[n] == imm)
  }

  ghost predicate FlushInv(p: Process, d: Disk) {
    && (!p.Flush().NoFlush? ==> p.imm.Some? && (p.Merge().NoMerge? || p.Merge().Merging?))
    && (p.Flush().Building? ==> p.Flush().number in p.pending && p.Flush().number !in Outputs(p))
    && (p.Flush().Committing? || p.Flush().Durable? ==> FlushEdit(p, d, p.Flush().number, p.Flush().edit))
  }

  /** The compaction's inputs are as they were, and what came since is newer. */
  ghost predicate PlanInv(p: Process, files: map<nat, set<Entry>>, plan: Plan) {
    && plan.inputs <= plan.version <= p.current
    && Compaction.Contents(plan.entries) == TableEntries(files, plan.inputs)
    && plan.above + plan.deeper == TableEntries(files, plan.version - plan.inputs)
    && Compaction.GoodInputs(plan.entries, plan.above, plan.deeper, plan.base)
    && plan.smallest <= p.lastSequence
    && (forall i | 0 <= i < |p.snapshots| :: plan.smallest <= p.snapshots[i])
    && Above(TableEntries(files, p.current - plan.version), TableEntries(files, plan.version))
  }

  ghost predicate MergeEdit(p: Process, d: Disk, plan: Plan, outputs: set<nat>, e: Manifest) {
    && EditInv(p, d, e) && plan.smallest <= e.lastSequence
    && e.tables == p.current - plan.inputs + outputs && e.logNumber == p.logNumber
    && TableEntries(d.tables, outputs) == plan.Kept()
  }

  ghost predicate MergeInv(p: Process, d: Disk, floor: nat) {
    && Outputs(p) <= p.pending && Outputs(p) <= d.tables.Keys
    && (!p.Merge().NoMerge? ==> PlanInv(p, d.tables, p.Merge().plan))
    && (p.Merge().Installing? || p.Merge().Installed? ==>
         MergeEdit(p, d, p.Merge().plan, p.Merge().outputs, p.Merge().edit))
    && (p.Merge().Installed? ==> p.Merge().plan.smallest <= floor)
  }

  ghost predicate FilesInv(p: Process, d: Disk, history: set<Entry>, floor: nat) {
    && Numbering(p, d) && InStep(p, d.manifest) && LogsMatch(p, d.logs) && WriteInv(p)
    && Layers(p.mem, ImmEntries(p), TableEntries(d.tables, p.current))
    && ReadsAgree(history, View(p, d), p.lastSequence, floor)
  }

  ghost predicate JobsInv(p: Process, d: Disk, floor: nat, open: bool) {
    SnapshotsInv(p.snapshots, floor, p.lastSequence) && OneJob(p, open) && FlushInv(p, d) && MergeInv(p, d, floor)
  }

  ghost predicate ProcInv(p: Process, d: Disk, history: set<Entry>, floor: nat, open: bool) {
    FilesInv(p, d, history, floor) && JobsInv(p, d, floor, open)
  }

  ghost predicate UpInv(s: State) {
    && DiskInv(s.disk, s.history + InFlight(s.p), s.floor)
    && ProcInv(s.p, s.disk, s.history, s.floor, true)
  }

  ghost predicate Quiet(p: Process) { p.write.NoWrite? && p.imm.None? && p.Flush().NoFlush? && p.Merge().NoMerge? }

  /** Down: only the disk. Opening: the edit is not committed yet, and once it is, the process
      invariant holds. Collecting and Up: the process invariant holds. */
  ghost predicate Inv(s: State) {
    match s.mode
    case Down => s.p == FreshProcess && DiskInv(s.disk, s.history, s.floor)
    case Opening(e) =>
      && Quiet(s.p) && DiskInv(s.disk, s.history, s.floor)
      && DiskInv(s.disk.(manifest := e), s.history, s.floor)
      && ProcInv(s.p, s.disk.(manifest := e), s.history, s.floor, false)
    case Collecting =>
      Quiet(s.p) && DiskInv(s.disk, s.history, s.floor) && ProcInv(s.p, s.disk, s.history, s.floor, false)
    case Up => UpInv(s)
  }

  // ---- Frames ----

  lemma TableFrame(files: map<nat, set<Entry>>, files': map<nat, set<Entry>>, numbers: set<nat>)
    requires forall n | n in numbers :: (n in files <==> n in files') && (n in files ==> files[n] == files'[n])
    ensures TableEntries(files, numbers) == TableEntries(files', numbers)
  {
  }

  lemma TableUnion(files: map<nat, set<Entry>>, a: set<nat>, b: set<nat>)
    ensures TableEntries(files, a + b) == TableEntries(files, a) + TableEntries(files, b)
  {
  }

  /** The logs from `from` on split at any number. */
  lemma LogSplit(logs: map<nat, LogFile>, from: nat, n: nat)
    requires from <= n && n in logs && forall m | m in logs :: m <= n
    ensures LogsFrom(logs, from) == LogEntries(logs, from, n) + Logged(logs[n].batches)
    ensures LogsFrom(logs, n) == Logged(logs[n].batches)
    ensures LogEntries(logs, n, n) == {}
  {
  }

  /** Logs that differ only in what lies below `from`, or in their length, replay alike. */
  lemma LogFrame(logs: map<nat, LogFile>, logs': map<nat, LogFile>, from: nat, below: nat)
    requires forall n | from <= n :: (n in logs <==> n in logs') && (n in logs ==> logs[n].batches == logs'[n].batches)
    ensures LogsFrom(logs, from) == LogsFrom(logs', from)
    ensures LogEntries(logs, from, below) == LogEntries(logs', from, below)
    ensures forall tables :: LogLayers(logs, from, tables) ==> LogLayers(logs', from, tables)
  {
  }

  /** A new, empty log changes nothing a restart would replay. */
  lemma LogAdded(logs: map<nat, LogFile>, n: nat, from: nat)
    requires forall m | m in logs && from <= m :: m < n
    requires n in logs ==> n < from
    ensures var logs' := logs[n := EmptyLog];
            LogsFrom(logs, from) == LogsFrom(logs', from)
            && forall tables :: LogLayers(logs, from, tables) ==> LogLayers(logs', from, tables)
  {
    var logs' := logs[n := EmptyLog];
    assert Logged(logs'[n].batches) == {};
    forall e ensures e in LogsFrom(logs, from) <==> e in LogsFrom(logs', from) {
      if m :| m in logs.Keys && from <= m && e in Logged(logs[m].batches) { assert logs'[m] == logs[m]; }
      if m :| m in logs'.Keys && from <= m && e in Logged(logs'[m].batches) { assert logs'[m] == logs[m]; }
    }
  }

  // ---- Snapshots, references and scheduling ----

  /** Steps that only touch the process's bookkeeping fields. */
  ghost predicate BookkeepingOnly(p: Process, p': Process) {
    && p' == p.(snapshots := p'.snapshots, pinned := p'.pinned, scheduled := p'.scheduled, queued := p'.queued,
                jobs := p'.jobs, shutdown := p'.shutdown, bgError := p'.bgError)
    && |p.jobs| <= 1 && |p'.jobs| <= 1 && p'.Flush() == p.Flush() && p'.Merge() == p.Merge()
    && PinnedTables(p'.pinned) <= PinnedTables(p.pinned) + p.current
  }

  lemma BookkeepingFiles(p: Process, p': Process, d: Disk, history: set<Entry>, floor: nat)
    requires FilesInv(p, d, history, floor) && BookkeepingOnly(p, p')
    ensures FilesInv(p', d, history, floor)
  {
    hide LogsMatch, WriteInv, Layers, ReadsAgree, InStep, TableEntries;
    assert Live(p') <= Live(p);
    BookkeepingData(p, p', d, history, floor);
  }

  lemma BookkeepingData(p: Process, p': Process, d: Disk, history: set<Entry>, floor: nat)
    requires FilesInv(p, d, history, floor) && BookkeepingOnly(p, p')
    ensures InStep(p', d.manifest) && LogsMatch(p', d.logs) && WriteInv(p')
    ensures Layers(p'.mem, ImmEntries(p'), TableEntries(d.tables, p'.current))
    ensures ReadsAgree(history, View(p', d), p'.lastSequence, floor)
  {
    hide Numbering, Layers, ReadsAgree, TableEntries, Logged, LogEntries, Live;
  }

  lemma BookkeepingJobs(p: Process, p': Process, d: Disk, floor: nat, open: bool, open': bool)
    requires JobsInv(p, d, floor, open) && BookkeepingOnly(p, p')
    requires SnapshotsInv(p'.snapshots, floor, p.lastSequence) && OneJob(p', open')
    requires p.Merge().NoMerge? || forall i | 0 <= i < |p'.snapshots| :: p.Merge().plan.smallest <= p'.snapshots[i]
    ensures JobsInv(p', d, floor, open')
  {
    assert Live(p') <= Live(p);
  }

  lemma Bookkeeping(p: Process, p': Process, d: Disk, history: set<Entry>, floor: nat, open: bool, open': bool)
    requires ProcInv(p, d, history, floor, open) && BookkeepingOnly(p, p')
    requires SnapshotsInv(p'.snapshots, floor, p.lastSequence) && OneJob(p', open')
    requires p.Merge().NoMerge? || forall i | 0 <= i < |p'.snapshots| :: p.Merge().plan.smallest <= p'.snapshots[i]
    ensures ProcInv(p', d, history, floor, open')
  {
    BookkeepingFiles(p, p', d, history, floor);
    BookkeepingJobs(p, p', d, floor, open, open');
  }

  lemma KeepsTakeSnapshot(s: State)
    requires CanTakeSnapshot(s) && UpInv(s)
    ensures UpInv(SnapshotTaken(s))
  {
    hide DiskInv, FilesInv, FlushInv, MergeEdit, TableEntries, Above, Compaction.GoodInputs, Compaction.Contents,
         Outputs;
    Bookkeeping(s.p, SnapshotTaken(s).p, s.disk, s.history, s.floor, true, true);
  }

  lemma KeepsReleaseSnapshot(s: State, i: nat)
    requires CanReleaseSnapshot(s, i) && UpInv(s)
    ensures UpInv(SnapshotReleased(s, i))
  {
    hide DiskInv, FilesInv, FlushInv, MergeEdit, TableEntries, Above, Compaction.GoodInputs, Compaction.Contents,
         Outputs;
    Bookkeeping(s.p, SnapshotReleased(s, i).p, s.disk, s.history, s.floor, true, true);
  }

  lemma KeepsPinVersion(s: State)
    requires CanPinVersion(s) && UpInv(s)
    ensures UpInv(VersionPinned(s))
  {
    hide DiskInv, FilesInv, FlushInv, MergeEdit, TableEntries, Above, Compaction.GoodInputs, Compaction.Contents,
         Outputs;
    Bookkeeping(s.p, VersionPinned(s).p, s.disk, s.history, s.floor, true, true);
  }

  lemma KeepsUnpinVersion(s: State, v: set<nat>)
    requires CanUnpinVersion(s, v) && UpInv(s)
    ensures UpInv(VersionUnpinned(s, v))
  {
    hide DiskInv, FilesInv, FlushInv, MergeEdit, TableEntries, Above, Compaction.GoodInputs, Compaction.Contents,
         Outputs;
    Bookkeeping(s.p, VersionUnpinned(s, v).p, s.disk, s.history, s.floor, true, true);
  }

  lemma KeepsAskForCompaction(s: State)
    requires CanAskForCompaction(s) && UpInv(s)
    ensures UpInv(CompactionAsked(s))
  {
    hide DiskInv, FilesInv, FlushInv, MergeEdit, TableEntries, Above, Compaction.GoodInputs, Compaction.Contents,
         Outputs;
    Bookkeeping(s.p, CompactionAsked(s).p, s.disk, s.history, s.floor, true, true);
  }

  lemma KeepsShutDown(s: State)
    requires CanShutDown(s) && UpInv(s)
    ensures UpInv(ShutDownAsked(s))
  {
    hide DiskInv, FilesInv, FlushInv, MergeEdit, TableEntries, Above, Compaction.GoodInputs, Compaction.Contents,
         Outputs;
    Bookkeeping(s.p, ShutDownAsked(s).p, s.disk, s.history, s.floor, true, true);
  }

  lemma KeepsBeginJob(s: State)
    requires CanBeginJob(s) && UpInv(s)
    ensures UpInv(JobBegun(s))
  {
    hide DiskInv, FilesInv, FlushInv, MergeEdit, TableEntries, Above, Compaction.GoodInputs, Compaction.Contents,
         Outputs;
    Bookkeeping(s.p, JobBegun(s).p, s.disk, s.history, s.floor, true, true);
  }

  lemma KeepsEndJob(s: State, j: nat, needs: bool)
    requires CanEndJob(s, j, needs) && UpInv(s)
    ensures UpInv(JobEnded(s, j, needs))
  {
    hide DiskInv, FilesInv, FlushInv, MergeEdit, TableEntries, Above, Compaction.GoodInputs, Compaction.Contents,
         Outputs;
    Bookkeeping(s.p, JobEnded(s, j, needs).p, s.disk, s.history, s.floor, true, true);
  }

  // ---- Writing ----

  /** A batch about to be written is newer than everything written before. */
  lemma BatchIsNew(b: Batch, history: set<Entry>, last: nat)
    requires b.start == last + 1 && last + |b.ops| < MaxSequence && UpTo(history, last)
    requires UniqueSeqs(history) && Sound(history)
    ensures Above(b.All(), history) && UniqueSeqs(b.All() + history) && Sound(b.All() + history)
    ensures forall e | e in b.All() :: last < e.sequence <= last + |b.ops|
  {
  }

  lemma LogEntriesFrame(logs: map<nat, LogFile>, logs': map<nat, LogFile>, from: nat, below: nat)
    requires forall n | from <= n < below ::
               (n in logs <==> n in logs') && (n in logs ==> logs[n].batches == logs'[n].batches)
    ensures LogEntries(logs, from, below) == LogEntries(logs', from, below)
  {
  }

  ghost function AppendTo(logs: map<nat, LogFile>, n: nat, b: Batch, bytes: nat): map<nat, LogFile>
    requires n in logs
  {
    logs[n := Extended(logs[n], b, bytes)]
  }

  lemma AppendedContents(logs: map<nat, LogFile>, n: nat, b: Batch, bytes: nat)
    requires n in logs && logs[n].Readable()
    ensures Logged(AppendTo(logs, n, b, bytes)[n].batches) == Logged(logs[n].batches) + b.All()
  {
    assert (logs[n].batches + [b])[..|logs[n].batches|] == logs[n].batches;
  }

  /** Appending a record to the newest log. */
  lemma LogAppended(logs: map<nat, LogFile>, n: nat, b: Batch, bytes: nat, from: nat)
    requires n in logs && logs[n].Readable() && from <= n && forall m | m in logs :: m <= n
    ensures Logged(AppendTo(logs, n, b, bytes)[n].batches) == Logged(logs[n].batches) + b.All()
    ensures LogsFrom(AppendTo(logs, n, b, bytes), from) == LogsFrom(logs, from) + b.All()
  {
    AppendedContents(logs, n, b, bytes);
    LogEntriesFrame(logs, AppendTo(logs, n, b, bytes), from, n);
    LogSplit(logs, from, n);
    LogSplit(AppendTo(logs, n, b, bytes), from, n);
  }

  lemma LogLayersAppended(logs: map<nat, LogFile>, n: nat, b: Batch, bytes: nat, from: nat, tables: set<Entry>)
    requires n in logs && logs[n].Readable() && from <= n && forall m | m in logs :: m <= n
    requires LogLayers(logs, from, tables) && Above(b.All(), LogsFrom(logs, from)) && Above(b.All(), tables)
    requires b.Last() < MaxSequence
    ensures LogLayers(AppendTo(logs, n, b, bytes), from, tables)
  {
    hide Logged, LogEntries;
    var logs' := AppendTo(logs, n, b, bytes);
    LogAppended(logs, n, b, bytes, from);
    forall k, m | k in logs' && m in logs' && from <= k < m
      ensures Above(Logged(logs'[m].batches), Logged(logs'[k].batches))
    {
      assert Above(Logged(logs[m].batches), Logged(logs[k].batches));
      assert Logged(logs[k].batches) <= LogsFrom(logs, from);
    }
  }

  lemma NothingLostExtends(written: set<Entry>, found: set<Entry>, added: set<Entry>, floor: nat)
    requires NothingLost(written, found, floor)
    requires Above(added, written) && UniqueSeqs(added + written) && Sound(added + written)
    ensures NothingLost(written + added, found + added, floor)
  {
    SameReadsExtend(written, found, added, floor);
    assert added + written == written + added && added + found == found + added;
  }

  /** The write steps leave everything the background job relies on alone. */
  lemma WriteJobs(p: Process, p': Process, d: Disk, d': Disk, floor: nat)
    requires JobsInv(p, d, floor, true)
    requires p' == p.(mem := p'.mem, write := p'.write, lastSequence := p'.lastSequence)
    requires p.lastSequence <= p'.lastSequence
    requires d'.tables == d.tables && d'.manifest == d.manifest
    ensures JobsInv(p', d', floor, true)
  {
  }

  lemma LogNumberBound(s: State)
    requires UpInv(s)
    ensures s.disk.manifest.logNumber <= s.p.logfile
  {
  }

  lemma KeepsBeginAppend(s: State, ops: seq<Op>, bytes: nat)
    requires CanBeginAppend(s, ops, bytes) && UpInv(s)
    ensures UpInv(AppendBegun(s, ops, bytes))
  {
    hide LogLayers, LogsFrom, LogEntries, Logged, Layers, ReadsAgree, NothingLost, Covered, SnapshotsInv, FlushInv,
         MergeInv, TableEntries;
    var s' := AppendBegun(s, ops, bytes);
    WriteJobs(s.p, s'.p, s.disk, s'.disk, s.floor);
  }

  lemma AboveLess(newer: set<Entry>, older: set<Entry>, some: set<Entry>)
    requires Above(newer, older) && some <= older
    ensures Above(newer, some)
  {
  }

  lemma CoveredExtends(written: set<Entry>, logged: set<Entry>, last: nat, b: Batch, below: nat)
    requires Covered(written, logged, last) && b.start == below + 1 && below + |b.ops| < MaxSequence
    ensures Covered(written + b.All(), logged + b.All(), last)
  {
  }

  lemma AppendDisk(d: Disk, n: nat, b: Batch, bytes: nat, written: set<Entry>, last: nat, floor: nat)
    requires n in d.logs && d.logs[n].Readable() && d.manifest.logNumber <= n && forall m | m in d.logs :: m <= n
    requires DiskInv(d, written, floor) && UpTo(written, last) && b.start == last + 1 && last + |b.ops| < MaxSequence
    ensures DiskInv(d.(logs := AppendTo(d.logs, n, b, bytes)), written + b.All(), floor)
  {
    hide Logged, LogEntries, LogLayers, SameReads, UniqueSeqs, Sound, UpTo, Above, Covered, TableEntries, LogsFrom,
         AppendTo, ManifestInv;
    var d', from, tables := d.(logs := AppendTo(d.logs, n, b, bytes)), d.manifest.logNumber,
        TableEntries(d.tables, d.manifest.tables);
    BatchIsNew(b, written, last);
    AboveLess(b.All(), written, LogsFrom(d.logs, from));
    AboveLess(b.All(), written, tables);
    LogAppended(d.logs, n, b, bytes, from);
    LogLayersAppended(d.logs, n, b, bytes, from, tables);
    NothingLostExtends(written, Recoverable(d), b.All(), floor);
    CoveredExtends(written, LogsFrom(d.logs, from), d.manifest.lastSequence, b, last);
    assert tables + (LogsFrom(d.logs, from) + b.All()) == Recoverable(d) + b.All();
  }

  lemma EndAppendDisk(s: State)
    requires CanEndAppend(s) && UpInv(s)
    ensures var s' := AppendEnded(s);
            && DiskInv(s'.disk, s'.history + InFlight(s'.p), s'.floor)
            && Logged(s'.disk.logs[s.p.logfile].batches) == Logged(s.disk.logs[s.p.logfile].batches)
               + s.p.write.batch.All()
  {
    hide DiskInv, Layers, SameReads, JobsInv, UpTo, Live, LogEntries, Logged, EndAfter, InStep, View;
    LogNumberBound(s);
    assert s.history + InFlight(s.p) == s.history;
    AppendedContents(s.disk.logs, s.p.logfile, s.p.write.batch, s.p.write.bytes);
    AppendDisk(s.disk, s.p.logfile, s.p.write.batch, s.p.write.bytes, s.history, s.p.lastSequence, s.floor);
  }

  lemma EndAppendLogs(s: State)
    requires CanEndAppend(s) && UpInv(s)
    requires Logged(AppendEnded(s).disk.logs[s.p.logfile].batches) == Logged(s.disk.logs[s.p.logfile].batches)
             + s.p.write.batch.All()
    ensures LogsMatch(AppendEnded(s).p, AppendEnded(s).disk.logs)
  {
    hide DiskInv, Layers, ReadsAgree, JobsInv, Numbering, InStep, WriteInv, LogEntries, Logged;
    LogEntriesFrame(s.disk.logs, AppendEnded(s).disk.logs, s.p.logNumber, s.p.logfile);
  }

  lemma EndAppendFiles(s: State)
    requires CanEndAppend(s) && UpInv(s)
    requires Logged(AppendEnded(s).disk.logs[s.p.logfile].batches) == Logged(s.disk.logs[s.p.logfile].batches)
             + s.p.write.batch.All()
    ensures FilesInv(AppendEnded(s).p, AppendEnded(s).disk, s.history, s.floor)
  {
    hide Layers, ReadsAgree, TableEntries, LogEntries, PinnedTables, LogsMatch, Logged, JobsInv, DiskInv;
    var s' := AppendEnded(s);
    assert s'.p.write.batch.Prefix(0) == {};
    assert Finished(s.p.mem, s.p.lastSequence) == s.p.mem;
    EndAppendLogs(s);
  }

  lemma KeepsEndAppend(s: State)
    requires CanEndAppend(s) && UpInv(s)
    ensures UpInv(AppendEnded(s))
  {
    EndAppendDisk(s);
    EndAppendFiles(s);
    WriteJobs(s.p, AppendEnded(s).p, s.disk, AppendEnded(s).disk, s.floor);
  }

  lemma ApplyOneAbove(p: Process, d: Disk, history: set<Entry>, floor: nat, e: Entry)
    requires FilesInv(p, d, history, floor) && e.sequence > p.lastSequence
    ensures Layers(p.mem + {e}, ImmEntries(p), TableEntries(d.tables, p.current))
    ensures Finished(p.mem + {e}, p.lastSequence) == Finished(p.mem, p.lastSequence)
  {
    hide Numbering, InStep, LogsMatch, WriteInv, SameReads;
    assert Above({e}, history) && View(p, d) <= history;
    assert ImmEntries(p) <= View(p, d) && TableEntries(d.tables, p.current) <= View(p, d);
  }

  lemma ApplyOneFiles(p: Process, d: Disk, history: set<Entry>, floor: nat, p': Process)
    requires FilesInv(p, d, history, floor) && p.write.Applying? && p.write.done < |p.write.batch.ops|
    requires p' == p.(mem := p.mem + {p.write.batch.EntryAt(p.write.done)}, write := p.write.(done := p.write.done + 1))
    ensures FilesInv(p', d, history, floor)
  {
    hide Layers, ReadsAgree, TableEntries, LogEntries, Logged, PinnedTables;
    var b, done := p.write.batch, p.write.done;
    assert b.Prefix(done + 1) == b.Prefix(done) + {b.EntryAt(done)};
    ApplyOneAbove(p, d, history, floor, b.EntryAt(done));
  }

  lemma KeepsApplyOne(s: State)
    requires CanApplyOne(s) && UpInv(s)
    ensures UpInv(EntryApplied(s))
  {
    hide DiskInv, FilesInv, JobsInv;
    ApplyOneFiles(s.p, s.disk, s.history, s.floor, EntryApplied(s).p);
    WriteJobs(s.p, EntryApplied(s).p, s.disk, s.disk, s.floor);
  }

  lemma EndWriteReads(s: State)
    requires CanEndWrite(s) && UpInv(s)
    ensures var s' := WriteEnded(s);
            && Finished(s'.p.mem, s'.p.lastSequence) == s'.p.mem == Finished(s.p.mem, s.p.lastSequence)
               + s.p.write.batch.All()
            && ReadsAgree(s'.history, View(s'.p, s'.disk), s'.p.lastSequence, s'.floor)
  {
    var s', b, view := WriteEnded(s), s.p.write.batch, View(s.p, s.disk);
    assert s.history <= s.history + InFlight(s.p);
    BatchIsNew(b, s.history, s.p.lastSequence);
    assert Finished(s'.p.mem, s'.p.lastSequence) == s'.p.mem;
    assert View(s'.p, s'.disk) == b.All() + view && s'.history == b.All() + s.history;
    SameReadsExtend(s.history, view, b.All(), s.floor);
  }

  lemma EndWriteFiles(s: State)
    requires CanEndWrite(s) && UpInv(s)
    ensures FilesInv(WriteEnded(s).p, s.disk, WriteEnded(s).history, s.floor)
  {
    hide DiskInv, JobsInv, Layers, ReadsAgree, TableEntries, LogEntries, Logged, View, VersionsInUse, PinnedTables,
         UniqueSeqs, Sound;
    EndWriteReads(s);
    EndWriteLayers(s);
  }

  lemma EndWriteLayers(s: State)
    requires CanEndWrite(s) && UpInv(s)
    ensures Layers(s.p.mem, ImmEntries(s.p), TableEntries(s.disk.tables, s.p.current))
    ensures UpTo(s.p.mem, s.p.lastSequence + |s.p.write.batch.ops|)
  {
    hide DiskInv, JobsInv, ReadsAgree, TableEntries, LogEntries, Logged, View, Live, Numbering, InStep, Above;
    assert forall e | e in s.p.write.batch.All() :: e.sequence <= s.p.lastSequence + |s.p.write.batch.ops|;
  }

  lemma KeepsEndWrite(s: State)
    requires CanEndWrite(s) && UpInv(s)
    ensures UpInv(WriteEnded(s))
  {
    hide DiskInv, FilesInv, JobsInv;
    var s' := WriteEnded(s);
    EndWriteFiles(s);
    WriteJobs(s.p, s'.p, s.disk, s.disk, s.floor);
    assert s'.history + InFlight(s'.p) == s.history + InFlight(s.p);
  }
}
