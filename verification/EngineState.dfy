/** The database engine as a step machine. Each step is one stretch of db_impl that runs under
    the mutex, or one durable effect of a stretch that runs without it; a crash may fall between
    any two steps. */
module EngineState {
  import opened Wrappers
  import opened Entries
  import opened WriteBatch
  import opened LogFormat
  import Compaction

  // ---- What is on disk ----

  /** A log file: the records a reader finds in it, its length in bytes, and up to where what a crash
      left of a record hides the records that begin there. */
  datatype LogFile = LogFile(batches: seq<Batch>, length: nat, hiddenTo: nat) {
    /** What is appended next will be found. */
    predicate Readable() { Align(length) >= hiddenTo }
  }

  const EmptyLog := LogFile([], 0, 0)

  ghost function Logged(batches: seq<Batch>): set<Entry> {
    if |batches| == 0 then {} else Logged(batches[..|batches| - 1]) + batches[|batches| - 1].All()
  }

  /** The state a manifest commits atomically. */
  datatype Manifest = Manifest(tables: set<nat>, logNumber: nat, lastSequence: nat, nextFile: nat)

  datatype Disk = Disk(tables: map<nat, set<Entry>>, logs: map<nat, LogFile>, manifest: Manifest)

  ghost function TableEntries(files: map<nat, set<Entry>>, numbers: set<nat>): set<Entry> {
    set n, e | n in numbers && n in files && e in files[n] :: e
  }

  ghost function LogEntries(logs: map<nat, LogFile>, from: nat, below: nat): set<Entry> {
    set n, e | n in logs.Keys && from <= n < below && e in Logged(logs[n].batches) :: e
  }

  ghost function LogsFrom(logs: map<nat, LogFile>, from: nat): set<Entry> {
    set n, e | n in logs.Keys && from <= n && e in Logged(logs[n].batches) :: e
  }

  /** What a restart finds: the committed tables and the logs the manifest still asks for. */
  ghost function Recoverable(d: Disk): set<Entry> {
    TableEntries(d.tables, d.manifest.tables) + LogsFrom(d.logs, d.manifest.logNumber)
  }

  // ---- What is in memory ----

  /** The front writer. `bytes` is the size of its record, and `clean` says that a reader will find
      the record. */
  datatype Write =
    | NoWrite
    | Appending(batch: Batch, bytes: nat, clean: bool)
    | Applying(batch: Batch, done: nat, clean: bool)

  /** A background job's memtable flush: the table is being built, the version edit is on its
      way to the manifest, or it is durable and not yet installed in memory. */
  datatype Flush =
    | NoFlush
    | Building(number: nat)
    | Committing(number: nat, edit: Manifest)
    | Durable(number: nat, edit: Manifest)

  /** What a compaction was given: its input files and their merged entries, the entries of the
      other files split into those above and those deeper, and the oldest snapshot in use. */
  datatype Plan = Plan(inputs: set<nat>, version: set<nat>, entries: seq<Entry>, above: set<Entry>,
                       deeper: set<Entry>, base: UserKey -> bool, smallest: nat) {
    ghost function Kept(): set<Entry> {
      Compaction.Contents(Compaction.Kept(entries, |entries|, smallest, base))
    }
  }

  datatype Merge =
    | NoMerge
    | Merging(plan: Plan, outputs: set<nat>)
    | Installing(plan: Plan, outputs: set<nat>, edit: Manifest)
    | Installed(plan: Plan, outputs: set<nat>, edit: Manifest)

  /** A running background call, with a flush and a compaction of its own. */
  datatype Job = Job(flush: Flush, merge: Merge)

  datatype Process = Process(
    mem: set<Entry>, imm: Option<set<Entry>>, logfile: nat,
    current: set<nat>, logNumber: nat, lastSequence: nat, nextFile: nat,
    pinned: multiset<set<nat>>, pending: set<nat>, snapshots: seq<nat>,
    write: Write, jobs: seq<Job>,
    scheduled: bool, queued: nat, shutdown: bool, bgError: bool)
  {
    /** What the first job is at. */
    function Flush(): Flush { if |jobs| == 0 then NoFlush else jobs[0].flush }

    function Merge(): Merge { if |jobs| == 0 then NoMerge else jobs[0].merge }

    function WithFlush(j: nat, f: Flush): (r: Process)
      requires j < |jobs|
      ensures r == this.(jobs := r.jobs) && |r.jobs| == |jobs|
      ensures j == 0 ==> r.Flush() == f && r.Merge() == Merge()
    {
      this.(jobs := jobs[j := jobs[j].(flush := f)])
    }

    function WithMerge(j: nat, m: Merge): (r: Process)
      requires j < |jobs|
      ensures r == this.(jobs := r.jobs) && |r.jobs| == |jobs|
      ensures j == 0 ==> r.Merge() == m && r.Flush() == Flush()
    {
      this.(jobs := jobs[j := jobs[j].(merge := m)])
    }
  }

  /** Opening carries the edit a reopened database still has to commit; Collecting is the file
      collection that ends an open. */
  datatype Mode = Down | Opening(edit: Manifest) | Collecting | Up

  /** `history` collects every entry whose write returned or was recovered; `floor` is the oldest
      snapshot no finished compaction has given up. Neither influences a step. */
  datatype State = State(disk: Disk, mode: Mode, p: Process, history: set<Entry>, floor: nat)

  const FreshProcess := Process({}, None, 0, {}, 0, 0, 0, multiset{}, {}, [], NoWrite, [], false, 0, false, false)

  /** A database just created: the manifest names log 0 and no table. */
  const NewDatabase := State(Disk(map[], map[], Manifest({}, 0, 0, 2)), Down, FreshProcess, {}, 0)

  ghost function ImmEntries(p: Process): set<Entry> {
    if p.imm.Some? then p.imm.value else {}
  }

  /** The part of the memtable whose writes have finished. */
  ghost function Finished(mem: set<Entry>, last: nat): set<Entry> {
    set e | e in mem && e.sequence <= last
  }

  /** The logged batch of a write that has not finished. */
  ghost function InFlight(p: Process): set<Entry> {
    if p.write.Applying? then p.write.batch.All() else {}
  }

  ghost function PinnedTables(pinned: multiset<set<nat>>): set<nat> {
    set v, n | v in pinned && n in v :: n
  }

  /** The versions compactions were started on. */
  ghost function VersionsInUse(jobs: seq<Job>): (r: set<nat>)
    ensures |jobs| == 0 ==> r == {}
    ensures |jobs| == 1 ==> r == if jobs[0].merge.NoMerge? then {} else jobs[0].merge.plan.version
  {
    set j, n | 0 <= j < |jobs| && !jobs[j].merge.NoMerge? && n in jobs[j].merge.plan.version :: n
  }

  /** The table files some reader, iterator or compaction may still open. */
  ghost function Live(p: Process): set<nat> {
    p.current + PinnedTables(p.pinned) + VersionsInUse(p.jobs)
  }

  // ---- Scheduling ----

  /** MaybeScheduleCompaction: `needs` is the version's own wish to be compacted. */
  function MaybeSchedule(p: Process, needs: bool): Process {
    if p.scheduled || p.shutdown || p.bgError || (p.imm.None? && !needs) then p
    else p.(scheduled := true, queued := p.queued + 1)
  }

  // ---- Steps ----

  datatype Step =
    | BeginAppend(ops: seq<Op>, bytes: nat)
    | EndAppend
    | ApplyOne
    | EndWrite
    | SwitchMemtable
    | TakeSnapshot
    | ReleaseSnapshot(index: nat)
    | PinVersion
    | UnpinVersion(version: set<nat>)
    | AskForCompaction
    | ShutDown
    | BeginJob
    | EndJob(job: nat, needs: bool)
    | BeginFlush(job: nat)
    | BuildTable(job: nat)
    | FailFlush(job: nat)
    | CommitFlush(job: nat)
    | InstallFlush(job: nat)
    | BeginMerge(job: nat, inputs: set<nat>, entries: seq<Entry>, above: set<Entry>, deeper: set<Entry>,
                 base: UserKey -> bool)
    | OpenOutput(job: nat)
    | WriteOutput(job: nat, number: nat, contents: set<Entry>)
    | FinishMerge(job: nat)
    | FailMerge(job: nat)
    | CommitMerge(job: nat)
    | InstallMerge(job: nat)
    | Collect(job: nat, tables: set<nat>, logs: set<nat>)
    | Crash(written: nat)
    | BreakOff(left: map<nat, set<Entry>>, log: Option<nat>)
    | Restore(split: map<nat, set<Entry>>, reuse: bool, newLog: nat, nextFile: nat, newManifest: bool)
    | CommitOpen
    | FinishOpen(needs: bool)

  /** DeleteObsoleteFiles may delete any file it judges dead: a table neither live nor pending,
      a log below the committed log number. */
  ghost predicate Collectable(s: State, tables: set<nat>, logs: set<nat>) {
    && !s.p.bgError
    && tables !! Live(s.p) + s.p.pending
    && forall n | n in logs :: n < s.p.logNumber
  }

  /** The logs a restart replays. */
  ghost function Replayed(d: Disk): set<nat> {
    set n | n in d.logs.Keys && n >= d.manifest.logNumber
  }

  ghost predicate IsLastLog(d: Disk, n: nat) {
    n in Replayed(d) && forall m | m in Replayed(d) :: m <= n
  }

  /** Recover and Open, up to the version edit. Tables are written for every replayed log, but
      the last one may be kept as the log and memtable of the new process. New numbers start
      above the manifest's, and the new log's is above every replayed log. */
  ghost predicate CanRestore(s: State, split: map<nat, set<Entry>>, reuse: bool, newLog: nat, nextFile: nat,
                             newManifest: bool) {
    var d := s.disk;
    && s.mode.Down?
    && (forall n | n in split :: d.manifest.nextFile < n < nextFile && split[n] != {})
    && nextFile > d.manifest.nextFile && nextFile > newLog
    && (forall n | n in Replayed(d) :: nextFile > n)
    && (if reuse
        then IsLastLog(d, newLog) && TableEntries(split, split.Keys) == LogEntries(d.logs, d.manifest.logNumber, newLog)
        else newLog > d.manifest.nextFile && (forall n | n in Replayed(d) :: newLog > n)
             && TableEntries(split, split.Keys) == LogsFrom(d.logs, d.manifest.logNumber))
    && (!newManifest ==> split == map[])
  }

  /** The last sequence numbers of the batches a restart replays. */
  ghost function Lasts(d: Disk): set<int> {
    set n, b | n in Replayed(d) && b in d.logs[n].batches :: b.Last()
  }

  ghost predicate IsMaxSequence(d: Disk, m: nat) {
    && m >= d.manifest.lastSequence
    && (forall k | k in Lasts(d) :: k <= m)
    && (m == d.manifest.lastSequence || m in Lasts(d))
  }

  lemma {:induction false} MaximumExists(ks: set<int>, atLeast: nat) returns (m: nat)
    ensures m >= atLeast && (forall k | k in ks :: k <= m) && (m == atLeast || m in ks)
    decreases ks
  {
    m := atLeast;
    if k: int :| k in ks {
      var rest := ks - {k};
      m := MaximumExists(rest, atLeast);
      assert ks == rest + {k};
      if m < k {
        m := k;
      }
    }
  }

  lemma RecoveredSequenceExists(d: Disk)
    ensures exists m: nat :: IsMaxSequence(d, m)
  {
    var m := MaximumExists(Lasts(d), d.manifest.lastSequence);
    assert IsMaxSequence(d, m);
  }

  /** LastSequence after a restart: the manifest's, or the newest replayed one. */
  ghost function RecoveredSequence(d: Disk): (m: nat)
    ensures IsMaxSequence(d, m)
  {
    RecoveredSequenceExists(d);
    var m: nat :| IsMaxSequence(d, m);
    m
  }

  /** LogAndApply's edit: the new table set with the counters of the moment. */
  function EditNow(p: Process, tables: set<nat>, logNumber: nat): Manifest {
    Manifest(tables, logNumber, p.lastSequence, p.nextFile)
  }

  /** The front writer starts adding its group's record of so many bytes to the log. */
  ghost predicate CanBeginAppend(s: State, ops: seq<Op>, bytes: nat) {
    s.mode.Up? && s.p.write.NoWrite? && !s.p.bgError && s.p.logfile in s.disk.logs
    && s.p.lastSequence + |ops| < MaxSequence
  }

  ghost function AppendBegun(s: State, ops: seq<Op>, bytes: nat): State
    requires CanBeginAppend(s, ops, bytes)
  {
    s.(p := s.p.(write := Appending(Batch(s.p.lastSequence + 1, ops), bytes, s.disk.logs[s.p.logfile].Readable())))
  }

  /** The record is complete. */
  ghost predicate CanEndAppend(s: State) {
    s.mode.Up? && s.p.write.Appending? && s.p.logfile in s.disk.logs
  }

  /** The log with one more record. */
  ghost function Extended(log: LogFile, b: Batch, bytes: nat): LogFile {
    log.(batches := if log.Readable() then log.batches + [b] else log.batches, length := EndAfter(log.length, bytes))
  }

  ghost function AppendEnded(s: State): State
    requires CanEndAppend(s)
  {
    var w := s.p.write;
    s.(disk := s.disk.(logs := s.disk.logs[s.p.logfile := Extended(s.disk.logs[s.p.logfile], w.batch, w.bytes)]),
       p := s.p.(write := Applying(w.batch, 0, w.clean)))
  }

  /** One operation of the batch reaches the memtable. */
  ghost predicate CanApplyOne(s: State) {
    s.mode.Up? && s.p.write.Applying? && s.p.write.done < |s.p.write.batch.ops|
  }

  ghost function EntryApplied(s: State): State
    requires CanApplyOne(s)
  {
    var w := s.p.write;
    s.(p := s.p.(mem := s.p.mem + {w.batch.EntryAt(w.done)}, write := w.(done := w.done + 1)))
  }

  /** The write becomes visible and returns. */
  ghost predicate CanEndWrite(s: State) {
    s.mode.Up? && s.p.write.Applying? && s.p.write.done == |s.p.write.batch.ops|
  }

  ghost function WriteEnded(s: State): State
    requires CanEndWrite(s)
  {
    s.(p := s.p.(lastSequence := s.p.lastSequence + |s.p.write.batch.ops|, write := NoWrite),
       history := s.history + s.p.write.batch.All())
  }

  /** MakeRoomForWrite's last branch. */
  ghost predicate CanSwitchMemtable(s: State) {
    s.mode.Up? && s.p.write.NoWrite? && !s.p.bgError && s.p.imm.None?
  }

  ghost function MemtableSwitched(s: State): State
    requires CanSwitchMemtable(s)
  {
    var n := s.p.nextFile;
    s.(disk := s.disk.(logs := s.disk.logs[n := EmptyLog]),
       p := MaybeSchedule(s.p.(nextFile := n + 1, logfile := n, imm := Some(s.p.mem), mem := {}), false))
  }

  ghost predicate CanTakeSnapshot(s: State) {
    s.mode.Up?
  }

  ghost function SnapshotTaken(s: State): State
    requires CanTakeSnapshot(s)
  {
    s.(p := s.p.(snapshots := s.p.snapshots + [s.p.lastSequence]))
  }

  ghost predicate CanReleaseSnapshot(s: State, index: nat) {
    s.mode.Up? && index < |s.p.snapshots|
  }

  ghost function SnapshotReleased(s: State, index: nat): State
    requires CanReleaseSnapshot(s, index)
  {
    s.(p := s.p.(snapshots := s.p.snapshots[..index] + s.p.snapshots[index + 1..]))
  }

  /** A reader or iterator takes a reference to the current version. */
  ghost predicate CanPinVersion(s: State) {
    s.mode.Up?
  }

  ghost function VersionPinned(s: State): State
    requires CanPinVersion(s)
  {
    s.(p := s.p.(pinned := s.p.pinned + multiset{s.p.current}))
  }

  ghost predicate CanUnpinVersion(s: State, version: set<nat>) {
    s.mode.Up? && version in s.p.pinned
  }

  ghost function VersionUnpinned(s: State, version: set<nat>): State
    requires CanUnpinVersion(s, version)
  {
    s.(p := s.p.(pinned := s.p.pinned - multiset{version}))
  }

  ghost predicate CanAskForCompaction(s: State) {
    s.mode.Up?
  }

  ghost function CompactionAsked(s: State): State
    requires CanAskForCompaction(s)
  {
    s.(p := MaybeSchedule(s.p, true))
  }

  ghost predicate CanShutDown(s: State) {
    s.mode.Up?
  }

  ghost function ShutDownAsked(s: State): State
    requires CanShutDown(s)
  {
    s.(p := s.p.(shutdown := true))
  }

  /** The environment runs a scheduled background call. */
  ghost predicate CanBeginJob(s: State) {
    s.mode.Up? && s.p.queued > 0
  }

  ghost function JobBegun(s: State): State
    requires CanBeginJob(s)
  {
    s.(p := s.p.(queued := s.p.queued - 1, jobs := s.p.jobs + [Job(NoFlush, NoMerge)]))
  }

  ghost predicate CanEndJob(s: State, j: nat, needs: bool) {
    s.mode.Up? && j < |s.p.jobs| && s.p.jobs[j] == Job(NoFlush, NoMerge)
  }

  ghost function JobEnded(s: State, j: nat, needs: bool): State
    requires CanEndJob(s, j, needs)
  {
    s.(p := MaybeSchedule(s.p.(jobs := s.p.jobs[..j] + s.p.jobs[j + 1..], scheduled := false), needs))
  }

  /** CompactMemTable, on its own or from inside a compaction. */
  ghost predicate CanBeginFlush(s: State, j: nat) {
    s.mode.Up? && j < |s.p.jobs| && s.p.imm.Some? && s.p.jobs[j].flush.NoFlush?
    && (s.p.jobs[j].merge.NoMerge? || s.p.jobs[j].merge.Merging?)
  }

  ghost function FlushBegun(s: State, j: nat): State
    requires CanBeginFlush(s, j)
  {
    var n := s.p.nextFile;
    s.(disk := s.disk.(tables := s.disk.tables[n := {}]),
       p := s.p.(nextFile := n + 1, pending := s.p.pending + {n}).WithFlush(j, Building(n)))
  }

  /** The table is complete, and no longer pending; an empty memtable leaves no file behind. */
  ghost predicate CanBuildTable(s: State, j: nat) {
    s.mode.Up? && j < |s.p.jobs| && s.p.jobs[j].flush.Building? && s.p.imm.Some? && !s.p.shutdown
  }

  ghost function TableBuilt(s: State, j: nat): State
    requires CanBuildTable(s, j)
  {
    var n, imm := s.p.jobs[j].flush.number, s.p.imm.value;
    var added: set<nat> := if imm == {} then {} else {n};
    s.(disk := s.disk.(tables := if imm == {} then s.disk.tables - {n} else s.disk.tables[n := imm]),
       p := s.p.(pending := s.p.pending - {n}).WithFlush(j,
                                                         Committing(n, EditNow(s.p, s.p.current + added, s.p.logfile))))
  }

  ghost predicate CanFailFlush(s: State, j: nat) {
    s.mode.Up? && j < |s.p.jobs| && s.p.jobs[j].flush.Building?
  }

  ghost function FlushFailed(s: State, j: nat): State
    requires CanFailFlush(s, j)
  {
    s.(p := s.p.(pending := s.p.pending - {s.p.jobs[j].flush.number}, bgError := true).WithFlush(j, NoFlush))
  }

  ghost predicate CanCommitFlush(s: State, j: nat) {
    s.mode.Up? && j < |s.p.jobs| && s.p.jobs[j].flush.Committing?
  }

  ghost function FlushDurable(s: State, j: nat): State
    requires CanCommitFlush(s, j)
  {
    var f := s.p.jobs[j].flush;
    s.(disk := s.disk.(manifest := f.edit), p := s.p.WithFlush(j, Durable(f.number, f.edit)))
  }

  ghost predicate CanInstallFlush(s: State, j: nat) {
    s.mode.Up? && j < |s.p.jobs| && s.p.jobs[j].flush.Durable?
  }

  ghost function FlushInstalled(s: State, j: nat): State
    requires CanInstallFlush(s, j)
  {
    var e := s.p.jobs[j].flush.edit;
    s.(p := s.p.(current := e.tables, logNumber := e.logNumber, imm := None).WithFlush(j, NoFlush))
  }

  ghost predicate CanBeginMerge(s: State, j: nat, inputs: set<nat>, entries: seq<Entry>, above: set<Entry>,
                                deeper: set<Entry>, base: UserKey -> bool) {
    s.mode.Up? && j < |s.p.jobs| && s.p.imm.None? && s.p.jobs[j].flush.NoFlush? && s.p.jobs[j].merge.NoMerge?
    && !s.p.bgError && !s.p.shutdown
    && inputs <= s.p.current
    && Compaction.Contents(entries) == TableEntries(s.disk.tables, inputs)
    && above + deeper == TableEntries(s.disk.tables, s.p.current - inputs)
    && Compaction.GoodInputs(entries, above, deeper, base)
  }

  ghost function MergeBegun(s: State, j: nat, inputs: set<nat>, entries: seq<Entry>, above: set<Entry>,
                            deeper: set<Entry>, base: UserKey -> bool): State
    requires CanBeginMerge(s, j, inputs, entries, above, deeper, base)
  {
    var smallest := if s.p.snapshots == [] then s.p.lastSequence else s.p.snapshots[0];
    s.(p := s.p.WithMerge(j, Merging(Plan(inputs, s.p.current, entries, above, deeper, base, smallest), {})))
  }

  ghost predicate CanOpenOutput(s: State, j: nat) {
    s.mode.Up? && j < |s.p.jobs| && s.p.jobs[j].merge.Merging? && s.p.jobs[j].flush.NoFlush?
  }

  ghost function OutputOpened(s: State, j: nat): State
    requires CanOpenOutput(s, j)
  {
    var n := s.p.nextFile;
    s.(disk := s.disk.(tables := s.disk.tables[n := {}]),
       p := s.p.(nextFile := n + 1, pending := s.p.pending + {n})
             .WithMerge(j, Merging(s.p.jobs[j].merge.plan, s.p.jobs[j].merge.outputs + {n})))
  }

  ghost predicate CanWriteOutput(s: State, j: nat, number: nat, contents: set<Entry>) {
    s.mode.Up? && j < |s.p.jobs| && s.p.jobs[j].merge.Merging? && s.p.jobs[j].flush.NoFlush?
        && number in s.p.jobs[j].merge.outputs
  }

  ghost function OutputWritten(s: State, j: nat, number: nat, contents: set<Entry>): State
    requires CanWriteOutput(s, j, number, contents)
  {
    s.(disk := s.disk.(tables := s.disk.tables[number := contents]))
  }

  ghost predicate CanFinishMerge(s: State, j: nat) {
    s.mode.Up? && j < |s.p.jobs| && s.p.jobs[j].merge.Merging? && s.p.jobs[j].flush.NoFlush? && !s.p.shutdown
    && TableEntries(s.disk.tables, s.p.jobs[j].merge.outputs) == s.p.jobs[j].merge.plan.Kept()
  }

  ghost function MergeFinished(s: State, j: nat): State
    requires CanFinishMerge(s, j)
  {
    var m := s.p.jobs[j].merge;
    s.(p := s.p.WithMerge(j,
                          Installing(m.plan, m.outputs,
                                     EditNow(s.p, s.p.current - m.plan.inputs + m.outputs, s.p.logNumber))))
  }

  ghost predicate CanFailMerge(s: State, j: nat) {
    s.mode.Up? && j < |s.p.jobs| && s.p.jobs[j].merge.Merging? && s.p.jobs[j].flush.NoFlush?
  }

  ghost function MergeFailed(s: State, j: nat): State
    requires CanFailMerge(s, j)
  {
    s.(p := s.p.(pending := s.p.pending - s.p.jobs[j].merge.outputs, bgError := true).WithMerge(j, NoMerge))
  }

  ghost predicate CanCommitMerge(s: State, j: nat) {
    s.mode.Up? && j < |s.p.jobs| && s.p.jobs[j].merge.Installing?
  }

  ghost function MergeDurable(s: State, j: nat): State
    requires CanCommitMerge(s, j)
  {
    var m := s.p.jobs[j].merge;
    s.(disk := s.disk.(manifest := m.edit), p := s.p.WithMerge(j, Installed(m.plan, m.outputs, m.edit)),
       floor := if s.floor < m.plan.smallest then m.plan.smallest else s.floor)
  }

  ghost predicate CanInstallMerge(s: State, j: nat) {
    s.mode.Up? && j < |s.p.jobs| && s.p.jobs[j].merge.Installed?
  }

  ghost function MergeInstalled(s: State, j: nat): State
    requires CanInstallMerge(s, j)
  {
    var m := s.p.jobs[j].merge;
    s.(p := s.p.(current := m.edit.tables, pending := s.p.pending - m.outputs).WithMerge(j, NoMerge))
  }

  /** DeleteObsoleteFiles, called by a background job that has no flush under way and at the end of
      an open. What other jobs are at does not matter to it. */
  ghost predicate CanCollect(s: State, j: nat, tables: set<nat>, logs: set<nat>) {
    (s.mode.Collecting?
     || (s.mode.Up? && j < |s.p.jobs| && s.p.jobs[j].flush.NoFlush?
         && (s.p.jobs[j].merge.NoMerge? || s.p.jobs[j].merge.Merging?)))
    && Collectable(s, tables, logs)
  }

  ghost function Collected(s: State, j: nat, tables: set<nat>, logs: set<nat>): State
    requires CanCollect(s, j, tables, logs)
  {
    s.(disk := s.disk.(tables := s.disk.tables - tables, logs := s.disk.logs - logs))
  }

  /** The process dies: a batch already logged counts as written. Of a record that is not complete
      the first bytes may be there, and hide the rest of a block when they end inside a fragment. */
  ghost predicate CanCrash(s: State, written: nat) {
    !s.mode.Down?
    && (s.p.write.Appending? && s.p.logfile in s.disk.logs ==>
          var n := s.disk.logs[s.p.logfile].length; n + written < EndAfter(n, s.p.write.bytes))
  }

  ghost function Cut(log: LogFile, bytes: nat, written: nat): LogFile {
    var m := log.length + written;
    log.(length := m, hiddenTo := if CutThrough(log.length, bytes, m) then m + Leftover(m) else log.hiddenTo)
  }

  ghost function Crashed(s: State, written: nat): State
    requires CanCrash(s, written)
  {
    var n := s.p.logfile;
    s.(mode := Down, p := FreshProcess, history := s.history + InFlight(s.p),
       disk := if s.p.write.Appending? && n in s.disk.logs
               then s.disk.(logs := s.disk.logs[n := Cut(s.disk.logs[n], s.p.write.bytes, written)])
               else s.disk)
  }

  /** An open that dies before it commits anything leaves tables, perhaps incomplete ones, and perhaps
      a new log. */
  ghost predicate CanBreakOff(s: State, left: map<nat, set<Entry>>, log: Option<nat>) {
    var d := s.disk;
    && s.mode.Down?
    && (forall n | n in left :: n > d.manifest.nextFile)
    && (log.Some? ==> log.value > d.manifest.nextFile && forall n | n in Replayed(d) :: log.value > n)
  }

  ghost function BrokenOff(s: State, left: map<nat, set<Entry>>, log: Option<nat>): State
    requires CanBreakOff(s, left, log)
  {
    s.(disk := s.disk.(tables := s.disk.tables + left,
                       logs := if log.None? then s.disk.logs else s.disk.logs[log.value := EmptyLog]))
  }

  ghost function Restored(s: State, split: map<nat, set<Entry>>, reuse: bool, newLog: nat, nextFile: nat,
                          newManifest: bool): State
    requires CanRestore(s, split, reuse, newLog, nextFile, newManifest)
  {
    var d := s.disk;
    var tables, last := d.manifest.tables + split.Keys, RecoveredSequence(d);
    State(d.(tables := d.tables + split, logs := if reuse then d.logs else d.logs[newLog := EmptyLog]),
          if newManifest then Opening(Manifest(tables, newLog, last, nextFile)) else Collecting,
          FreshProcess.(mem := if reuse && newLog in d.logs then Logged(d.logs[newLog].batches) else {},
                        logfile := newLog, current := tables, lastSequence := last, nextFile := nextFile,
                        logNumber := if newManifest then newLog else d.manifest.logNumber),
          s.history, s.floor)
  }

  ghost predicate CanCommitOpen(s: State) {
    s.mode.Opening?
  }

  ghost function OpenDurable(s: State): State
    requires CanCommitOpen(s)
  {
    s.(disk := s.disk.(manifest := s.mode.edit), mode := Collecting)
  }

  ghost predicate CanFinishOpen(s: State, needs: bool) {
    s.mode.Collecting?
  }

  ghost function OpenDone(s: State, needs: bool): State
    requires CanFinishOpen(s, needs)
  {
    s.(mode := Up, p := MaybeSchedule(s.p, needs))
  }

  ghost predicate Enabled(s: State, step: Step) {
    match step
    case BeginAppend(ops, bytes) => CanBeginAppend(s, ops, bytes)
    case EndAppend => CanEndAppend(s)
    case ApplyOne => CanApplyOne(s)
    case EndWrite => CanEndWrite(s)
    case SwitchMemtable => CanSwitchMemtable(s)
    case TakeSnapshot => CanTakeSnapshot(s)
    case ReleaseSnapshot(index) => CanReleaseSnapshot(s, index)
    case PinVersion => CanPinVersion(s)
    case UnpinVersion(version) => CanUnpinVersion(s, version)
    case AskForCompaction => CanAskForCompaction(s)
    case ShutDown => CanShutDown(s)
    case BeginJob => CanBeginJob(s)
    case EndJob(j, needs) => CanEndJob(s, j, needs)
    case BeginFlush(j) => CanBeginFlush(s, j)
    case BuildTable(j) => CanBuildTable(s, j)
    case FailFlush(j) => CanFailFlush(s, j)
    case CommitFlush(j) => CanCommitFlush(s, j)
    case InstallFlush(j) => CanInstallFlush(s, j)
    case BeginMerge(j, inputs, entries, above, deeper, base) => CanBeginMerge(s, j, inputs, entries, above, deeper,
                                                                              base)
    case OpenOutput(j) => CanOpenOutput(s, j)
    case WriteOutput(j, number, contents) => CanWriteOutput(s, j, number, contents)
    case FinishMerge(j) => CanFinishMerge(s, j)
    case FailMerge(j) => CanFailMerge(s, j)
    case CommitMerge(j) => CanCommitMerge(s, j)
    case InstallMerge(j) => CanInstallMerge(s, j)
    case Collect(j, tables, logs) => CanCollect(s, j, tables, logs)
    case Crash(written) => CanCrash(s, written)
    case BreakOff(left, log) => CanBreakOff(s, left, log)
    case Restore(split, reuse, newLog, nextFile, newManifest) => CanRestore(s, split, reuse, newLog, nextFile,
                                                                            newManifest)
    case CommitOpen => CanCommitOpen(s)
    case FinishOpen(needs) => CanFinishOpen(s, needs)
  }

  ghost function Next(s: State, step: Step): State
    requires Enabled(s, step)
  {
    match step
    case BeginAppend(ops, bytes) => AppendBegun(s, ops, bytes)
    case EndAppend => AppendEnded(s)
    case ApplyOne => EntryApplied(s)
    case EndWrite => WriteEnded(s)
    case SwitchMemtable => MemtableSwitched(s)
    case TakeSnapshot => SnapshotTaken(s)
    case ReleaseSnapshot(index) => SnapshotReleased(s, index)
    case PinVersion => VersionPinned(s)
    case UnpinVersion(version) => VersionUnpinned(s, version)
    case AskForCompaction => CompactionAsked(s)
    case ShutDown => ShutDownAsked(s)
    case BeginJob => JobBegun(s)
    case EndJob(j, needs) => JobEnded(s, j, needs)
    case BeginFlush(j) => FlushBegun(s, j)
    case BuildTable(j) => TableBuilt(s, j)
    case FailFlush(j) => FlushFailed(s, j)
    case CommitFlush(j) => FlushDurable(s, j)
    case InstallFlush(j) => FlushInstalled(s, j)
    case BeginMerge(j, inputs, entries, above, deeper, base) => MergeBegun(s, j, inputs, entries, above, deeper, base)
    case OpenOutput(j) => OutputOpened(s, j)
    case WriteOutput(j, number, contents) => OutputWritten(s, j, number, contents)
    case FinishMerge(j) => MergeFinished(s, j)
    case FailMerge(j) => MergeFailed(s, j)
    case CommitMerge(j) => MergeDurable(s, j)
    case InstallMerge(j) => MergeInstalled(s, j)
    case Collect(j, tables, logs) => Collected(s, j, tables, logs)
    case Crash(written) => Crashed(s, written)
    case BreakOff(left, log) => BrokenOff(s, left, log)
    case Restore(split, reuse, newLog, nextFile, newManifest) => Restored(s, split, reuse, newLog, nextFile,
                                                                          newManifest)
    case CommitOpen => OpenDurable(s)
    case FinishOpen(needs) => OpenDone(s, needs)
  }

  /** A run of the machine. */
  ghost predicate Run(states: seq<State>, steps: seq<Step>) {
    && |states| == |steps| + 1
    && states[0] == NewDatabase
    && forall i | 0 <= i < |steps| :: Enabled(states[i], steps[i]) && states[i + 1] == Next(states[i], steps[i])
  }
}
