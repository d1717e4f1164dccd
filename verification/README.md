# LevelDB, nanopb and loan arithmetic: a verified model

The repository vendors two systems libraries under `PracticeApp/Pods` and holds a calculation engine
for home loans and taxes under `real-estate-analyzer/js`. This project models their most intricate
parts in Dafny and proves what they are for.

## The parts

**The storage engine** (`Entries`, `WriteBatch`, `Compaction`, `CompactionWork`, `EngineState`,
`EngineInvariant`, `EngineJobs`, `EngineRestart`, `EngineTheorems`, `EngineImpl`, `EngineGet`,
`EngineReaders`, `EngineAnswers`, `EngineProgress`, `EngineReuse`, `EngineOutputs`, `EngineLogs`,
`GroupCommit`, `EngineWriters`, `Snapshots`). The engine is a machine whose steps are the stretches of
`db_impl.cc` that run under the mutex and the durable effects of those that do not; a crash may fall
between any two. The disk is a set of table files, log files as lists of batches with their length in
bytes and what an incomplete record hides, and a manifest that changes atomically. Every running
background job has a phase of its own; that there is at most one is proved, not built in.
`EngineInvariant`, `EngineJobs` and `EngineRestart` show that every step keeps one invariant,
`EngineTheorems` draws the conclusions over whole runs, and `EngineImpl` holds the loops of `db_impl.cc`
(file collection, making room, recovery, opening) as methods of a class and proves them to take the
machine's steps. `EngineLogs` shows that the machine's logs are what the reader of the log format finds in
files of bytes. `CompactionWork` does the same for the merge loop, whose files `EngineOutputs` ties to the
machine's steps, and `GroupCommit` for the write queue, with any interleaving of callers; `EngineWriters`
runs callers and engine as one. `EngineReaders` follows a read that takes its time, `EngineAnswers` what a
snapshot and a finished write are answered for the rest of a run, `EngineProgress` what can always still
be done, and `EngineReuse` the writes of a reopened database. User keys appear as their position in the
comparator's order, a real number, since every countable total order embeds in the reals.

**The ordered structures** (`DbIter`, `SkipList`, `SkipReaders`, `MemTable`, `DbFormat`). The iterator is
proved to be a cursor over the newest visible, undeleted version of each key through every change of
direction; the skip list, pointer by pointer, to be a sorted list, and a search whose looks fall between
the writer's stores to answer for one moment of its duration.

**The log** (`Coding`, `LogFormat`, `LogBytes`, `LogWriter`, `LogReader`, `LogTheorems`, `LogDamage`,
`LogReports`, `LogReuse`, `LogContainment`, `LogLoss`). Writer and reader are classes over bytes; the
reader is proved to compute a parsing function of the file, and the theorems are about that function;
`LogBytes` says what each byte of a file is. The checksum is any function of the bytes it covers.

**The message codec** (`PbTypes`, `PbWire`, `PbFormat`, `PbRoundTrip`, `PbOrder`, `PbIter`, `PbDecode`,
`PbRequired`, `PbMessage`, `PbEncode`, `PbWriter`, `PbFidelity`, `PbSafety`, `PbCompatibility`,
`PbBytes`). Messages are tables of fields and values of matching shape. The streams are classes; the
encoder and decoder work in place on a buffer and on the struct's slots and are proved to compute an
encoding and a decoding function, about which round trip, order independence, sizing, what comes back,
what any accepted bytes can leave in a struct, and what tables that differ make of each other's messages
are proved; `PbBytes` says what each byte is. The wire format is that of the Protocol Buffers Encoding
guide, sections "Base 128 Varints", "Signed Integers" and "Length-Delimited Records".

**Loans and taxes** (`Amortisation`, `Lending`, `LendingCases`, `Taxes`). Amounts are exact reals and
terms whole months.

## Where the code falls short of its promise

- A log that ends in an incomplete record may be kept for writing (`db_impl.cc:454-474`, with
  `log_writer.cc:28-31` taking the file's length as it is). What is written behind the stump, in the same
  block, is lost although its writes returned: `EngineTheorems.TornReuseLosesAWrite`, and
  `LogDamage.TornReuseLosesRecord` at the level of bytes, whatever the checksum. `LogReuse.ReuseFindsIff`
  is the exact condition for the next record and `LogReuse.HistoryReads` for all later ones; records that
  begin in later blocks are found again; `EngineReuse.FoundIffReadable` is the condition for every write of
  a reopened database. The theorems over whole runs therefore ask that nothing at the end
  of a log which is kept hides what is appended, which the log's length and the place of the cut decide.
- Compaction forgets which key it is at when a key does not parse, so a corrupt key between a deletion
  marker and an older value brings the value back (`Compaction.CorruptKeyUncovers`). So does a compaction
  that takes a marker without an older value in a neighbouring file of the same level
  (`Compaction.StraddledKeyUncovers`). `Compaction.PreservesReads` is the exact condition, told by the
  inputs and the other entries alone.
- An optional field without a flag of its own is sent only when a search finds something in it
  (`pb_encode.c:203-265`). In a submessage the search looks at the first item of an array and never at
  counts, flags and tags, so an array [0, 5] is not sent and its content is lost
  (`PbFidelity.SilentArrayIsLost`); so is a zero where the table declares another default.
  `PbFidelity.ComesBackIff` is the exact condition for a message to come back with its content.
- The bisection for equal-principal loans starts from too small a bracket for short terms with little
  interest, and then stays below the true maximum: `Lending.BisectionIsClose` gives the condition, and
  `Lending.OneMonthMisses` terms that fail it.
- With a negative room the granted amount is zero, whose yearly payment of zero exceeds the room:
  `Lending.LoanLimit` fits the room exactly when it is not negative, and `Lending.DebtBeyondRoom` is a case.
- The closed-form balance is zero for a negative principal before the first month, the schedule's is
  not: `Amortisation.ClosedForm`.
- A reader that starts in the middle of a file may report dropped bytes although nothing is damaged:
  `LogReports.SilentIff` says exactly when, and `LogReports.FalseReport` gives such files.

## Model

| member | source | states |
|---|---|---|
| Entries.ReadLayered | PracticeApp/Pods/leveldb-library/db/db_impl.cc:1130-1142 | when everything in one layer is newer than everything in another, a read of both together is answered by the newer layer as soon as that layer has an entry for the key at the snapshot, and by the older one otherwise |
| WriteBatch.OperationAnswers | PracticeApp/Pods/leveldb-library/db/write_batch.cc:116-145 | whatever older entries there are, a read at the sequence number of a batch's i-th operation is answered that operation's value if it is a put, and nothing if it is a deletion |
| WriteBatch.LastOperationAnswers | PracticeApp/Pods/leveldb-library/db/write_batch.cc:116-145 | after a whole batch, a read is answered by the last operation on its key |
| Compaction.PreservesReads | PracticeApp/Pods/leveldb-library/db/db_impl.cc:936-971 | whatever other entries, newer or older, the merge does not touch: for every user key and every snapshot at or after the smallest one, the survivors answer every read as the inputs did, if and only if the inputs show no pattern of this kind: a marker over a base level that is its key's answer at the smallest snapshot, and an older value of the key, outside the inputs or right behind an input key that does not parse, with no marker outside between the two |
| Compaction.DroppedIff | PracticeApp/Pods/leveldb-library/db/db_impl.cc:936-971 | an entry is dropped exactly when it answers no snapshot at or after the smallest one, or is a deletion marker over a base level that is its key's answer at the smallest snapshot |
| Compaction.BroughtBackIsVisible | PracticeApp/Pods/leveldb-library/db/db_impl.cc:936-971 | wherever that pattern occurs, a reader at the smallest snapshot is answered that value or a newer one where it was answered a deletion |
| Compaction.GoodInputsAreHarmless | PracticeApp/Pods/leveldb-library/db/db_impl.cc:936-971 | the pattern cannot occur, and no read at the smallest snapshot or later changes, when every input key parses, what is above is newer and no deeper file spans a key that the cursors call a base key |
| Compaction.CorruptKeyUncovers | PracticeApp/Pods/leveldb-library/db/db_impl.cc:938-971 | for any marker the oldest snapshot covers, any key that does not parse and any older value of the same user key, in this order, the pattern occurs in inputs that are otherwise in order |
| Compaction.StraddledKeyUncovers | PracticeApp/Pods/leveldb-library/db/version_set.cc:1291-1343 | for any marker taken without the file that holds an older value of its key, the value comes back |
| Compaction.NewestIsNotHidden | PracticeApp/Pods/leveldb-library/db/db_impl.cc:955-957 | rule (A) never drops the entry that answers a snapshot at or after the smallest one |
| Compaction.KeptIsPart | PracticeApp/Pods/leveldb-library/db/db_impl.cc:936-971 | a compaction invents no entry |
| CompactionWork.DoCompactionWork | PracticeApp/Pods/leveldb-library/db/db_impl.cc:909-1020 | the loop, with its remembered key and sequence number, its level cursors and its output files cut wherever the environment says, writes exactly the entries the drop rules keep, in order, and fails exactly when a shutdown is seen |
| CompactionWork.BaseLevels.IsBaseLevelForKey | PracticeApp/Pods/leveldb-library/db/version_set.cc:1484-1503 | true exactly when no file of a deeper level spans the key, although the cursors only move forward |
| CompactionWork.AddEntry | PracticeApp/Pods/leveldb-library/db/db_impl.cc:983-1004 | the entry follows everything written so far, in a new file if none is open, and every file's recorded range is that of its first and last entry |
| CompactionWork.WorkOutputs | PracticeApp/Pods/leveldb-library/db/db_impl.cc:983-1014 | wherever the files are cut, their ranges are strictly ordered |
| EngineOutputs.LoopEnablesFinish | PracticeApp/Pods/leveldb-library/db/db_impl.cc:887-1046 | in a run, with other steps anywhere in between: when the output files a compaction opened and wrote entry by entry are what the merge loop keeps, the compaction's edit can be built, unless its job is flushing or a shutdown was asked for |
| EngineOutputs.FilesHoldAll | PracticeApp/Pods/leveldb-library/db/db_impl.cc:788-863 | the table files of a running compaction hold exactly the entries of the loop's outputs |
| EngineOutputs.LoopGoesOn | PracticeApp/Pods/leveldb-library/db/db_impl.cc:974-1004 | the loop can open its next file and write to its last one whenever its job is not flushing |
| EngineRestart.InvStep | PracticeApp/Pods/leveldb-library/db/db_impl.cc:145-1532 | every step of the machine (group write, memtable switch, flush, compaction, collection, snapshots, crash, recovery, open) keeps the engine's invariant, provided nothing at the end of a log that is kept hides what is appended to it |
| EngineRestart.RunInv | PracticeApp/Pods/leveldb-library/db/db_impl.cc:145-1532 | the invariant holds in every state of every such run from a new database |
| EngineRestart.KeepsCrash | PracticeApp/Pods/leveldb-library/db/db_impl.cc:1228-1256 | a crash at any step leaves a disk from which everything written, including the batch whose record is complete, reads as before |
| EngineRestart.KeepsRestore | PracticeApp/Pods/leveldb-library/db/db_impl.cc:274-486 | recovering from any such disk, whether logs are written to tables or the last one is reused, gives a process that satisfies the invariant again, before and after its edit is committed |
| EngineRestart.KeepsBreakOff | PracticeApp/Pods/leveldb-library/db/db_impl.cc:274-511 | a recovery that dies before its edit is committed, leaving some tables, whole or not, and perhaps a new log, leaves a disk from which everything reads as before |
| EngineRestart.KeepsFinishOpen | PracticeApp/Pods/leveldb-library/db/db_impl.cc:1512-1515 | an open that has collected its files may start serving |
| EngineState.RecoveredSequence | PracticeApp/Pods/leveldb-library/db/db_impl.cc:336-362 | after a restart the last sequence number is that of the manifest or of the newest batch replayed, whichever is greater |
| EngineInvariant.KeepsBeginAppend | PracticeApp/Pods/leveldb-library/db/db_impl.cc:1222-1232 | a record half written changes nothing a restart would find |
| EngineInvariant.KeepsEndAppend | PracticeApp/Pods/leveldb-library/db/db_impl.cc:1222-1232 | a complete record is newer than everything else and is found by a restart |
| EngineInvariant.KeepsApplyOne | PracticeApp/Pods/leveldb-library/db/db_impl.cc:1244-1246 | a batch half applied is invisible to readers and leaves the layers ordered |
| EngineInvariant.KeepsEndWrite | PracticeApp/Pods/leveldb-library/db/db_impl.cc:1247-1256 | once the last sequence number moves, readers see the whole batch and nothing else changes |
| EngineJobs.KeepsSwitchMemtable | PracticeApp/Pods/leveldb-library/db/db_impl.cc:1354-1376 | after a switch the older logs hold the immutable memtable and the new log the memtable, and a background job is scheduled |
| EngineJobs.KeepsBeginFlush | PracticeApp/Pods/leveldb-library/db/db_impl.cc:488-495 | a table file that is being built is pending and disturbs nobody |
| EngineJobs.KeepsBuildTable | PracticeApp/Pods/leveldb-library/db/db_impl.cc:495-526 | the built table holds the immutable memtable and is named by the edit, although it is no longer pending |
| EngineJobs.KeepsCommitFlush | PracticeApp/Pods/leveldb-library/db/db_impl.cc:549-554 | with the edit durable, a restart finds the flushed entries in the table instead of the old logs |
| EngineJobs.KeepsInstallFlush | PracticeApp/Pods/leveldb-library/db/db_impl.cc:556-561 | installing the edit and dropping the immutable memtable changes no read |
| EngineJobs.KeepsFailFlush | PracticeApp/Pods/leveldb-library/db/db_impl.cc:545-564 | a failed or interrupted flush loses nothing |
| EngineJobs.KeepsBeginMerge | PracticeApp/Pods/leveldb-library/db/db_impl.cc:900-906 | a compaction's plan fixes the oldest snapshot in use, and no live snapshot can be older |
| EngineJobs.KeepsOpenOutput | PracticeApp/Pods/leveldb-library/db/db_impl.cc:788-811 | an output file is pending and not live |
| EngineJobs.KeepsWriteOutput | PracticeApp/Pods/leveldb-library/db/db_impl.cc:813-863 | writing an output file changes no read |
| EngineJobs.KeepsFinishMerge | PracticeApp/Pods/leveldb-library/db/db_impl.cc:866-884 | the edit of a finished merge replaces its inputs by the kept entries, whatever was flushed meanwhile |
| EngineJobs.KeepsCommitMerge | PracticeApp/Pods/leveldb-library/db/db_impl.cc:866-884 | with the edit durable, a restart reads as before at every snapshot from the compaction's smallest on |
| EngineJobs.KeepsInstallMerge | PracticeApp/Pods/leveldb-library/db/db_impl.cc:771-786 | installing the edit changes no read at a live snapshot, those taken during the compaction included |
| EngineJobs.KeepsFailMerge | PracticeApp/Pods/leveldb-library/db/db_impl.cc:737-745 | a failed compaction loses nothing |
| EngineJobs.KeepsCollect | PracticeApp/Pods/leveldb-library/db/db_impl.cc:218-272 | file collection keeps the invariant, also from inside a running compaction |
| EngineJobs.MergeKeepsReads | PracticeApp/Pods/leveldb-library/db/db_impl.cc:887-1046 | exchanging a compaction's inputs for its outputs under all newer tables and layers loses nothing from the compaction's smallest snapshot on |
| EngineTheorems.GetFollowsHistory | PracticeApp/Pods/leveldb-library/db/db_impl.cc:1109-1154 | in every state kept by the invariant a layered lookup at the latest sequence number or at a live snapshot answers like the whole history of writes |
| EngineAnswers.SnapshotStays | PracticeApp/Pods/leveldb-library/db/db_impl.cc:1175-1183 | a snapshot taken in a run is in the list, at the place its handle has after the releases of others, with the number it was taken at, in every later state until it is released or the process dies |
| EngineAnswers.SnapshotAnswers | PracticeApp/Pods/leveldb-library/db/db_impl.cc:1109-1154 | in every such state a lookup at the snapshot answers like the whole history of writes at the moment it was taken, whatever was written, flushed, merged or collected since |
| EngineAnswers.WriteIsAnswered | PracticeApp/Pods/leveldb-library/db/db_impl.cc:1194-1265 | from the step that ends a write on, in every later state of the run that is up, through crashes and restarts, a lookup at the latest sequence number is answered by the last operation of its batch on the key, the value of a put or nothing for a deletion, until another record with the key is complete |
| EngineAnswers.PinsAreCounted | PracticeApp/Pods/leveldb-library/db/db_impl.cc:1121-1152 | as many references to a version are counted as were taken and not given back |
| EngineAnswers.TakenIsHeld | PracticeApp/Pods/leveldb-library/db/db_impl.cc:1121-1152 | a reader who took a reference holds the version as long as nobody gives back more references than were taken |
| EngineAnswers.FailureStopsAll | PracticeApp/Pods/leveldb-library/db/db_impl.cc:637-661 | after a failed flush or compaction, and until the process dies, no write begins, no memtable is switched, no file is collected and no job is scheduled |
| EngineAnswers.ShutdownStopsWork | PracticeApp/Pods/leveldb-library/db/db_impl.cc:149-156 | after a shutdown was asked for, and until the process ends, no table is finished, no compaction begins or finishes, and no job is scheduled |
| EngineProgress.WriteCanEnd | PracticeApp/Pods/leveldb-library/db/db_impl.cc:1222-1256 | from every state of a run a write that has begun can end, in as many steps as its batch has operations and two more: nothing it needs is ever taken away |
| EngineProgress.AnyBatchCanBeServed | PracticeApp/Pods/leveldb-library/db/db_impl.cc:1194-1265 | from every state of a run without error and with no write under way, any batch can be written, and a lookup is then answered by its last operation on the key |
| EngineProgress.FlushCanEnd | PracticeApp/Pods/leveldb-library/db/db_impl.cc:645-735 | from every state of a run without error and shutdown a full immutable memtable can be flushed in at most six steps, whatever the background job is at |
| EngineProgress.OpenCanEnd | PracticeApp/Pods/leveldb-library/db/db_impl.cc:1490-1532 | from every state of a run in which the database is not up it can be opened, with everything written so far |
| EngineProgress.WorkIsScheduled | PracticeApp/Pods/leveldb-library/db/db_impl.cc:645-684 | after a request, a switch or the end of a job a call is scheduled exactly when one was or there is work, and neither error nor shutdown |
| EngineProgress.MergeReclaims | PracticeApp/Pods/leveldb-library/db/db_impl.cc:900-971 | of all versions of a key that the oldest snapshot, or without one the latest sequence number, sees, a compaction keeps one at most, and that is no deletion marker over a base level |
| EngineProgress.ReplacedTablesCanGo | PracticeApp/Pods/leveldb-library/db/db_impl.cc:218-272 | once a compaction is installed, file collection may delete each of its inputs that no reader's version names |
| EngineProgress.FlushedLogsCanGo | PracticeApp/Pods/leveldb-library/db/db_impl.cc:218-272 | once a flush is installed, file collection may delete every log before the current one |
| EngineReaders.SlowGetFollowsHistory | PracticeApp/Pods/leveldb-library/db/db_impl.cc:1109-1154 | a Get that took its snapshot, memtables and version in one state of a run and looks at the memtable and the version's files in later ones, with any steps but a crash in between, answers like the history of writes at the moment it took them |
| EngineReaders.MemtableGrows | PracticeApp/Pods/leveldb-library/db/db_impl.cc:1121-1138 | the memtable a Get holds only gains entries newer than its snapshot, and rests once it is switched |
| EngineReaders.VersionRests | PracticeApp/Pods/leveldb-library/db/db_impl.cc:1123-1152 | the files of a version that is held stay as they are |
| EngineTheorems.NothingIsLost | PracticeApp/Pods/leveldb-library/db/db_impl.cc:274-486 | at every moment of every run what a restart would find reads like everything written so far, the batch in flight included once its record is complete |
| EngineTheorems.FinishedWritesSurvive | PracticeApp/Pods/leveldb-library/db/db_impl.cc:1194-1265 | a write that returned is in the history for good, and every later read at the latest sequence number answers like that history, through crashes and restarts |
| EngineTheorems.LayersStayOrdered | PracticeApp/Pods/leveldb-library/db/db_impl.cc:1130-1142 | in every state of a run sequence numbers in the memtable exceed those in the immutable memtable, which exceed those in the tables |
| EngineTheorems.OneBackgroundJob | PracticeApp/Pods/leveldb-library/db/db_impl.cc:645-684 | queued and running background jobs together are never more than one, and a full immutable memtable without error or shutdown always has one |
| EngineTheorems.NeededFilesExist | PracticeApp/Pods/leveldb-library/db/db_impl.cc:488-532 | every live and committed table, the outputs of a running compaction and a flushed table that is not committed yet are on disk |
| EngineTheorems.LiveTablesNeverChange | PracticeApp/Pods/leveldb-library/db/db_impl.cc:218-272 | no step deletes or rewrites a table that a version in use names |
| EngineTheorems.CollectionIsSafe | PracticeApp/Pods/leveldb-library/db/db_impl.cc:218-272 | file collection deletes no live table, no output in progress, no log a restart needs, not the current log, and no flushed table whose edit is still being committed; the last because the collecting job is the only one |
| EngineTheorems.TwoJobsWouldCollide | PracticeApp/Pods/leveldb-library/db/db_impl.cc:645-684 | with a second job running, a collection by it could delete such a table, which is neither live nor pending |
| EngineTheorems.TornReuseLosesAWrite | PracticeApp/Pods/leveldb-library/db/db_impl.cc:454-474 | with log reuse a reachable state has lost a write that returned: the reused log ended in what was left of an incomplete record |
| EngineReuse.FoundIffReadable | PracticeApp/Pods/leveldb-library/db/db_impl.cc:454-474 | after any open from any state of the invariant, a log kept or not: until the memtable is switched, a compaction begins or the process dies, every write that returned is wholly found by a restart if, when its record began, nothing a crash had left in the log hid it, and else none of its entries is |
| EngineLogs.LogsReadBack | PracticeApp/Pods/leveldb-library/db/db_impl.cc:1222-1232 | in every run each log of the machine, with its length and what is hidden in it, is a file of bytes put together from records and the beginnings of records, in which a reader finds the records of exactly the batches the machine expects to replay, unless the checksum accepts what stands where a record was cut |
| EngineImpl.DBImpl.DeleteObsoleteFiles | PracticeApp/Pods/leveldb-library/db/db_impl.cc:218-272 | of the listed tables those in use or pending stay, of the listed logs those from the current number on and the previous one, and nothing else changes; after a background error nothing is deleted; and the machine's collection step allows what is |
| EngineImpl.DBImpl.MaybeScheduleCompaction | PracticeApp/Pods/leveldb-library/db/db_impl.cc:645-661 | afterwards a call is scheduled exactly when one was, or when there is an immutable memtable or a needed compaction and neither shutdown nor error; and at most one is added to the queue |
| EngineImpl.DBImpl.MakeRoom | PracticeApp/Pods/leveldb-library/db/db_impl.cc:1318-1379 | one look of MakeRoomForWrite: when exactly it slows down, finds room, waits and fails, told by error, delay, level-0 files, force, a full memtable and an immutable one; otherwise it switches, which is the machine's step, and nothing else changes the state |
| EngineImpl.DBImpl.SwitchMemtable | PracticeApp/Pods/leveldb-library/db/db_impl.cc:1354-1376 | the switch is the machine's step: new log number, empty log, memtable moved, job scheduled |
| EngineImpl.DBImpl.WriteLevel0Table | PracticeApp/Pods/leveldb-library/db/db_impl.cc:488-532 | a memtable goes to a file with the next number and into the edit, an empty one to none, and the number is pending only meanwhile |
| EngineImpl.DBImpl.RecoverLogFile | PracticeApp/Pods/leveldb-library/db/db_impl.cc:365-486 | whenever the memtable fills up, everything in the log ends in the edit's tables or, for a reused last log, in the kept memtable; the edit must be saved exactly when something was written out; the maximum covers every batch |
| EngineImpl.DBImpl.LogsToReplay | PracticeApp/Pods/leveldb-library/db/db_impl.cc:308-335 | the logs found are those the manifest asks for, in ascending order, and the search fails exactly when a committed table is missing |
| EngineImpl.DBImpl.ReplayLogs | PracticeApp/Pods/leveldb-library/db/db_impl.cc:336-357 | after all logs their contents are in the edit's tables, but for a kept last log, and every number used is below the next one |
| EngineImpl.DBImpl.Recover | PracticeApp/Pods/leveldb-library/db/db_impl.cc:274-363 | leaves the committed version, tables for the replayed logs, the greatest sequence number found, and at most the last log kept with its memtable |
| EngineImpl.DBImpl.Restore | PracticeApp/Pods/leveldb-library/db/db_impl.cc:1490-1511 | recovering, starting a log if none was kept and committing the edit is the machine's restore step followed by its commit |
| EngineImpl.DBImpl.Open | PracticeApp/Pods/leveldb-library/db/db_impl.cc:1490-1532 | a successful open is the machine's restore, commit, collection and finishing steps, and it fails exactly when a committed table is missing |
| EngineImpl.OpenIsSafe | PracticeApp/Pods/leveldb-library/db/db_impl.cc:1490-1532 | an open after any crash keeps the engine's invariant as long as nothing at the end of a log that is kept hides what is appended to it |
| EngineImpl.MaxIsRecovered | PracticeApp/Pods/leveldb-library/db/db_impl.cc:345-362 | the running maximum over logs and batches is the machine's recovered sequence number |
| EngineGet.Get | PracticeApp/Pods/leveldb-library/db/db_impl.cc:1109-1154 | looking through memtable, immutable memtable and tables and stopping at the first answer gives the newest entry of all three at the snapshot |
| GroupCommit.BuildBatchGroup | PracticeApp/Pods/leveldb-library/db/db_impl.cc:1269-1314 | the group is the longest run of queued writers that may join its leader: none syncs unless the leader does, none takes the size over 1 MiB, or over the leader's plus 128 KiB for a small leader, and the next one would; its batch is their operations in order |
| GroupCommit.OperationAt | PracticeApp/Pods/leveldb-library/db/db_impl.cc:1269-1314 | every operation of every writer of a group is in its batch, at the place its predecessors leave it |
| GroupCommit.InvStep | PracticeApp/Pods/leveldb-library/db/db_impl.cc:1194-1265 | every step of any interleaving of writers keeps the queue, numbering, log and wake-up invariant |
| GroupCommit.OnceInOrder | PracticeApp/Pods/leveldb-library/db/db_impl.cc:1194-1265 | in a run without a failure the log holds the operations of every served call once, in the order of the calls, numbered without gaps, and the memtable gets the same batches in the same order |
| GroupCommit.NumberedAt | PracticeApp/Pods/leveldb-library/db/db_impl.cc:1218-1222 | in a gapless log the operation with sequence number n is the n-th one logged |
| GroupCommit.SuccessIsLogged | PracticeApp/Pods/leveldb-library/db/db_impl.cc:1194-1265 | whatever fails elsewhere, a call that returned success is in exactly one record, complete, applied, and synced if it asked for that |
| GroupCommit.FailedSyncIsFinal | PracticeApp/Pods/leveldb-library/db/db_impl.cc:1228-1242 | after a sync that failed every call still waiting, and every later one, fails and nothing more is logged or applied |
| GroupCommit.NobodySleepsForever | PracticeApp/Pods/leveldb-library/db/db_impl.cc:1194-1265 | a call still waiting has its answer and a signal or is queued, and the front of the queue is at work or signalled |
| EngineWriters.ServedCallsAreWritten | PracticeApp/Pods/leveldb-library/db/db_impl.cc:1194-1265 | callers and engine run as one machine, background work falling anywhere in between: a call that returned success is, with its whole group, in one record whose entries are written, nothing but applied batches is, reads follow all of it, and a restart at that moment would find what reads the same |
| EngineWriters.StepTied | PracticeApp/Pods/leveldb-library/db/db_impl.cc:1194-1265 | every joint step keeps the engine's write at what the group commit is at, and the history equal to the batches whose writes have ended |
| DbIter.ViewIsReads | PracticeApp/Pods/leveldb-library/db/db_iter.cc:173-203 | the sorted view holds exactly the key and value pairs a read at the snapshot answers |
| DbIter.ViewAscends | PracticeApp/Pods/leveldb-library/db/db_iter.cc:173-203 | the view holds each user key once, in ascending order |
| DbIter.MoveLands | PracticeApp/Pods/leveldb-library/db/db_iter.cc:146-304 | told by reads alone: each move of the cursor over the view lands on the nearest key in its direction that a read at the snapshot finds, with the value it finds, and off the end exactly when there is none |
| DbIter.DBIter.FindNextUserEntry | PracticeApp/Pods/leveldb-library/db/db_iter.cc:173-203 | stops at the first newest visible version of a key that is not deleted and not skipped, and passes no other |
| DbIter.DBIter.FindPrevUserEntry | PracticeApp/Pods/leveldb-library/db/db_iter.cc:232-272 | scanning backward, stops with the last live key at or before the position and its newest visible value |
| DbIter.DBIter.Next | PracticeApp/Pods/leveldb-library/db/db_iter.cc:146-171 | moves the cursor over the view one on, from either direction |
| DbIter.DBIter.Prev | PracticeApp/Pods/leveldb-library/db/db_iter.cc:205-230 | moves the cursor over the view one back, from either direction |
| DbIter.DBIter.Seek | PracticeApp/Pods/leveldb-library/db/db_iter.cc:274-286 | puts the cursor on the first key of the view not below the target |
| DbIter.DBIter.SeekToFirst | PracticeApp/Pods/leveldb-library/db/db_iter.cc:288-297 | puts the cursor on the first key of the view |
| DbIter.DBIter.SeekToLast | PracticeApp/Pods/leveldb-library/db/db_iter.cc:299-304 | puts the cursor on the last key of the view |
| DbIter.DBIter.Follow | PracticeApp/Pods/leveldb-library/db/db_iter.cc:146-304 | after any sequence of moves, through every switch of direction, the iterator is where a plain cursor over the view would be |
| SkipList.SkipList.FindGreaterOrEqual | PracticeApp/Pods/leveldb-library/db/skiplist.h:261-281 | returns the first node of level 0 not before the key, as a linear scan would, and records the last node before it on every level, from any published height |
| SkipList.SkipList.FindLessThan | PracticeApp/Pods/leveldb-library/db/skiplist.h:283-302 | returns the last node of level 0 before the key |
| SkipList.SkipList.FindLast | PracticeApp/Pods/leveldb-library/db/skiplist.h:304-322 | returns the last node of level 0 |
| SkipList.SkipList.Publish | PracticeApp/Pods/leveldb-library/db/skiplist.h:363-369 | one pointer store splices the node into one level, keeps every level sorted and inside the one below, and leaves every search that is under way on a path to the right answer |
| SkipList.SkipList.LinkIn | PracticeApp/Pods/leveldb-library/db/skiplist.h:363-369 | the stores from the bottom up add the key to levels below its height and to no other |
| SkipList.SkipList.Insert | PracticeApp/Pods/leveldb-library/db/skiplist.h:336-370 | for any height drawn, adds exactly the new key and keeps the levels sorted and nested |
| SkipList.SkipList.Contains | PracticeApp/Pods/leveldb-library/db/skiplist.h:372-380 | true exactly when an equal key is in the list |
| SkipList.Iterator.Seek | PracticeApp/Pods/leveldb-library/db/skiplist.h:224-227 | stands on the first key not before the target |
| SkipList.Iterator.Next | PracticeApp/Pods/leveldb-library/db/skiplist.h:207-211 | stands on the next key of level 0 |
| SkipList.Iterator.Prev | PracticeApp/Pods/leveldb-library/db/skiplist.h:213-222 | stands on the key before, found by searching from the top |
| SkipReaders.Search.Step | PracticeApp/Pods/leveldb-library/db/skiplist.h:261-281 | one look at a next pointer while the list may change between looks: the search stays on a path to the answer, and when it ends the answer is that of the list at that moment |
| SkipReaders.InsertDuring | PracticeApp/Pods/leveldb-library/db/skiplist.h:336-370 | an insert whose stores a search falls between: what the search finds is what the list held before or after the insert |
| SkipReaders.SearchWhileInserting | PracticeApp/Pods/leveldb-library/db/skiplist.h:261-281 | a search during any number of inserts finds the first node not before its key of the list at one moment between its beginning and its end |
| SkipReaders.PresentIsFound | PracticeApp/Pods/leveldb-library/db/skiplist.h:372-380 | a key that is there when the search begins is found, whatever is inserted meanwhile |
| MemTable.SeekFindsNewest | PracticeApp/Pods/leveldb-library/db/memtable.cc:108-141 | the first entry not before the lookup's target is the newest version the reader may see, unless it is for another key; then there is none |
| MemTable.MemTable.Add | PracticeApp/Pods/leveldb-library/db/memtable.cc:82-106 | adds exactly the entry, through its encoding in one buffer |
| MemTable.MemTable.Get | PracticeApp/Pods/leveldb-library/db/memtable.cc:108-141 | finds something exactly when a version is visible, and then answers like a read |
| MemTable.InsertInto | PracticeApp/Pods/leveldb-library/db/write_batch.cc:116-145 | the i-th operation of a batch goes in with the i-th sequence number, and a read at that number is answered the value of a put and nothing for a deletion |
| DbFormat.ParseInverts | PracticeApp/Pods/leveldb-library/db/dbformat.h:176-187 | parsing a packed internal key gives its parts back |
| DbFormat.ParseIsExact | PracticeApp/Pods/leveldb-library/db/dbformat.h:176-187 | parsing succeeds only on packed keys, and fails exactly when the key is too short or its type byte is unknown |
| DbFormat.KeyBytes | PracticeApp/Pods/leveldb-library/db/dbformat.cc:12-22 | an internal key is the user key, the type byte, and seven bytes of sequence number, low ones first |
| DbFormat.TypeBytes | PracticeApp/Pods/leveldb-library/db/dbformat.h:48-61 | a value is of type 1, a deletion of type 0, and a search begins with type 1 |
| DbFormat.CompareIsBefore | PracticeApp/Pods/leveldb-library/db/dbformat.cc:50-66 | the byte-level comparison is the order by user key, then newest sequence number, then type |
| DbFormat.EntryReadsBack | PracticeApp/Pods/leveldb-library/db/memtable.cc:82-106 | key and value of a memtable entry are read back from its buffer |
| DbFormat.EntryBytes | PracticeApp/Pods/leveldb-library/db/memtable.cc:82-106 | the bytes of an entry with a short key and value: length of the internal key, key, sequence number and type, length of the value, value |
| DbFormat.LookupKeyViews | PracticeApp/Pods/leveldb-library/db/dbformat.cc:121-138 | the three views of a lookup key are the memtable key, the internal key and the user key |
| DbFormat.SeekLandsOnVisible | PracticeApp/Pods/leveldb-library/db/dbformat.h:55-61 | a version of the key is not before the seek target exactly when its sequence number is at most the snapshot's |
| Snapshots.SnapshotList.New | PracticeApp/Pods/leveldb-library/db/snapshot.h:42-51 | a new snapshot becomes the newest of the linked list, and the list stays ordered by sequence number if the new number is not below the newest |
| Snapshots.SnapshotList.Delete | PracticeApp/Pods/leveldb-library/db/snapshot.h:53-58 | exactly the snapshot is unlinked, wherever it stands, and the order is kept |
| Snapshots.SnapshotList.Oldest | PracticeApp/Pods/leveldb-library/db/snapshot.h:39 | the oldest snapshot is the first of the list |
| Snapshots.SnapshotList.Newest | PracticeApp/Pods/leveldb-library/db/snapshot.h:40 | the newest snapshot is the last of the list |
| Snapshots.NewKeepsOrder | PracticeApp/Pods/leveldb-library/db/db_impl.cc:1175-1178 | taking a snapshot at the last sequence number keeps the list ascending |
| Snapshots.DeletionKeepsOrder | PracticeApp/Pods/leveldb-library/db/db_impl.cc:1180-1183 | releasing any snapshot keeps the order, and the oldest can only get newer |
| Snapshots.SmallestSnapshot | PracticeApp/Pods/leveldb-library/db/db_impl.cc:900-904 | the number a compaction keeps entries for: the oldest snapshot, or the last sequence number without one; in an ordered list no snapshot is older |
| Snapshots.OldestIsLeast | PracticeApp/Pods/leveldb-library/db/db_impl.cc:900-904 | no snapshot in the list is older than that |
| LogFormat.UnmaskInverts | PracticeApp/Pods/leveldb-library/util/crc32c.h:31-41 | unmasking undoes the masking of a checksum |
| LogBytes.MaskedBits | PracticeApp/Pods/leveldb-library/util/crc32c.h:31-34 | masking turns the checksum right by 15 bits and adds the constant, modulo 2^32 |
| LogBytes.FragmentBytes | PracticeApp/Pods/leveldb-library/db/log_writer.cc:84-109 | each byte of a fragment: masked checksum of type and data, low byte first, two bytes of length, the type, the data |
| LogBytes.TrailerBytes | PracticeApp/Pods/leveldb-library/db/log_writer.cc:44-57 | the rest of a block that is passed over is zeros |
| LogBytes.FragmentTypes | PracticeApp/Pods/leveldb-library/db/log_format.h:13-33 | which fragment of a record is of type 1, 2, 3 or 4, that all but the last end with their block, and where in a block the first can begin |
| LogBytes.SmallFile | PracticeApp/Pods/leveldb-library/db/log_writer.cc:36-109 | the whole file of one record that fits a block, byte by byte |
| LogWriter.Writer.AddRecord | PracticeApp/Pods/leveldb-library/db/log_writer.cc:36-82 | appends exactly the bytes of the record's fragments, block trailers included, wherever in a block it starts |
| LogWriter.Writer.EmitPhysicalRecord | PracticeApp/Pods/leveldb-library/db/log_writer.cc:84-109 | appends the header with masked checksum, length and type, then the data |
| LogFormat.AllPiecesAppend | PracticeApp/Pods/leveldb-library/db/log_writer.cc:28-31 | writing on from the end of a log lays out the fragments a single writer would have |
| LogFormat.FileIs | PracticeApp/Pods/leveldb-library/db/log_writer.cc:28-82 | a file written record by record, by one writer or several in turn, is the rendering of all its fragments |
| LogReader.Reader.ReadPhysicalRecord | PracticeApp/Pods/leveldb-library/db/log_reader.cc:199-281 | reads what lies at the position: a fragment, the end, or something bad with the number of bytes dropped, through the block buffer |
| LogReader.Reader.ReadRecord | PracticeApp/Pods/leveldb-library/db/log_reader.cc:60-179 | returns the next assembled record, its offset and its drop reports |
| LogReader.Reader.SkipToInitialBlock | PracticeApp/Pods/leveldb-library/db/log_reader.cc:36-58 | starts at the block a search from the initial offset has to begin with |
| LogReader.Reader.ReadLog | PracticeApp/Pods/leveldb-library/db/log_reader.cc:60-179 | repeated reading gives the records, offsets and reports of the whole file |
| LogTheorems.RoundTrip | PracticeApp/Pods/leveldb-library/db/log_reader.cc:60-281 | for every list of records, empty and many-block ones included, the written file reads back as that list with nothing reported |
| LogTheorems.TornTail | PracticeApp/Pods/leveldb-library/db/log_reader.cc:214-246 | every byte prefix of a written file reads as exactly the records wholly inside it, with nothing reported |
| LogTheorems.ReadsWhole | PracticeApp/Pods/leveldb-library/db/log_reader.cc:60-281 | the same from any position where a writer started, so also for a second writer that continued the file |
| LogContainment.DamageIsContained | PracticeApp/Pods/leveldb-library/db/log_reader.cc:95-179 | whatever bytes stand in place of a written file: when, where the reader gets to, the checksum accepts only the physical record written at that very place, the result is a subsequence of the written records, none spliced from two |
| LogLoss.RestOfBlockIsLost | PracticeApp/Pods/leveldb-library/db/log_reader.cc:60-281 | a file damaged from one fragment's header to the end of its block, so that the checksum refuses it: exactly the records that end before or begin after come back, and the reports are of the rest of that block, of what was gathered of the record it cut, and of what is left of a record begun before the next block |
| LogDamage.MidFileStart | PracticeApp/Pods/leveldb-library/db/log_reader.cc:36-149 | a reader with any initial offset returns exactly the records whose first header starts there or later, in order, with their offsets |
| LogReports.SilentIff | PracticeApp/Pods/leveldb-library/db/log_reader.cc:60-281 | such a reader of an undamaged file reports no loss if and only if no record has one header between the start of the first block read and the initial offset and another at the offset or later |
| LogReports.FalseReport | PracticeApp/Pods/leveldb-library/db/log_reader.cc:271-278 | for any record longer than a block, every reader that starts inside its first block reports a loss |
| LogReports.NoReportOfBefore | PracticeApp/Pods/leveldb-library/db/log_reader.cc:181-197 | whatever bytes a file holds, no loss is reported of what lies before the initial offset |
| LogDamage.TornReuseLosesRecord | PracticeApp/Pods/leveldb-library/db/log_writer.cc:28-31 | a record appended behind the first six header bytes of a longer first record is swallowed by it, whatever the checksum: the file reads as empty and nothing is reported |
| LogReuse.HistoryReads | PracticeApp/Pods/leveldb-library/db/log_reader.cc:60-281 | a log cut by any number of crashes and written on each time: a reader finds exactly the complete records that do not begin behind a cut fragment in its block, in order, with their offsets, if the checksum accepts nothing that stands where a fragment was cut |
| LogReuse.ReuseFindsIff | PracticeApp/Pods/leveldb-library/db/log_writer.cc:28-82 | for any records, any cut and any record appended there, the reader finds the records whole below the cut, and the new one if and only if the cut goes through no fragment or leaves too little of its block for a header |
| LogReuse.PaddingCompletes | PracticeApp/Pods/leveldb-library/db/log_writer.cc:44-57 | a torn record whose missing byte is a zero at the end of its block is completed by the next writer's padding and comes back |
| Coding.VarintReadsBack | PracticeApp/Pods/nanopb/pb_encode.c:494-514 | a varint reads back as its value and its own length, whatever follows |
| Coding.FixedReadsBack | PracticeApp/Pods/nanopb/pb_encode.c:527-551 | little-endian bytes read back as the value cut to their width |
| Coding.VarintAt | PracticeApp/Pods/leveldb-library/util/coding.cc:81-90 | byte by byte: the i-th byte of a varint is the i-th group of seven bits, with the high bit on all but the last |
| Coding.FixedAt | PracticeApp/Pods/leveldb-library/util/coding.cc:9-18 | byte by byte: the i-th byte of a little-endian integer is its i-th group of eight bits |
| PbWire.ZigZagInverts | PracticeApp/Pods/nanopb/pb_encode.c:516-525 | zigzag decoding undoes encoding, and 64-bit values stay in range |
| PbWire.ZigZagOnto | PracticeApp/Pods/nanopb/pb_decode.c:1118-1130 | zigzag encoding undoes decoding |
| PbWire.SignExtends | PracticeApp/Pods/nanopb/pb_decode.c:1165-1248 | a signed integer of any width, sent sign-extended or in zigzag form, is accepted and comes back |
| PbWire.TagReads | PracticeApp/Pods/nanopb/pb_decode.c:251-275 | a tag reads back as its wire type and number |
| PbBytes.FirstByte | PracticeApp/Pods/nanopb/pb_encode.c:553-590 | which wire type each kind of field has, in the low bits of its first byte under the field number |
| PbBytes.SignedBytes | PracticeApp/Pods/nanopb/pb_encode.c:652-667 | a signed integer goes out in groups of seven bits of its 64-bit two's complement |
| PbBytes.ZigZagCounts | PracticeApp/Pods/nanopb/pb_encode.c:516-525 | zigzag numbers 0, -1, 1, -2, 2 and so on 0, 1, 2, 3, 4 |
| PbBytes.FixedBytesSent | PracticeApp/Pods/nanopb/pb_encode.c:527-550 | four or eight bytes, least significant first |
| PbBytes.LengthFirst | PracticeApp/Pods/nanopb/pb_encode.c:718-773 | bytes, a string up to its NUL or its array's end, and a message come behind their length |
| PbBytes.GuideExamples | PracticeApp/Pods/nanopb/pb_encode.c:553-667 | the encodings the Protocol Buffers Encoding guide gives for 150, "testing" and a nested message |
| PbBytes.CutToWidth | PracticeApp/Pods/nanopb/pb_decode.c:173-229 | a varint of at most five, or ten, bytes is read modulo 2^32, or 2^64 |
| PbBytes.FiveByteForm | PracticeApp/Pods/nanopb/pb_decode.c:1165-1200 | the five-byte form older encoders gave negative numbers of at most 32 bits is accepted and means the same |
| PbBytes.BrokenTag | PracticeApp/Pods/nanopb/pb_decode.c:251-275 | a tag that breaks off ends the message when at most five bytes are left, and is an error when five have not ended it; a zero ends the message |
| PbBytes.UnpackedReads | PracticeApp/Pods/nanopb/pb_decode.c:404-412 | an array of numbers that comes item by item is read, behind the items that are there |
| PbBytes.LastOneCounts | PracticeApp/Pods/nanopb/pb_decode.c:356-424 | what a field that is no array and no message held before has no effect on what an occurrence makes of it |
| PbCompatibility.NegativeTakesTen | PracticeApp/Pods/nanopb/pb_encode.c:652-667 | a negative number of any width takes ten bytes |
| PbCompatibility.WidthsAreNotSent | PracticeApp/Pods/nanopb/pb_encode.c:652-704 | under two tables that differ only in the widths of their integers a message that fits both is encoded alike, and what one wrote the other reads with the same content |
| PbCompatibility.ValuePassed | PracticeApp/Pods/nanopb/pb_decode.c:277-287 | by its wire type alone, skipping passes over exactly the bytes of an encoded value, of every type |
| PbCompatibility.FieldPassed | PracticeApp/Pods/nanopb/pb_decode.c:875-910 | an encoded field the table does not know, packed or item by item, changes nothing of what is decoded |
| PbCompatibility.UnknownIsAbsent | PracticeApp/Pods/nanopb/pb_decode.c:852-967 | a message written under a table and read under any part of it decodes as if the other fields had not been sent, and its own fields come back |
| PbDecode.IStream.Read | PracticeApp/Pods/nanopb/pb_decode.c:91-122 | takes the next bytes, or fails when there are too few |
| PbDecode.IStream.DecodeVarint32 | PracticeApp/Pods/nanopb/pb_decode.c:173-207 | a varint of at most five bytes, modulo 2^32; at its failure the stream is empty exactly when at most five bytes were left |
| PbDecode.IStream.DecodeVarint | PracticeApp/Pods/nanopb/pb_decode.c:209-229 | a varint of at most ten bytes, modulo 2^64 |
| PbDecode.IStream.SkipVarint | PracticeApp/Pods/nanopb/pb_decode.c:231-240 | passes over a varint of any length |
| PbDecode.IStream.SkipField | PracticeApp/Pods/nanopb/pb_decode.c:277-287 | passes over exactly one field of each wire type and refuses the others |
| PbDecode.IStream.DecodeTag | PracticeApp/Pods/nanopb/pb_decode.c:251-275 | a tag, the end of the message, or an error; an unfinished varint at the very end and a zero count as the end |
| PbDecode.IStream.MakeStringSubstream | PracticeApp/Pods/nanopb/pb_decode.c:322-335 | the substream holds as many bytes as the length says, the stream what follows, and it fails when there are fewer |
| PbDecode.IStream.CloseStringSubstream | PracticeApp/Pods/nanopb/pb_decode.c:337-350 | after closing, the stream stands behind the substream's end whatever was left unread |
| PbMessage.DecodeNumber | PracticeApp/Pods/nanopb/pb_decode.c:1165-1260 | a number of the field's type, refused when it does not fit |
| PbMessage.DecodeData | PracticeApp/Pods/nanopb/pb_decode.c:1262-1379 | bytes, strings and fixed-length bytes within their arrays, the empty fixed-length field as zeros |
| PbMessage.DecodeSubmessage | PracticeApp/Pods/nanopb/pb_decode.c:1334-1356 | a submessage merges into what its struct holds and is confined to its length |
| PbMessage.DecodeItems | PracticeApp/Pods/nanopb/pb_decode.c:376-402 | a packed array takes items until its bytes are used up and fails when the room is used up first or an item is bad |
| PbMessage.DecodeField | PracticeApp/Pods/nanopb/pb_decode.c:356-432 | one occurrence of a field: required, optional, repeated packed or unpacked, or a union member |
| PbMessage.Store | PracticeApp/Pods/nanopb/pb_decode.c:415-424 | a decoded union member makes the other members of its union unchosen |
| PbMessage.CountRequired | PracticeApp/Pods/nanopb/pb_decode.c:919-936 | from wherever the iterator stands, walking to the end of the table counts its required fields |
| PbMessage.DecodeNoInit | PracticeApp/Pods/nanopb/pb_decode.c:852-953 | the loop with circular search, seen-flags and word checks computes the decoding function: same acceptance, same struct |
| PbMessage.Decode | PracticeApp/Pods/nanopb/pb_decode.c:955-967 | the same over a struct set to its defaults |
| PbMessage.SetDefaults | PracticeApp/Pods/nanopb/pb_decode.c:763-847 | every field is set to its declared default, or to zero, in place |
| PbIter.FieldIter.Next | PracticeApp/Pods/nanopb/pb_common.c:20-76 | moves one field on or around to the first, and its data position and required index depend on the field position alone |
| PbIter.FieldIter.Find | PracticeApp/Pods/nanopb/pb_common.c:78-95 | finds the first matching field going around, exactly when there is one, and else stays where it was |
| PbIter.FieldsApart | PracticeApp/Pods/nanopb/pb_common.c:20-76 | the data of fields that share no union do not overlap |
| PbIter.UnionShares | PracticeApp/Pods/nanopb/pb_common.c:20-76 | the members of a union lie at the same place, and so do what says which of them is chosen |
| PbIter.AllSeenIff | PracticeApp/Pods/nanopb/pb_decode.c:937-949 | for fewer than 64 required fields, not a positive multiple of 32, the word checks pass exactly when every required field was seen |
| PbRequired.AllFlagsIffComplete | PracticeApp/Pods/nanopb/pb_decode.c:905-910 | all flags below the number of required fields are set exactly when every required field occurred, and no other flag ever is |
| PbRequired.SeenIsFlagged | PracticeApp/Pods/nanopb/pb_decode.c:905-910 | setting the flag at the iterator's index records exactly the field just found |
| PbRequired.FoundIsFieldOf | PracticeApp/Pods/nanopb/pb_common.c:78-95 | with distinct tags the iterator finds the field the table names |
| PbOrder.AcceptedIffComplete | PracticeApp/Pods/nanopb/pb_decode.c:852-953 | readable fields in any order, with unknown ones among them, are accepted exactly when every required field occurs |
| PbOrder.SubmessagesMerge | PracticeApp/Pods/nanopb/pb_decode.c:1334-1356 | a submessage that comes in two pieces is read as their concatenation would be |
| PbSafety.AcceptedIsWithin | PracticeApp/Pods/nanopb/pb_decode.c:852-953 | whatever bytes are decoded, a struct that is accepted stays within the arrays, counts and number ranges of its table, at every depth |
| PbSafety.AbsentIsDeclared | PracticeApp/Pods/nanopb/pb_decode.c:763-847 | whatever bytes are decoded, a field that did not occur is not flagged, and holds its declared default, zero, or no items |
| PbRoundTrip.RoundTrip | PracticeApp/Pods/nanopb/pb_decode.c:852-967 | decoding the encoding, of less than 4 GiB, of any message within its bounds restores every field that was sent and leaves the others at their defaults, through unions, arrays and nested messages |
| PbFidelity.ComesBackIff | PracticeApp/Pods/nanopb/pb_encode.c:203-265 | such a message comes back with the content it had if and only if every field without a flag of its own that the search finds silent, at any depth of what is sent, has the content a fresh struct gives it; and the same for each of its fields |
| PbFidelity.FlaglessArrives | PracticeApp/Pods/nanopb/pb_encode.c:203-265 | a field without a flag arrives as sent when the search finds something, and at its default when it does not; its content survives exactly when it is found, and kept inside, or is that default |
| PbFidelity.FreshIsNotSent | PracticeApp/Pods/nanopb/pb_encode.c:203-265 | of a fresh message without required fields and declared defaults nothing is sent |
| PbFidelity.PlainTablesKeepAll | PracticeApp/Pods/nanopb/pb_encode.c:203-265 | every message comes back under a table in which no field without a flag is a submessage or has a declared default |
| PbFidelity.SilentArrayIsLost | PracticeApp/Pods/nanopb/pb_encode.c:226-245 | a submessage without a flag whose array is [0, x] is not sent, and comes back with an empty array |
| PbRoundTrip.ValueReads | PracticeApp/Pods/nanopb/pb_decode.c:1118-1379 | a value reads back from its encoding whatever follows it |
| PbRoundTrip.FieldReads | PracticeApp/Pods/nanopb/pb_decode.c:852-910 | a field's bytes, read in their turn, put its value in place and lead on to the next field |
| PbEncode.OStream.Write | PracticeApp/Pods/nanopb/pb_encode.c:91-109 | succeeds exactly when the bytes fit or the stream only counts, and then they follow what was written |
| PbEncode.OStream.EncodeVarint | PracticeApp/Pods/nanopb/pb_encode.c:494-514 | the loop over the ten-byte buffer writes the varint |
| PbEncode.OStream.EncodeSVarint | PracticeApp/Pods/nanopb/pb_encode.c:516-525 | the complement trick writes the zigzag varint |
| PbEncode.OStream.EncodeFixed32 | PracticeApp/Pods/nanopb/pb_encode.c:527-536 | writes four bytes, least significant first |
| PbEncode.OStream.EncodeFixed64 | PracticeApp/Pods/nanopb/pb_encode.c:538-550 | writes eight bytes, least significant first |
| PbWriter.StringLength | PracticeApp/Pods/nanopb/pb_encode.c:739-763 | the length of a C string within its array |
| PbWriter.IsSilent | PracticeApp/Pods/nanopb/pb_encode.c:203-265 | the search through a field without a flag finds nothing exactly when every first place in its storage, at any depth, is zero or empty, whatever flags, counts and tags say |
| PbWriter.EncodeArray | PracticeApp/Pods/nanopb/pb_encode.c:116-201 | an array within its bounds is written packed behind its length or item by item, and an overlong one is refused |
| PbWriter.PackedSize | PracticeApp/Pods/nanopb/pb_encode.c:137-159 | the size found by arithmetic or by a counting pass is the number of bytes the items take |
| PbWriter.EncodeSubmessage | PracticeApp/Pods/nanopb/pb_encode.c:600-648 | length and message are written when they fit; the writing pass never differs from the counting pass, so "submsg size changed" cannot happen |
| PbWriter.EncodeField | PracticeApp/Pods/nanopb/pb_encode.c:271-349 | a field is written exactly when it is to be sent, and fails exactly when it is out of bounds or does not fit |
| PbWriter.EncodeMessage | PracticeApp/Pods/nanopb/pb_encode.c:451-473 | writing a message succeeds exactly when no field is out of bounds and the encoding fits, and writes the encoding |
| PbWriter.RefusedIffOutOfBounds | PracticeApp/Pods/nanopb/pb_encode.c:116-201 | an encoding exists exactly when every array, string and byte field, at every depth, is within its bounds |
| PbWriter.EncodedSize | PracticeApp/Pods/nanopb/pb_encode.c:480-489 | the counting pass succeeds on the same messages and counts exactly the bytes the writing pass emits |
| PbWriter.InBoundsTravels | PracticeApp/Pods/nanopb/pb_encode.c:451-473 | a message within the bounds of its table can be written given room, and what is written decodes to it |
| Amortisation.PvInverts | real-estate-analyzer/js/engine.js:38-50 | present value and payment are inverse for every rate at or above zero and every positive term |
| Amortisation.Schedule | real-estate-analyzer/js/engine.js:53-68 | the month-by-month loop computes the payment, interest and balance of the iterated schedule for both repayment methods |
| Amortisation.ClampIsIdle | real-estate-analyzer/js/engine.js:53-68 | the clamp at zero never changes a balance |
| Amortisation.PaidOff | real-estate-analyzer/js/engine.js:53-68 | nothing is owed after the last month |
| Amortisation.PrincipalConserved | real-estate-analyzer/js/engine.js:53-68 | what was repaid and what is owed make up the loan at every month, and at the end the whole loan is repaid |
| Amortisation.ClosedForm | real-estate-analyzer/js/tiers.js:285-292 | the closed form is the iterated level-payment balance at every month, if and only if the principal is not negative or a month has passed |
| Amortisation.ZeroRate | real-estate-analyzer/js/tiers.js:289 | without interest the balance falls linearly |
| Amortisation.MonthBalances | real-estate-analyzer/js/engine.js:53-68 | in every month the payment is the interest and what the balance falls by; level payments are all the same, and equal parts begin with theirs and a month's interest on the loan |
| Lending.AnnualDebtService | real-estate-analyzer/js/engine.js:71-78 | the first year's payments for either method, shorter terms included |
| Lending.FirstYear | real-estate-analyzer/js/engine.js:71-78 | a year's debt service is the year's interest and what the balance falls by, and for a term of one year the loan and its interest |
| Lending.ServiceGrows | real-estate-analyzer/js/engine.js:71-78 | a greater loan never costs less in its first year |
| Lending.CostIsProportional | real-estate-analyzer/js/engine.js:71-78 | the first year of an equal-principal loan is proportional to the loan |
| Lending.Bisect | real-estate-analyzer/js/engine.js:106-113 | after sixty halvings the result fits the room, and the other end of the last interval does not, unless it is the first bracket's end |
| Lending.BisectionIsClose | real-estate-analyzer/js/engine.js:106-113 | the result is within the bracket over 2^60 of the exact maximum if and only if the term is at least half a year or carries enough interest |
| Lending.OneMonthMisses | real-estate-analyzer/js/engine.js:106-113 | for every room, an interest-free loan over one month is granted at most a sixth of what it could be |
| Lending.DebtBeyondRoom | real-estate-analyzer/js/engine.js:104-127 | an application whose room is negative, so that every amount, even nothing, costs more than it |
| Lending.CostOfTerm | real-estate-analyzer/js/engine.js:106-113 | the initial bracket reaches the maximum exactly under that condition |
| Lending.DsrAmount | real-estate-analyzer/js/engine.js:104-114 | the amount for a room fits it for both methods, and for level payments uses it up exactly |
| Lending.LoanLimit | real-estate-analyzer/js/engine.js:87-127 | the amount granted is the least of its bounds in full millions; without other debts and with the share of the price or the cap at most 100 million won it is not held to the income, and at most that; else its own stressed yearly payments and the other debts are within the lender's share of the income exactly when the other debts alone are |
| Lending.ExemptIff | real-estate-analyzer/js/engine.js:116-118 | exempt from the debt service bound are those without other debt whose share of the price or whose cap is at most 100 million won |
| LendingCases.WithoutHome | real-estate-analyzer/tests/engine.test.js:58-63 | without a home in a regulated region: 40 per cent of the price when the income allows |
| LendingCases.FirstHome | real-estate-analyzer/tests/engine.test.js:65-69 | a first home there: 70 per cent, but at most 600 million won |
| LendingCases.DearHome | real-estate-analyzer/tests/engine.test.js:71-75 | at most 400 million above 1.5 billion |
| LendingCases.DearerHome | real-estate-analyzer/tests/engine.test.js:71-75 | at most 200 million above 2.5 billion |
| LendingCases.KeepsHome | real-estate-analyzer/tests/engine.test.js:77-87 | who keeps a home gets nothing in the capital area |
| LendingCases.TestedRates | real-estate-analyzer/tests/engine.test.js:77-87 | with what rates debt service is tested, and the amount 20 million a year allow at 4.75 per cent |
| LendingCases.SmallHome | real-estate-analyzer/tests/engine.test.js:197-201 | a loan that cannot exceed 100 million is granted whatever the income |
| LendingCases.LongTerms | real-estate-analyzer/js/engine.js:99 | for every application, terms above thirty years count as thirty where loans are restricted, and in full elsewhere |
| LendingCases.MovesIn | real-estate-analyzer/js/engine.js:125 | for every application, who does not move in gets nothing where loans are restricted, and as much as others elsewhere |
| LendingCases.PolicyIsOrdered | real-estate-analyzer/js/policy.js:68-86 | who has less gets no smaller share, stricter regions give no more, the surer a rate the milder its test, and caps fall with the price |
| Taxes.Lookup | real-estate-analyzer/js/engine.js:18-21 | the first row whose upper limit reaches the base |
| Taxes.Tax | real-estate-analyzer/js/engine.js:23-27 | nothing for a base that is not positive, and for a table whose deductions fit, the sum of the marginal taxes of all brackets up to the base |
| Taxes.ProgressiveIsMarginal | real-estate-analyzer/js/engine.js:18-27 | for any bracket table the quick form equals the sum of marginal taxes for every positive base if and only if every deduction is the one continuity asks for |
| Taxes.NoJumps | real-estate-analyzer/js/engine.js:18-27 | the marginal sum is monotone and grows no faster than the highest rate, so it has no jumps |
| Taxes.TablesAreMarginal | real-estate-analyzer/js/policy.js:166-190 | the five tables in force compute the marginal tax, never fall and never jump |
| Taxes.TestedTaxes | real-estate-analyzer/tests/engine.test.js:89-115 | the taxes the engine's tests expect for the bases of their houses |

## Left out

- EngineImpl.DBImpl.MakeRoom: is one look at the state; sleeping and waiting, between which other threads run, are the caller's.
- EngineImpl.DBImpl.Recover: treats a log as its list of complete batches; records of fewer than 12 bytes, corruption reports and I/O errors are not represented.
- EngineImpl.DBImpl.WriteLevel0Table: builds the table in one step that cannot fail (a recovery that dies meanwhile is a step of the machine), and leaves an orphaned file of the same number in place when the memtable is empty, where builder.cc would delete it.
- CompactionWork.DoCompactionWork: takes the decisions to end an output file from the environment, so grandparent overlap and file sizes do not appear; the memtable flush inside its loop is a step of the machine instead.
- LogReader.Reader.ReadRecord: is not called again after the end of the file was reached without any record found.
- LogWriter.Writer.AddRecord: does not fail in the middle of a record; a record that a crash cuts short is an attempt with so many bytes in LogReuse.
- EngineWriters.ServedCallsAreWritten: is about runs in which no write step fails; GroupCommit.SuccessIsLogged covers failures among the callers alone.
- GroupCommit.BuildBatchGroup: takes the encoded size of a batch as given.
- MemTable.MemTable.Add: keys and values of 4 GiB and more, whose length prefix would wrap around.
- PbMessage.DecodeNoInit: tables with 64 or more required fields, or a positive multiple of 32, where the source's own check differs from its promise; and a zero tag met by an empty table. The struct sizes are those of a 32-bit pb_size_t, as the pods are built.
- PbMessage.SetDefaults: gives the unused storage of arrays and unions zeros, where the source leaves it as it is; what the encoder does holds whatever is stored there, but members of a union are stored apart.
- Lending.LoanLimit: returns the amount and the bound by the debt service ratio, not the texts, the monthly payment and the list of conditions.
- Amortisation.Schedule: IEEE rounding, negative rates and terms of a fraction of a month.
- The stretches of db_impl.cc without a loop (CompactMemTable, BackgroundCall, InstallCompactionResults, the parts of Write around the log) are steps of the machine on values, not methods; what that does not capture is the reference counting of memtables and versions.
- I/O and its Status values, clocks, threads as such, info logging, statistics, read sampling and properties.
- The levels of a version: a version is a set of tables, and a trivial move of a file to another level is no step. The choice of a compaction's inputs is its contract, not its algorithm.
- The encoding of the manifest, table files and blocks, bloom filters, the block cache and the arena.
- Manual compaction, repair, dumping, the C interface and file name parsing.
- The reordering of memory accesses: each pointer store of the skip list is one step.
- The skip list's random heights: a height is a parameter.
- The checksum itself: any function of the bytes.
- nanopb's pointer and callback fields, extensions and malformed tables.
- Flooring to ten won, and all of the analyser's user interface, charts, scraping, scoring, memo parsing and growth rates.
