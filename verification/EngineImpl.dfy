/** The loops of db_impl on the object they update: collecting files, making room for a write, and
    opening a database by replaying its logs. Opening takes the steps of the engine's machine. */
module EngineImpl {
  import opened Wrappers
  import opened Entries
  import opened WriteBatch
  import opened EngineState
  import opened EngineInvariant
  import opened EngineJobs
  import opened EngineRestart

  /** PrevLogNumber in every database this code writes; no log has this number. */
  const NoPreviousLog: nat := 0

  /** The number of level-0 files that slows a write down, and the number that stops it. */
  const SlowdownTrigger: nat := 8
  const StopTrigger: nat := 12

  /** What a file name parses to. */
  datatype FileName =
    | LogName(number: nat)
    | TableName(number: nat)
    | DescriptorName(number: nat)
    | TempName(number: nat)
    | OtherName

  /** A file nobody needs: a log or a manifest below the current one, a table or a temporary file that
      is neither live nor being written. */
  predicate Dead(f: FileName, live: set<nat>, logNumber: nat, manifestNumber: nat) {
    match f
    case LogName(n) => n < logNumber && n != NoPreviousLog
    case TableName(n) => n !in live
    case DescriptorName(n) => n < manifestNumber
    case TempName(n) => n !in live
    case OtherName => false
  }

  /** What MakeRoomForWrite makes of one look at the state. */
  datatype Room = Enough | Failed | Slow | Wait | Switched

  class DBImpl {
    var disk: Disk
    var mem: Option<set<Entry>>
    var imm: Option<set<Entry>>
    var logfile: nat
    var current: set<nat>
    var logNumber: nat
    var lastSequence: nat
    var nextFile: nat
    var pinned: multiset<set<nat>>
    var pending: set<nat>
    var snapshots: seq<nat>
    var write: Write
    var jobs: seq<Job>
    var scheduled: bool
    var queued: nat
    var shutdown: bool
    var bgError: bool
    ghost var mode: Mode
    ghost var history: set<Entry>
    ghost var floor: nat

    ghost function Proc(): Process
      reads this
    {
      Process(if mem.Some? then mem.value else {}, imm, logfile, current, logNumber, lastSequence, nextFile, pinned,
              pending, snapshots, write, jobs, scheduled, queued, shutdown, bgError)
    }

    ghost function St(): State
      reads this
    {
      State(disk, mode, Proc(), history, floor)
    }

    /** A process that has not opened its database yet. */
    constructor (disk: Disk, ghost history: set<Entry>, ghost floor: nat)
      ensures St() == State(disk, Down, FreshProcess, history, floor) && mem.None?
    {
      this.disk, mem, imm, logfile, current, logNumber, lastSequence, nextFile := disk, None, None, 0, {}, 0, 0, 0;
      pinned, pending, snapshots, write, jobs := multiset{}, {}, [], NoWrite, [];
      scheduled, queued, shutdown, bgError := false, 0, false, false;
      mode, this.history, this.floor := Down, history, floor;
    }

    // ---- Scheduling ----

    method MaybeScheduleCompaction(needsCompaction: bool)
      modifies this`scheduled, this`queued
      ensures Proc() == MaybeSchedule(old(Proc()), needsCompaction)
      ensures scheduled <==> old(scheduled) || (!shutdown && !bgError && (imm.Some? || needsCompaction))
      ensures queued == if scheduled && !old(scheduled) then old(queued) + 1 else old(queued)
    {
      if scheduled {
      } else if shutdown {
      } else if bgError {
      } else if imm.None? && !needsCompaction {
      } else {
        scheduled, queued := true, queued + 1;
      }
    }

    // ---- Collecting files ----

    /** Deletes exactly the dead files among those listed, in their order, and none after a
        background error. `live` are the files of all versions in use. */
    method DeleteObsoleteFiles(filenames: seq<FileName>, inUse: set<nat>, manifestNumber: nat)
      returns (deleted: seq<FileName>)
      requires inUse == Live(Proc())
      modifies this`disk
      ensures bgError ==> deleted == [] && disk == old(disk)
      ensures !bgError ==> forall f :: f in deleted <==>
                f in filenames && Dead(f, inUse + pending, logNumber, manifestNumber)
      ensures disk == old(disk).(tables := old(disk.tables) - Tables(deleted), logs := old(disk.logs) - Logs(deleted))
      ensures !bgError ==> Collectable(old(St()), Tables(deleted), Logs(deleted))
      ensures !bgError ==> forall n: nat :: n in disk.tables <==>
                n in old(disk.tables) && (TableName(n) in filenames ==> n in inUse || n in pending)
      ensures !bgError ==> forall n: nat :: n in disk.logs <==>
                n in old(disk.logs) && (LogName(n) in filenames ==> n >= logNumber || n == NoPreviousLog)
    {
      deleted := [];
      NothingDeleted(disk);
      if bgError {
        return;
      }
      var live := pending + inUse;
      for i := 0 to |filenames|
        invariant forall f :: f in deleted <==> f in filenames[..i] && Dead(f, live, logNumber, manifestNumber)
        invariant disk ==
                  old(disk).(tables := old(disk.tables) - Tables(deleted), logs := old(disk.logs) - Logs(deleted))
      {
        var f := filenames[i];
        var keep := match f
          case LogName(n) => n >= logNumber || n == NoPreviousLog
          case TableName(n) => n in live
          case DescriptorName(n) => n >= manifestNumber
          case TempName(n) => n in live
          case OtherName => true;
        if !keep {
          OneDeleted(old(disk), deleted, f);
          if f.TableName? {
            disk := disk.(tables := disk.tables - {f.number});
          } else if f.LogName? {
            disk := disk.(logs := disk.logs - {f.number});
          }
          deleted := deleted + [f];
        }
      }
      assert filenames[..|filenames|] == filenames;
    }

    // ---- Making room for a write ----

    /** The next file number goes to an empty log, which is written to from now on. */
    method NewLog()
      modifies this`disk, this`logfile, this`nextFile
      ensures logfile == old(nextFile) && nextFile == old(nextFile) + 1
      ensures disk == old(disk).(logs := old(disk).logs[old(nextFile) := EmptyLog])
    {
      logfile := nextFile;
      nextFile := nextFile + 1;
      disk := disk.(logs := disk.logs[logfile := EmptyLog]);
    }

    /** The full memtable becomes the immutable one; writing goes on in a new log. */
    method SwitchMemtable()
      requires CanSwitchMemtable(St()) && mem.Some?
      modifies this`disk, this`mem, this`imm, this`logfile, this`nextFile, this`scheduled, this`queued
      ensures St() == MemtableSwitched(old(St())) && mem.Some?
    {
      hide MaybeSchedule;
      NewLog();
      imm, mem := mem, Some({});
      MaybeScheduleCompaction(false);
    }

    /** One look at the state: is there room, must the writer fail, slow down or wait, or is the
        memtable switched? The environment says how much is in the memtable and in level 0, and
        whether a new log can be created. */
    method MakeRoom(force: bool, allowDelay: bool, full: bool, level0: nat, canCreate: bool) returns (room: Room)
      requires mode.Up? && write.NoWrite? && mem.Some?
      modifies this`disk, this`mem, this`imm, this`logfile, this`nextFile, this`scheduled, this`queued
      ensures var slow, blocked := allowDelay && level0 >= SlowdownTrigger, old(imm).Some? || level0 >= StopTrigger;
              && (room.Slow? <==> !bgError && slow)
              && (room.Enough? <==> !bgError && !slow && !force && !full)
              && (room.Wait? <==> !bgError && !slow && (force || full) && blocked)
              && (room.Failed? <==> bgError || (!slow && (force || full) && !blocked && !canCreate))
      ensures room.Switched? ==>
                CanSwitchMemtable(old(St())) && St() == MemtableSwitched(old(St())) && level0 < StopTrigger
      ensures !room.Switched? ==> St() == old(St())
      ensures old(mem).Some? && mem.Some?
    {
      if bgError {
        room := Failed;
      } else if allowDelay && level0 >= SlowdownTrigger {
        room := Slow;
      } else if !force && !full {
        room := Enough;
      } else if imm.Some? || level0 >= StopTrigger {
        room := Wait;
      } else {
        room := if canCreate then Switched else Failed;
        if canCreate {
          SwitchMemtable();
        }
      }
    }

    // ---- Opening ----

    /** A memtable becomes a table file with the next number; an empty one leaves no file. */
    method WriteLevel0Table(m: set<Entry>, edit: map<nat, set<Entry>>) returns (edit': map<nat, set<Entry>>)
      modifies this`disk, this`nextFile, this`pending
      ensures nextFile == old(nextFile) + 1 && pending == old(pending) - {old(nextFile)}
      ensures edit' == if m == {} then edit else edit[old(nextFile) := m]
      ensures disk == if m == {} then old(disk) else old(disk).(tables := old(disk).tables[old(nextFile) := m])
    {
      var number := nextFile;
      nextFile := nextFile + 1;
      pending := pending + {number};
      if m != {} {
        disk := disk.(tables := disk.tables[number := m]);
      }
      pending := pending - {number};
      edit' := if m == {} then edit else edit[number := m];
    }

    /** Replays one log: its batches go through a memtable into tables, each time the memtable is
        full and once more at the end. The last log is kept instead, with its memtable, if the
        options allow and nothing of it was written out. */
    method RecoverLogFile(n: nat, last: bool, reuseLogs: bool, full: nat -> bool, saving: bool,
                          edit: map<nat, set<Entry>>, max: nat, ghost base: map<nat, set<Entry>>, ghost low: nat)
      returns (saving': bool, edit': map<nat, set<Entry>>, max': nat)
      requires n in disk.logs && mem.None? && pending == {}
      requires EditWithin(edit, low, nextFile) && low <= nextFile && disk.tables == base + edit
      modifies this`disk, this`nextFile, this`pending, this`mem, this`logfile
      ensures disk.logs == old(disk.logs) && disk.manifest == old(disk.manifest) && pending == {}
      ensures old(nextFile) <= nextFile && EditWithin(edit', low, nextFile) && disk.tables == base + edit'
      ensures max' == MaxLast(disk.logs[n].batches, max)
      ensures saving' == (saving || (mem.None? && |disk.logs[n].batches| > 0))
      ensures edit' != edit ==> saving'
      ensures mem.Some? ==>
                last && reuseLogs && edit' == edit && mem.value == Logged(disk.logs[n].batches) && logfile == n
      ensures mem.None? ==> Added(edit') == Added(edit) + Logged(disk.logs[n].batches) && logfile == old(logfile)
    {
      hide Added, Logged, MaxLast, EditWithin;
      saving', edit', max' := saving, edit, max;
      var batches, m := disk.logs[n].batches, None;
      var compactions: nat := 0;
      NothingReplayed(batches, max);
      for i := 0 to |batches|
        invariant disk.logs == old(disk.logs) && disk.manifest == old(disk.manifest) && pending == {} && mem.None?
        invariant logfile == old(logfile) && old(nextFile) <= nextFile && compactions <= i && (m.Some? ==> i > 0)
        invariant EditWithin(edit', low, nextFile) && disk.tables == base + edit'
        invariant Added(edit') + Held(m) == Added(edit) + Logged(batches[..i])
        invariant max' == MaxLast(batches[..i], max) && saving' == (saving || compactions > 0)
        invariant compactions == 0 ==> edit' == edit && Held(m) == Logged(batches[..i]) && (i > 0 ==> m.Some?)
      {
        ReplayedNext(batches, i, max);
        if m.None? {
          m := Some({});
        }
        var filled := InsertInto(batches[i], m.value);
        MoreHeld(Added(edit'), m.value, Added(edit), Logged(batches[..i]), batches[i].All());
        m := Some(filled);
        if batches[i].Last() > max' {
          max' := batches[i].Last();
        }
        if full(i) {
          compactions, saving' := compactions + 1, true;
          EditTakes(edit', low, nextFile, filled);
          AddedNext(edit', nextFile, filled, base);
          edit' := WriteLevel0Table(filled, edit');
          m := None;
        }
      }
      assert batches[..|batches|] == batches;
      if reuseLogs && last && compactions == 0 {
        logfile := n;
        if m.Some? {
          mem, m := m, None;
        } else {
          mem := Some({});
        }
      }
      if m.Some? {
        saving' := true;
        EditTakes(edit', low, nextFile, m.value);
        AddedNext(edit', nextFile, m.value, base);
        edit' := WriteLevel0Table(m.value, edit');
      }
    }

    /** Nothing but an open has touched the process. */
    ghost predicate Untouched()
      reads `imm, `pinned, `snapshots, `write, `jobs, `scheduled, `queued, `shutdown, `bgError
    {
      && imm.None? && pinned == multiset{} && snapshots == []
      && write.NoWrite? && jobs == [] && !scheduled && queued == 0 && !shutdown && !bgError
    }

    /** What a recovery leaves: the committed version, new tables for the logs that were written
        out, and perhaps the last log with its memtable to go on with. */
    ghost predicate Recovered(d: Disk, edit: map<nat, set<Entry>>, reuseLogs: bool, saving: bool)
      reads this
    {
      var m := d.manifest;
      && disk == d.(tables := d.tables + edit)
      && EditWithin(edit, m.nextFile + 1, nextFile) && m.nextFile < nextFile
         && (forall n | n in Replayed(d) :: n < nextFile)
      && Untouched() && pending == {} && current == m.tables && logNumber == m.logNumber
         && lastSequence == RecoveredSequence(d)
      && (!saving ==> edit == map[])
      && GoesOn(d, edit, reuseLogs, mem, logfile)
    }

    /** Finds the state to continue from: the committed version, and all logs it does not cover
        replayed in the order of their numbers. Fails exactly when a committed table is missing. */
    method Recover(filenames: seq<FileName>, reuseLogs: bool, full: (nat, nat) -> bool, saving: bool)
      returns (ok: bool, saving': bool, edit: map<nat, set<Entry>>)
      requires Untouched() && mem.None? && logfile == 0 && pending == {}
      requires Lists(filenames, disk) && NoPreviousLog !in disk.logs
      modifies this
      ensures ok <==> NoneMissing(filenames, disk.manifest.tables)
      ensures mode == old(mode) && history == old(history) && floor == old(floor)
      ensures disk.logs == old(disk.logs) && disk.manifest == old(disk.manifest)
      ensures ok ==> Recovered(old(disk), edit, reuseLogs, saving')
    {
      hide GoesOn, EditWithin, Replayed, AreReplayed, NoneMissing, Lists, RecoveredSequence, Untouched;
      var m := disk.manifest;
      current, logNumber, lastSequence, nextFile := m.tables, m.logNumber, m.lastSequence, m.nextFile + 1;
      edit, saving' := map[], saving;
      var logs;
      ok, logs := LogsToReplay(filenames);
      if ok {
        saving', edit := ReplayWanted(logs, reuseLogs, full, saving);
      }
    }

    /** Replays all logs the manifest asks for; the sequence numbers found count from now on. */
    method ReplayWanted(logs: seq<nat>, reuseLogs: bool, full: (nat, nat) -> bool, saving: bool)
      returns (saving': bool, edit: map<nat, set<Entry>>)
      requires AreReplayed(disk, logs) && mem.None? && pending == {} && logfile == 0
      requires nextFile == disk.manifest.nextFile + 1 && lastSequence == disk.manifest.lastSequence
      modifies this`disk, this`nextFile, this`pending, this`mem, this`logfile, this`lastSequence
      ensures disk == old(disk).(tables := old(disk).tables + edit) && pending == {}
      ensures EditWithin(edit, disk.manifest.nextFile + 1, nextFile) && disk.manifest.nextFile < nextFile
      ensures (forall n | n in Replayed(old(disk)) :: n < nextFile) && lastSequence == RecoveredSequence(old(disk))
      ensures (!saving' ==> edit == map[]) && GoesOn(old(disk), edit, reuseLogs, mem, logfile)
    {
      hide Added, Logged, LogsFrom, LogEntries, Union, MaxOver, GoesOn, WrittenOut, EditWithin, Replayed, AreReplayed,
           AreLogs, RecoveredSequence;
      ghost var d := disk;
      AllReplayed(d, logs);
      var max;
      saving', edit, max := ReplayLogs(logs, reuseLogs, full, saving, disk.manifest.nextFile + 1);
      MaxIsRecovered(d, logs);
      GoesOnFrom(d, logs, edit, reuseLogs, mem, logfile);
      NumbersUsed(d, logs, nextFile);
      if lastSequence < max {
        lastSequence := max;
      }
    }

    /** Replays the logs one after the other. */
    method ReplayLogs(logs: seq<nat>, reuseLogs: bool, full: (nat, nat) -> bool, saving: bool, ghost low: nat)
      returns (saving': bool, edit: map<nat, set<Entry>>, max: nat)
      requires AreLogs(disk, logs) && mem.None? && pending == {} && logfile == 0 && low <= nextFile
      modifies this`disk, this`nextFile, this`pending, this`mem, this`logfile
      ensures disk == old(disk).(tables := old(disk).tables + edit) && pending == {}
      ensures old(nextFile) <= nextFile && EditWithin(edit, low, nextFile) && forall k | 0 <= k < |logs| ::
                logs[k] < nextFile
      ensures max == MaxOver(old(disk), logs) && (!saving' ==> edit == map[])
      ensures WrittenOut(old(disk), logs, edit, reuseLogs, mem, logfile)
    {
      hide Added, Logged, Union, MaxOver, EditWithin;
      saving', edit, max := saving, map[], 0;
      ghost var d := disk;
      NoLogs(d, logs);
      NoEdit(low, nextFile);
      for i := 0 to |logs|
        invariant disk == d.(tables := d.tables + edit) && pending == {} && old(nextFile) <= nextFile
        invariant EditWithin(edit, low, nextFile)
        invariant forall k | 0 <= k < i :: logs[k] < nextFile
        invariant AreLogs(d, logs[..i]) && max == MaxOver(d, logs[..i])
        invariant !saving' ==> edit == map[]
        invariant mem.None? ==> Added(edit) == Union(d, logs[..i]) && logfile == 0
        invariant mem.Some? ==>
                    i == |logs| > 0 && reuseLogs && logfile == logs[i - 1]
                        && mem.value == Logged(d.logs[logfile].batches)
                                && Added(edit) == Union(d, logs[..i - 1])
      {
        LogsNext(d, logs, i);
        saving', edit, max := RecoverLogFile(logs[i], i == |logs| - 1, reuseLogs, (k: nat) => full(i, k),
                                             saving', edit, max, d.tables, low);
        if nextFile <= logs[i] {
          EditGrows(edit, low, nextFile, logs[i] + 1);
          nextFile := logs[i] + 1;
        }
      }
      assert logs[..|logs|] == logs;
    }

    /** Recovers, and starts a log unless one was kept. What was recovered is committed if need be. */
    method Restore(filenames: seq<FileName>, reuseLogs: bool, full: (nat, nat) -> bool, saving: bool)
      returns (ok: bool, saved: bool, edit: map<nat, set<Entry>>, kept: bool)
      requires St() == State(disk, Down, FreshProcess, history, floor) && mem.None?
      requires Lists(filenames, disk) && NoPreviousLog !in disk.logs
      modifies this
      ensures ok <==> NoneMissing(filenames, old(disk).manifest.tables)
      ensures ok ==> CanRestore(old(St()), edit, kept, logfile, nextFile, saved) && (kept ==> reuseLogs)
      ensures ok ==> St() == Committed(Restored(old(St()), edit, kept, logfile, nextFile, saved)) && mem.Some?
    {
      hide Recovered, NoneMissing, Lists, CanRestore, Restored, Committed;
      ghost var d := disk;
      ok, saved, edit := Recover(filenames, reuseLogs, full, saving);
      kept := mem.Some?;
      if ok {
        StartServing(edit, saved, reuseLogs, d);
      }
    }

    method StartServing(edit: map<nat, set<Entry>>, saved: bool, reuseLogs: bool, ghost d: Disk)
      requires Recovered(d, edit, reuseLogs, saved) && mode == Down
      modifies this
      ensures var s, kept := State(d, Down, FreshProcess, old(history), old(floor)), old(mem).Some?;
              && CanRestore(s, edit, kept, logfile, nextFile, saved)
              && St() == Committed(Restored(s, edit, kept, logfile, nextFile, saved))
      ensures mem.Some? && (old(mem).Some? ==> reuseLogs)
    {
      hide EditWithin, Replayed, GoesOn, CanRestore, Restored, Committed, RecoveredSequence;
      KeptOnlyIfAllowed(d, edit, reuseLogs, mem, logfile);
      RestoreIs(d, edit, reuseLogs, saved, mem, logfile, nextFile, history, floor);
      HaveLog();
      LogAndApply(edit, saved);
      mode := Collecting;
    }

    /** A log and a memtable are there, new ones if none were kept. */
    method HaveLog()
      modifies this`disk, this`logfile, this`nextFile, this`mem
      ensures mem == Some(Held(old(mem)))
      ensures logfile == if old(mem).Some? then old(logfile) else old(nextFile)
      ensures nextFile == if old(mem).Some? then old(nextFile) else old(nextFile) + 1
      ensures old(mem).Some? ==> disk == old(disk)
      ensures old(mem).None? ==> disk == old(disk).(logs := old(disk).logs[old(nextFile) := EmptyLog])
    {
      if mem.None? {
        NewLog();
        mem := Some({});
      }
    }

    /** The edit's tables join the version, and with the log number the manifest, if there is
        anything to save. */
    method LogAndApply(edit: map<nat, set<Entry>>, saving: bool)
      modifies this`current, this`logNumber, this`disk
      ensures current == old(current) + edit.Keys && logNumber == if saving then logfile else old(logNumber)
      ensures disk == if saving then old(disk).(manifest := Manifest(current, logfile, lastSequence, nextFile))
              else old(disk)
    {
      current := current + edit.Keys;
      if saving {
        logNumber := logfile;
        disk := disk.(manifest := Manifest(current, logNumber, lastSequence, nextFile));
      }
    }

    /** Opens a database: restores it, collects the files nobody needs, and starts serving. The
        listing is the one the collection finds, `needsCompaction` the version's own wish. */
    method Open(filenames: seq<FileName>, reuseLogs: bool, full: (nat, nat) -> bool, saving: bool,
                listing: seq<FileName>, manifestNumber: nat, needsCompaction: bool)
      returns (ok: bool, saved: bool, edit: map<nat, set<Entry>>, kept: bool, deleted: seq<FileName>)
      requires St() == State(disk, Down, FreshProcess, history, floor) && mem.None?
      requires Lists(filenames, disk) && NoPreviousLog !in disk.logs
      modifies this
      ensures ok <==> NoneMissing(filenames, old(disk).manifest.tables)
      ensures ok ==> CanRestore(old(St()), edit, kept, logfile, nextFile, saved)
      ensures ok ==> var restored := Committed(Restored(old(St()), edit, kept, logfile, nextFile, saved));
                     && CanCollect(restored, 0, Tables(deleted), Logs(deleted))
                     && St() == OpenDone(Collected(restored, 0, Tables(deleted), Logs(deleted)), needsCompaction)
    {
      hide NoneMissing, Lists, CanRestore, Restored, Collectable, MaybeSchedule, Tables, Logs;
      deleted := [];
      ghost var s := St();
      ok, saved, edit, kept := Restore(filenames, reuseLogs, full, saving);
      if ok {
        OnlyCurrent(s, Proc(), edit, kept, logfile, nextFile, saved);
        deleted := DeleteObsoleteFiles(listing, current, manifestNumber);
        MaybeScheduleCompaction(needsCompaction);
        mode := Up;
      }
    }

    /** The numbers of the logs to replay, in ascending order, once every committed table is found. */
    method LogsToReplay(filenames: seq<FileName>) returns (ok: bool, logs: seq<nat>)
      requires Lists(filenames, disk) && current == disk.manifest.tables && logNumber == disk.manifest.logNumber
      requires NoPreviousLog !in disk.logs
      ensures ok <==> NoneMissing(filenames, disk.manifest.tables)
      ensures AreReplayed(disk, logs)
    {
      var expected := current;
      logs := [];
      for i := 0 to |filenames|
        invariant forall t :: t in expected <==> t in current && forall k | 0 <= k < i :: NumberOf(filenames[k]) != t
        invariant Ascending(logs)
        invariant forall n :: n in logs <==> n >= logNumber && LogName(n) in filenames[..i]
      {
        var f := filenames[i];
        expected := expected - {NumberOf(f)};
        if f.LogName? && (f.number >= logNumber || f.number == NoPreviousLog) {
          InsertedIs(logs, f.number);
          logs := InsertedNumber(logs, f.number);
        }
      }
      assert filenames[..|filenames|] == filenames;
      ok := expected == {};
      assert !ok ==> exists t :: t in expected;
    }
  }

  // ---- The steps an open takes ----

  /** The edit is committed if there is one to commit. */
  ghost function Committed(s: State): State {
    if s.mode.Opening? then OpenDurable(s) else s
  }

  lemma RestoreIs(d: Disk, edit: map<nat, set<Entry>>, reuseLogs: bool, saving: bool, mem: Option<set<Entry>>,
                  logfile: nat, nextFile: nat, history: set<Entry>, floor: nat)
    requires EditWithin(edit, d.manifest.nextFile + 1, nextFile) && d.manifest.nextFile < nextFile
    requires forall n | n in Replayed(d) :: n < nextFile
    requires !saving ==> edit == map[]
    requires GoesOn(d, edit, reuseLogs, mem, logfile)
    ensures var s, kept := State(d, Down, FreshProcess, history, floor), mem.Some?;
            var newLog, next := if kept then logfile else nextFile, if kept then nextFile else nextFile + 1;
            && CanRestore(s, edit, kept, newLog, next, saving)
            && Committed(Restored(s, edit, kept, newLog, next, saving))
               == State(Disk(d.tables + edit, if kept then d.logs else d.logs[newLog := EmptyLog],
                             if saving
                             then Manifest(d.manifest.tables + edit.Keys, newLog, RecoveredSequence(d), next)
                             else d.manifest),
                        Collecting,
                        FreshProcess.(mem := Held(mem), logfile := newLog, current := d.manifest.tables + edit.Keys,
                                      lastSequence := RecoveredSequence(d), nextFile := next,
                                      logNumber := if saving then newLog else d.manifest.logNumber),
                        history, floor)
  {
    hide Logged, LogsFrom, LogEntries, RecoveredSequence, TableEntries;
    if !saving {
      assert d.manifest.tables + edit.Keys == d.manifest.tables;
    }
  }

  lemma KeptOnlyIfAllowed(d: Disk, edit: map<nat, set<Entry>>, reuseLogs: bool, mem: Option<set<Entry>>, logfile: nat)
    requires GoesOn(d, edit, reuseLogs, mem, logfile)
    ensures mem.Some? ==> reuseLogs
  {
  }

  /** Right after a restore only the current version's files are in use. */
  lemma OnlyCurrent(s: State, p: Process, edit: map<nat, set<Entry>>, kept: bool, newLog: nat, next: nat, saved: bool)
    requires CanRestore(s, edit, kept, newLog, next, saved)
    requires p == Committed(Restored(s, edit, kept, newLog, next, saved)).p
    ensures p.current == Live(p) && !p.bgError
    ensures Committed(Restored(s, edit, kept, newLog, next, saved)).mode.Collecting?
  {
  }

  /** Applies a batch to a memtable, one operation after the other. */
  method InsertInto(b: Batch, m: set<Entry>) returns (r: set<Entry>)
    ensures r == m + b.All()
  {
    r := m;
    for i := 0 to |b.ops|
      invariant r == m + b.Prefix(i)
    {
      assert b.Prefix(i + 1) == b.Prefix(i) + {b.EntryAt(i)};
      r := r + {b.EntryAt(i)};
    }
  }

  // ---- Replaying ----

  /** The tables added by an edit are not empty, and their numbers are new. */
  ghost predicate EditWithin(edit: map<nat, set<Entry>>, low: nat, high: nat) {
    forall t | t in edit :: low <= t < high && edit[t] != {}
  }

  lemma NoEdit(low: nat, high: nat)
    ensures EditWithin(map[], low, high)
  {
  }

  lemma EditTakes(edit: map<nat, set<Entry>>, low: nat, n: nat, m: set<Entry>)
    requires EditWithin(edit, low, n) && low <= n
    ensures n !in edit && EditWithin(if m == {} then edit else edit[n := m], low, n + 1)
  {
  }

  lemma EditGrows(edit: map<nat, set<Entry>>, low: nat, high: nat, more: nat)
    requires EditWithin(edit, low, high) && high <= more
    ensures EditWithin(edit, low, more)
  {
  }

  ghost function Added(edit: map<nat, set<Entry>>): set<Entry> { TableEntries(edit, edit.Keys) }

  ghost function Held(m: Option<set<Entry>>): set<Entry> { if m.Some? then m.value else {} }

  /** The last sequence number of the batches, or `from` if that is greater. */
  function MaxLast(batches: seq<Batch>, from: nat): nat {
    if |batches| == 0 then from
    else
      var m, b := MaxLast(batches[..|batches| - 1], from), batches[|batches| - 1];
      if b.Last() > m then b.Last() else m
  }

  lemma NothingReplayed(batches: seq<Batch>, from: nat)
    ensures batches[..0] == [] && Logged([]) == {} && MaxLast([], from) == from
  {
  }

  lemma ReplayedNext(batches: seq<Batch>, i: nat, from: nat)
    requires i < |batches|
    ensures Logged(batches[..i + 1]) == Logged(batches[..i]) + batches[i].All()
    ensures var m := MaxLast(batches[..i], from);
            MaxLast(batches[..i + 1], from) == if batches[i].Last() > m then batches[i].Last() else m
  {
    assert batches[..i + 1][..i] == batches[..i];
  }

  lemma MoreHeld(a: set<Entry>, m: set<Entry>, b: set<Entry>, l: set<Entry>, e: set<Entry>)
    requires a + m == b + l
    ensures a + (m + e) == b + (l + e)
  {
    assert a + (m + e) == (a + m) + e && b + (l + e) == (b + l) + e;
  }

  lemma AddedOne(edit: map<nat, set<Entry>>, n: nat, m: set<Entry>)
    requires n !in edit
    ensures Added(edit[n := m]) == Added(edit) + m
  {
    var more := edit[n := m];
    TableFrame(edit, more, edit.Keys);
    assert more.Keys == edit.Keys + {n};
    TableUnion(more, edit.Keys, {n});
    assert more[n] == m;
    assert TableEntries(more, {n}) == m;
  }

  lemma AddedNext(edit: map<nat, set<Entry>>, n: nat, m: set<Entry>, base: map<nat, set<Entry>>)
    requires n !in edit
    ensures Added(if m == {} then edit else edit[n := m]) == Added(edit) + m
    ensures (base + edit)[n := m] == base + edit[n := m]
  {
    var more := edit[n := m];
    AddedOne(edit, n, m);
    assert m == {} ==> Added(edit) + m == Added(edit);
    assert (base + edit)[n := m] == base + more;
  }

  ghost predicate AreLogs(d: Disk, ns: seq<nat>) { forall n | n in ns :: n in d.logs }

  /** Everything in these logs. */
  ghost function Union(d: Disk, ns: seq<nat>): set<Entry>
    requires AreLogs(d, ns)
  {
    set n, e | n in ns && e in Logged(d.logs[n].batches) :: e
  }

  /** The last sequence number in these logs. */
  ghost function MaxOver(d: Disk, ns: seq<nat>): nat
    requires AreLogs(d, ns)
  {
    if |ns| == 0 then 0 else MaxLast(d.logs[ns[|ns| - 1]].batches, MaxOver(d, ns[..|ns| - 1]))
  }

  lemma NoLogs(d: Disk, ns: seq<nat>)
    requires AreLogs(d, ns)
    ensures AreLogs(d, ns[..0]) && Union(d, ns[..0]) == {} && MaxOver(d, ns[..0]) == 0 && Added(map[]) == {}
    ensures d.tables + map[] == d.tables
  {
  }

  lemma LogsNext(d: Disk, ns: seq<nat>, i: nat)
    requires AreLogs(d, ns) && i < |ns|
    ensures ns[i] in d.logs && AreLogs(d, ns[..i]) && AreLogs(d, ns[..i + 1])
    ensures Union(d, ns[..i + 1]) == Union(d, ns[..i]) + Logged(d.logs[ns[i]].batches)
    ensures MaxOver(d, ns[..i + 1]) == MaxLast(d.logs[ns[i]].batches, MaxOver(d, ns[..i]))
  {
    assert ns[..i + 1][..i] == ns[..i];
    forall e ensures e in Union(d, ns[..i + 1]) <==> e in Union(d, ns[..i]) || e in Logged(d.logs[ns[i]].batches) {
      assert ns[..i + 1] == ns[..i] + [ns[i]];
      if n :| n in ns[..i] && e in Logged(d.logs[n].batches) { assert n in ns[..i + 1]; }
      assert ns[i] in ns[..i + 1];
    }
  }

  /** All logs the manifest asks for, in order. */
  ghost predicate AreReplayed(d: Disk, ns: seq<nat>) {
    Ascending(ns) && forall n :: n in ns <==> n in Replayed(d)
  }

  lemma AllReplayed(d: Disk, ns: seq<nat>)
    requires AreReplayed(d, ns)
    ensures AreLogs(d, ns) && Union(d, ns) == LogsFrom(d.logs, d.manifest.logNumber)
    ensures |ns| > 0 ==> IsLastLog(d, ns[|ns| - 1]) && AreLogs(d, ns[..|ns| - 1])
    ensures |ns| > 0 ==> Union(d, ns[..|ns| - 1]) == LogEntries(d.logs, d.manifest.logNumber, ns[|ns| - 1])
  {
    hide Logged;
    if |ns| > 0 {
      var front, n := ns[..|ns| - 1], ns[|ns| - 1];
      assert ns == front + [n];
      forall k ensures k in front <==> k in Replayed(d) && k < n {
        assert k in ns <==> k in front || k == n;
      }
    }
  }

  /** All these logs are in tables, except that the last one may be kept with its memtable. */
  ghost predicate WrittenOut(d: Disk, ns: seq<nat>, edit: map<nat, set<Entry>>, reuseLogs: bool,
                             mem: Option<set<Entry>>, logfile: nat)
    requires AreLogs(d, ns)
  {
    if mem.None? then logfile == 0 && Added(edit) == Union(d, ns)
    else |ns| > 0 && reuseLogs && logfile == ns[|ns| - 1] && logfile in d.logs
         && mem.value == Logged(d.logs[logfile].batches)
         && AreLogs(d, ns[..|ns| - 1]) && Added(edit) == Union(d, ns[..|ns| - 1])
  }

  /** The same of all logs the manifest asks for. */
  ghost predicate GoesOn(d: Disk, edit: map<nat, set<Entry>>, reuseLogs: bool, mem: Option<set<Entry>>, logfile: nat) {
    if mem.None? then logfile == 0 && Added(edit) == LogsFrom(d.logs, d.manifest.logNumber)
    else reuseLogs && IsLastLog(d, logfile) && mem.value == Logged(d.logs[logfile].batches)
         && Added(edit) == LogEntries(d.logs, d.manifest.logNumber, logfile)
  }

  lemma GoesOnFrom(d: Disk, ns: seq<nat>, edit: map<nat, set<Entry>>, reuseLogs: bool, mem: Option<set<Entry>>,
                   logfile: nat)
    requires AreReplayed(d, ns) && AreLogs(d, ns) && WrittenOut(d, ns, edit, reuseLogs, mem, logfile)
    ensures GoesOn(d, edit, reuseLogs, mem, logfile)
  {
    AllReplayed(d, ns);
  }

  lemma NumbersUsed(d: Disk, ns: seq<nat>, bound: nat)
    requires AreReplayed(d, ns) && forall k | 0 <= k < |ns| :: ns[k] < bound
    ensures forall n | n in Replayed(d) :: n < bound
  {
    assert forall n | n in Replayed(d) :: n in ns;
  }

  lemma {:induction false} MaxLastIs(batches: seq<Batch>, from: nat)
    ensures var m := MaxLast(batches, from);
            && m >= from && (forall b | b in batches :: b.Last() <= m)
            && (m == from || exists b :: b in batches && b.Last() == m)
  {
    if |batches| > 0 {
      var front, b := batches[..|batches| - 1], batches[|batches| - 1];
      MaxLastIs(front, from);
      assert batches == front + [b];
    }
  }

  lemma {:induction false} MaxOverIs(d: Disk, ns: seq<nat>)
    requires AreLogs(d, ns)
    ensures var m := MaxOver(d, ns);
            && (forall n, b | n in ns && b in d.logs[n].batches :: b.Last() <= m)
            && (m == 0 || exists n, b :: n in ns && b in d.logs[n].batches && b.Last() == m)
  {
    if |ns| > 0 {
      var front, n := ns[..|ns| - 1], ns[|ns| - 1];
      assert ns == front + [n];
      MaxOverIs(d, front);
      MaxLastIs(d.logs[n].batches, MaxOver(d, front));
    }
  }

  lemma MaxIsRecovered(d: Disk, ns: seq<nat>)
    requires AreReplayed(d, ns) && AreLogs(d, ns)
    ensures RecoveredSequence(d) == if d.manifest.lastSequence < MaxOver(d, ns) then MaxOver(d, ns)
            else d.manifest.lastSequence
  {
    hide MaxOver;
    MaxOverIs(d, ns);
    var r, m := RecoveredSequence(d), MaxOver(d, ns);
    if r != d.manifest.lastSequence {
      var n, b :| n in Replayed(d) && b in d.logs[n].batches && b.Last() == r;
      assert n in ns;
    }
    if m != 0 {
      var n, b :| n in ns && b in d.logs[n].batches && b.Last() == m;
      assert n in Replayed(d) && b.Last() in Lasts(d);
    }
  }

  function NumberOf(f: FileName): nat {
    if f.OtherName? then 0 else f.number
  }

  /** The names are those of the files on disk, each once. */
  ghost predicate Lists(filenames: seq<FileName>, d: Disk) {
    && (forall i, j | 0 <= i < j < |filenames| :: filenames[i] != filenames[j])
    && (forall n: nat :: LogName(n) in filenames <==> n in d.logs)
    && (forall n: nat :: TableName(n) in filenames <==> n in d.tables)
  }

  /** Every committed table has a file of its number. */
  ghost predicate NoneMissing(filenames: seq<FileName>, tables: set<nat>) {
    forall t | t in tables :: exists f :: f in filenames && NumberOf(f) == t
  }

  ghost predicate Ascending(ns: seq<nat>) {
    forall i, j | 0 <= i < j < |ns| :: ns[i] < ns[j]
  }

  /** A number put in its place. */
  function InsertedNumber(ns: seq<nat>, n: nat): seq<nat> {
    if |ns| == 0 then [n]
    else if ns[|ns| - 1] < n then ns + [n]
    else InsertedNumber(ns[..|ns| - 1], n) + [ns[|ns| - 1]]
  }

  lemma LastStays(r: seq<nat>, last: nat)
    requires Ascending(r) && forall k | k in r :: k < last
    ensures Ascending(r + [last]) && forall k :: k in r + [last] <==> k in r || k == last
  {
    assert forall i | 0 <= i < |r| :: r[i] in r;
  }

  lemma {:induction false} InsertedIs(ns: seq<nat>, n: nat)
    requires Ascending(ns) && n !in ns
    ensures Ascending(InsertedNumber(ns, n)) && forall k :: k in InsertedNumber(ns, n) <==> k in ns || k == n
  {
    if |ns| > 0 && ns[|ns| - 1] >= n {
      var front, last := ns[..|ns| - 1], ns[|ns| - 1];
      InsertedIs(front, n);
      assert last in ns && ns == front + [last];
      assert forall k | k in front :: k < last;
      LastStays(InsertedNumber(front, n), last);
    }
  }

  ghost function Tables(files: seq<FileName>): set<nat> {
    set f | f in files && f.TableName? :: f.number
  }

  ghost function Logs(files: seq<FileName>): set<nat> {
    set f | f in files && f.LogName? :: f.number
  }

  lemma NothingDeleted(d: Disk)
    ensures d == d.(tables := d.tables - Tables([]), logs := d.logs - Logs([]))
  {
    assert d.tables - Tables([]) == d.tables && d.logs - Logs([]) == d.logs;
  }

  lemma OneDeleted(d: Disk, deleted: seq<FileName>, f: FileName)
    ensures d.tables - Tables(deleted + [f]) == d.tables - Tables(deleted) - (if f.TableName? then {f.number} else {})
    ensures d.logs - Logs(deleted + [f]) == d.logs - Logs(deleted) - (if f.LogName? then {f.number} else {})
  {
    assert Tables(deleted + [f]) == Tables(deleted) + if f.TableName? then {f.number} else {};
    assert Logs(deleted + [f]) == Logs(deleted) + if f.LogName? then {f.number} else {};
  }

  /** Opening after a crash is safe, as long as a log that is kept hides nothing appended to it. */
  lemma OpenIsSafe(s: State, edit: map<nat, set<Entry>>, kept: bool, newLog: nat, next: nat, saved: bool,
                   tables: set<nat>, logs: set<nat>, needs: bool)
    requires Inv(s) && CanRestore(s, edit, kept, newLog, next, saved)
    requires kept && newLog in s.disk.logs ==> s.disk.logs[newLog].Readable()
    requires CanCollect(Committed(Restored(s, edit, kept, newLog, next, saved)), 0, tables, logs)
    ensures Inv(OpenDone(Collected(Committed(Restored(s, edit, kept, newLog, next, saved)), 0, tables, logs), needs))
  {
    hide Inv, CanRestore, Collectable, UpInv, RecoveredSequence;
    KeepsRestore(s, edit, kept, newLog, next, saved);
    var r := Restored(s, edit, kept, newLog, next, saved);
    if r.mode.Opening? {
      InvOpenStep(r, CommitOpen);
    }
    KeepsCollect(Committed(r), 0, tables, logs);
    KeepsFinishOpen(Collected(Committed(r), 0, tables, logs), needs);
  }
}
