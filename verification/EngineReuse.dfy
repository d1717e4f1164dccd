/** Which writes a restart would find when a reopened database goes on writing to the log it kept. */
module EngineReuse {
  import opened Entries
  import opened EngineState
  import opened WriteBatch
  import opened LogFormat
  import opened EngineInvariant
  import opened EngineRestart

  /** From an open to state j the database has not crashed, switched memtables or begun a compaction. */
  ghost predicate SameMemtable(steps: seq<Step>, open: nat, j: nat)
    requires open < j <= |steps|
  {
    forall k | open < k < j :: !steps[k].Crash? && !steps[k].SwitchMemtable? && !steps[k].BeginMerge?
  }

  /** Everything a restart can come to find by what is on disk, before and after an edit is committed. */
  ghost function Known(s: State): set<Entry> {
    TableEntries(s.disk.tables, s.disk.manifest.tables + s.p.current) + LogsFrom(s.disk.logs, s.disk.manifest.logNumber)
  }

  ghost function CurrentLog(s: State): set<Entry> {
    if s.p.logfile in s.disk.logs then Logged(s.disk.logs[s.p.logfile].batches) else {}
  }

  /** Background jobs have nothing to do, and the current log is among those a restart replays. */
  ghost predicate Idling(s: State) {
    && !s.mode.Down? && s.p.imm.None? && (forall job | job in s.p.jobs :: job == Job(NoFlush, NoMerge))
    && s.p.logfile in s.disk.logs
    && s.disk.manifest.logNumber <= s.p.logfile && s.p.logNumber <= s.p.logfile
    && (s.mode.Opening? ==>
         s.mode.edit.tables == s.p.current && s.disk.manifest.logNumber <= s.mode.edit.logNumber <= s.p.logfile)
  }

  /** The write under way has the next numbers, and `clean` says whether a reader gets to its record. */
  ghost predicate Writing(s: State) {
    var w := s.p.write;
    && (!s.mode.Up? ==> w.NoWrite?)
    && (!w.NoWrite? ==> w.batch.start == s.p.lastSequence + 1)
    && (w.Appending? ==> s.p.logfile in s.disk.logs && w.clean == s.disk.logs[s.p.logfile].Readable())
    && (w.Applying? && w.clean ==> w.batch.All() <= CurrentLog(s))
  }

  /** Only a clean record puts anything new on disk. */
  ghost predicate NothingNewer(s: State) {
    forall e | e in Known(s) ::
      e.sequence <= s.p.lastSequence || (s.p.write.Applying? && s.p.write.clean && e in s.p.write.batch.All())
  }

  ghost predicate Calm(s: State) { Idling(s) && Writing(s) && NothingNewer(s) }

  /** What a step may do to what is known and to the write under way. */
  ghost predicate Goes(s: State, step: Step, t: State) {
    && Calm(t) && s.p.lastSequence <= t.p.lastSequence && s.history <= t.history && CurrentLog(s) <= CurrentLog(t)
    && Known(t) <= Known(s) + (if step.EndAppend? && s.p.write.Appending? && s.p.write.clean then s.p.write.batch.All()
                               else {})
    && (!step.BeginAppend? && !t.p.write.NoWrite? ==>
         && !s.p.write.NoWrite? && t.p.write.batch == s.p.write.batch && t.p.write.clean == s.p.write.clean)
  }

  lemma BeginGoes(s: State, step: Step)
    requires Calm(s) && Enabled(s, step) && step.BeginAppend?
    ensures Goes(s, step, Next(s, step))
  {
    hide TableEntries, LogsFrom, Logged;
  }

  lemma LogReplaced(logs: map<nat, LogFile>, n: nat, log: LogFile, from: nat, added: set<Entry>)
    requires n in logs && from <= n && Logged(log.batches) == Logged(logs[n].batches) + added
    ensures LogsFrom(logs[n := log], from) == LogsFrom(logs, from) + added
  {
    hide Logged;
    forall e | e in LogsFrom(logs, from) ensures e in LogsFrom(logs[n := log], from) {
      var m :| m in logs.Keys && from <= m && e in Logged(logs[m].batches);
      assert m in logs[n := log].Keys && e in Logged(logs[n := log][m].batches);
    }
    forall e | e in added ensures e in LogsFrom(logs[n := log], from) {
      assert n in logs[n := log].Keys && e in Logged(logs[n := log][n].batches);
    }
  }

  lemma ExtendedLog(logs: map<nat, LogFile>, n: nat, b: Batch, bytes: nat, from: nat)
    requires n in logs && from <= n
    ensures var log := Extended(logs[n], b, bytes);
            && Logged(log.batches) == Logged(logs[n].batches) + (if logs[n].Readable() then b.All() else {})
            && LogsFrom(logs[n := log], from) == LogsFrom(logs, from) + (if logs[n].Readable() then b.All() else {})
  {
    hide EndAfter;
    var log := Extended(logs[n], b, bytes);
    assert (logs[n].batches + [b])[..|logs[n].batches|] == logs[n].batches;
    LogReplaced(logs, n, log, from, if logs[n].Readable() then b.All() else {});
  }

  lemma EndAppendGoes(s: State, step: Step)
    requires Calm(s) && Enabled(s, step) && step.EndAppend?
    ensures Goes(s, step, Next(s, step))
  {
    hide TableEntries, LogsFrom, Logged, Extended;
    ExtendedLog(s.disk.logs, s.p.logfile, s.p.write.batch, s.p.write.bytes, s.disk.manifest.logNumber);
  }

  lemma WriteGoes(s: State, step: Step)
    requires Calm(s) && Enabled(s, step) && (step.ApplyOne? || step.EndWrite?)
    ensures Goes(s, step, Next(s, step))
  {
    hide TableEntries, LogsFrom, Logged;
  }

  lemma StillNothingNewer(s: State, t: State)
    requires NothingNewer(s) && Known(t) <= Known(s) && t.p.write == s.p.write && t.p.lastSequence == s.p.lastSequence
    ensures NothingNewer(t)
  {
    hide Known;
  }

  ghost predicate Books(step: Step) {
    || step.TakeSnapshot? || step.ReleaseSnapshot? || step.PinVersion? || step.UnpinVersion?
    || step.AskForCompaction? || step.ShutDown? || step.BeginJob? || step.EndJob?
  }

  lemma BooksGo(s: State, step: Step)
    requires Calm(s) && Enabled(s, step) && Books(step)
    ensures Goes(s, step, Next(s, step))
  {
    hide TableEntries, LogsFrom, Logged, NothingNewer, Enabled, Next;
    BooksKeep(s, step);
    StillNothingNewer(s, Next(s, step));
  }

  /** Everything that matters here is as before. */
  ghost predicate Untouched(s: State, t: State) {
    && t.disk == s.disk && t.mode == s.mode && t.history == s.history
    && t.p.write == s.p.write && t.p.lastSequence == s.p.lastSequence
    && t.p.current == s.p.current && t.p.logfile == s.p.logfile && t.p.imm == s.p.imm && t.p.logNumber == s.p.logNumber
  }

  lemma BooksKeep(s: State, step: Step)
    requires Idling(s) && Enabled(s, step) && Books(step)
    ensures Idling(Next(s, step)) && Untouched(s, Next(s, step))
  {
    hide Live, Enabled, Next;
    if step.BeginJob? || step.EndJob? {
      JobsKeep(s, step);
    } else {
      NotesKeep(s, step);
    }
  }

  lemma NotesKeep(s: State, step: Step)
    requires Enabled(s, step) && Books(step) && !step.BeginJob? && !step.EndJob?
    ensures Untouched(s, Next(s, step)) && Next(s, step).p.jobs == s.p.jobs
  {
  }

  lemma JobsKeep(s: State, step: Step)
    requires Enabled(s, step) && (step.BeginJob? || step.EndJob?)
    ensures Untouched(s, Next(s, step))
    ensures forall job | job in Next(s, step).p.jobs :: job in s.p.jobs || job == Job(NoFlush, NoMerge)
  {
  }

  lemma CollectGoes(s: State, step: Step)
    requires Calm(s) && Enabled(s, step) && step.Collect?
    ensures Goes(s, step, Next(s, step))
  {
    hide Known, Logged, Live, NothingNewer;
    CollectKnows(s, step);
    StillNothingNewer(s, Next(s, step));
  }

  lemma CollectKnows(s: State, step: Step)
    requires Enabled(s, step) && step.Collect?
    ensures Known(Next(s, step)) <= Known(s)
  {
    hide Logged, Live, Collectable;
  }

  lemma OpenGoes(s: State, step: Step)
    requires Calm(s) && Enabled(s, step) && (step.CommitOpen? || step.FinishOpen?)
    ensures Goes(s, step, Next(s, step))
  {
    hide Known, Logged, NothingNewer;
    OpenKnows(s, step);
    StillNothingNewer(s, Next(s, step));
  }

  lemma OpenKnows(s: State, step: Step)
    requires Idling(s) && Enabled(s, step) && (step.CommitOpen? || step.FinishOpen?)
    ensures Known(Next(s, step)) <= Known(s)
  {
    hide Logged;
  }

  /** Nothing else can happen. */
  lemma CalmGoes(s: State, step: Step)
    requires Calm(s) && Enabled(s, step) && !step.Crash? && !step.SwitchMemtable? && !step.BeginMerge?
    ensures Goes(s, step, Next(s, step))
  {
    hide Goes, Known, Writing, NothingNewer, Next;
    assert forall j | 0 <= j < |s.p.jobs| :: s.p.jobs[j] == Job(NoFlush, NoMerge) by {
      assert forall j | 0 <= j < |s.p.jobs| :: s.p.jobs[j] in s.p.jobs;
    }
    if step.BeginAppend? {
      BeginGoes(s, step);
    } else if step.EndAppend? {
      EndAppendGoes(s, step);
    } else if step.ApplyOne? || step.EndWrite? {
      WriteGoes(s, step);
    } else if Books(step) {
      BooksGo(s, step);
    } else if step.Collect? {
      CollectGoes(s, step);
    } else if step.CommitOpen? || step.FinishOpen? {
      OpenGoes(s, step);
    } else {
      assert false;
    }
  }

  // ---- An open ----

  lemma OpenIsCalm(s: State, step: Step)
    requires Inv(s) && Enabled(s, step) && step.Restore?
    ensures Calm(Next(s, step))
  {
    hide Inv, Logged, TableEntries, LogsFrom, Replayed, IsLastLog, RecoveredSequence;
    var t := Next(s, step);
    RestoreSplit(s, step.split, step.reuse, step.newLog, step.nextFile, step.newManifest);
    RestoreTables(s, step.split, step.reuse, step.newLog, step.nextFile, step.newManifest);
    RestoreSequences(s, step.split, step.reuse, step.newLog, step.nextFile, step.newManifest);
    TableUnion(t.disk.tables, s.disk.manifest.tables, t.p.current);
  }

  lemma {:induction false} StaysCalm(states: seq<State>, steps: seq<Step>, open: nat, j: nat)
    requires Run(states, steps) && open < j <= |steps| && Inv(states[open]) && steps[open].Restore?
    requires SameMemtable(steps, open, j)
    ensures Calm(states[j])
    decreases j
  {
    hide Inv, Enabled, Next, Calm;
    if j == open + 1 {
      OpenIsCalm(states[open], steps[open]);
    } else {
      StaysCalm(states, steps, open, j - 1);
      CalmGoes(states[j - 1], steps[j - 1]);
    }
  }

  // ---- One write ----

  /** The record of a write began in state b and the write ended with step k. */
  ghost predicate WriteFrom(steps: seq<Step>, b: nat, k: nat) {
    && b < k < |steps| && steps[b].BeginAppend? && steps[k].EndWrite?
    && forall m | b < m < k :: !steps[m].BeginAppend?
  }

  ghost predicate Readable(s: State) { s.p.logfile in s.disk.logs && s.disk.logs[s.p.logfile].Readable() }

  lemma {:induction false} SameWrite(states: seq<State>, steps: seq<Step>, open: nat, b: nat, m: nat, k: nat)
    requires Run(states, steps) && open < b < m <= k && WriteFrom(steps, b, k)
    requires Inv(states[open]) && steps[open].Restore? && SameMemtable(steps, open, k)
    ensures var w := states[m].p.write; w.NoWrite? || w.clean == Readable(states[b])
    decreases m
  {
    hide Inv, Enabled, Next, Calm;
    StaysCalm(states, steps, open, m - 1);
    CalmGoes(states[m - 1], steps[m - 1]);
    if m == b + 1 {
      BeginsClean(states[b], steps[b]);
    } else {
      SameWrite(states, steps, open, b, m - 1, k);
    }
  }

  lemma BeginsClean(s: State, step: Step)
    requires Enabled(s, step) && step.BeginAppend?
    ensures Next(s, step).p.write.Appending? && Next(s, step).p.write.clean == Readable(s)
  {
  }

  lemma WriteEnds(s: State, step: Step)
    requires Calm(s) && Enabled(s, step) && step.EndWrite?
    ensures s.p.write.Applying?
    ensures var w, t := s.p.write, Next(s, step);
            && w.batch.All() <= t.history && UpTo(w.batch.All(), t.p.lastSequence)
            && (if w.clean then w.batch.All() <= CurrentLog(t) else w.batch.All() !! Known(t))
  {
    hide TableEntries, LogsFrom, Logged;
    WriteGoes(s, step);
    assert forall e | e in s.p.write.batch.All() :: e.sequence > s.p.lastSequence;
  }

  /** What is known of a finished write stays so. */
  lemma {:induction false} StaysSo(states: seq<State>, steps: seq<Step>, open: nat, k: nat, j: nat, es: set<Entry>)
    requires Run(states, steps) && open < k <= j <= |steps|
    requires Inv(states[open]) && steps[open].Restore? && SameMemtable(steps, open, j)
    requires es <= states[k].history && UpTo(es, states[k].p.lastSequence)
    ensures es <= states[j].history && UpTo(es, states[j].p.lastSequence)
    ensures es <= CurrentLog(states[k]) ==> es <= CurrentLog(states[j])
    ensures es !! Known(states[k]) ==> es !! Known(states[j])
    decreases j
  {
    hide Inv, Enabled, Next, Known, CurrentLog, Idling, NothingNewer;
    if k < j {
      var s := states[j - 1];
      StaysSo(states, steps, open, k, j - 1, es);
      StaysCalm(states, steps, open, j - 1);
      CalmGoes(s, steps[j - 1]);
      if s.p.write.Appending? {
        assert forall e | e in s.p.write.batch.All() :: e.sequence > s.p.lastSequence;
      }
    }
  }

  lemma KnownIsFound(s: State)
    requires Calm(s)
    ensures CurrentLog(s) <= Recoverable(s.disk) <= Known(s)
  {
    hide Logged;
  }

  /** A write that returned after an open is found by a restart exactly when, as its record began, nothing
      a crash had left in the log hid it; else not one of its entries is. So it is until the memtable that
      has them is switched. */
  lemma FoundIffReadable(states: seq<State>, steps: seq<Step>, open: nat, b: nat, k: nat, j: nat)
    requires Run(states, steps) && open < b && WriteFrom(steps, b, k) && k < j <= |steps|
    requires Inv(states[open]) && steps[open].Restore? && SameMemtable(steps, open, j)
    ensures states[k].p.write.Applying?
    ensures var es := states[k].p.write.batch.All();
            && es <= states[j].history
            && (if Readable(states[b]) then es <= Recoverable(states[j].disk) else es !! Recoverable(states[j].disk))
  {
    hide Inv, Enabled, Next, Calm, Known, CurrentLog, Readable, Recoverable;
    StaysCalm(states, steps, open, k);
    WriteEnds(states[k], steps[k]);
    SameWrite(states, steps, open, b, k, k);
    StaysSo(states, steps, open, k + 1, j, states[k].p.write.batch.All());
    StaysCalm(states, steps, open, j);
    KnownIsFound(states[j]);
  }
}
