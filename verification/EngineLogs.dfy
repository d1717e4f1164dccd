/** The engine's log files are what a reader finds in files of bytes. */
module EngineLogs {
  import opened Wrappers
  import opened Coding
  import opened WriteBatch
  import opened LogFormat
  import opened LogReuse
  import LogReader
  import opened EngineState

  /** How batches become records. */
  type Encoding = Batch -> seq<byte>

  /** A batch whose record was appended to a log: all of it, or so many bytes before a crash. */
  datatype Given = Given(batch: Batch, cut: Option<nat>)

  function AttemptOf(enc: Encoding, g: Given): Attempt { Attempt(enc(g.batch), g.cut) }

  function Attempts(enc: Encoding, gs: seq<Given>): seq<Attempt> {
    if |gs| == 0 then [] else Attempts(enc, gs[..|gs| - 1]) + [AttemptOf(enc, gs[|gs| - 1])]
  }

  /** The engine's log after these. */
  ghost function After(enc: Encoding, gs: seq<Given>): LogFile {
    if |gs| == 0 then EmptyLog
    else
      var log, g := After(enc, gs[..|gs| - 1]), gs[|gs| - 1];
      if g.cut.None? then Extended(log, g.batch, |enc(g.batch)|) else Cut(log, |enc(g.batch)|, g.cut.value)
  }

  /** Whatever was cut was not complete. */
  ghost predicate Possible(enc: Encoding, gs: seq<Given>) {
    |gs| > 0 ==>
      var n, g := After(enc, gs[..|gs| - 1]).length, gs[|gs| - 1];
      (g.cut.Some? ==> n + g.cut.value < EndAfter(n, |enc(g.batch)|)) && Possible(enc, gs[..|gs| - 1])
  }

  function Encoded(enc: Encoding, batches: seq<Batch>): seq<seq<byte>> {
    if |batches| == 0 then [] else Encoded(enc, batches[..|batches| - 1]) + [enc(batches[|batches| - 1])]
  }

  function Records(found: seq<(seq<byte>, nat)>): seq<seq<byte>> {
    if |found| == 0 then [] else Records(found[..|found| - 1]) + [found[|found| - 1].0]
  }

  /** The engine's log has the length of the file, knows what is hidden, and holds the records found. */
  lemma {:induction false} AfterIs(enc: Encoding, gs: seq<Given>)
    requires Possible(enc, gs)
    ensures var ws, log := Attempts(enc, gs), After(enc, gs);
            && Sensible(0, ws) && StopOf(0, ws) == log.length && HiddenOf(0, 0, ws) == log.hiddenTo
            && Records(Found(0, 0, ws)) == Encoded(enc, log.batches)
    decreases |gs|
  {
    hide Align, EndAfter, CutThrough, Leftover, Found, Sensible, StopOf, HiddenOf;
    if |gs| == 0 {
      NothingFound();
    } else {
      var init, g := gs[..|gs| - 1], gs[|gs| - 1];
      var ws, w, log := Attempts(enc, init), AttemptOf(enc, g), After(enc, init);
      AfterIs(enc, init);
      OneMore(0, 0, ws, w);
      var found, more := Found(0, 0, ws), FoundOf(log.length, log.hiddenTo, w);
      assert (found + more)[..|found|] == found;
      assert (log.batches + [g.batch])[..|log.batches|] == log.batches;
      assert |more| == 0 ==> found + more == found;
    }
  }

  lemma NothingFound()
    ensures Sensible(0, []) && StopOf(0, []) == 0 && HiddenOf(0, 0, []) == 0 && Found(0, 0, []) == []
  {
  }

  /** Reading the file finds the records of the batches the engine's log holds, if the checksum accepts
      nothing that stands where a record was cut. */
  ghost predicate ReadsBack(crc: Checksum, enc: Encoding, gs: seq<Given>, log: LogFile) {
    var ws := Attempts(enc, gs);
    Sensible(0, ws) && (Untaken(Bytes(crc, 0, ws), crc, 0, ws) ==>
      Records(LogReader.Log(Bytes(crc, 0, ws), LogReader.Config(crc, true, 0)).0) == Encoded(enc, log.batches))
  }

  /** The log came about by appending records, some of them cut short. */
  ghost predicate Made(enc: Encoding, log: LogFile) {
    exists gs :: Possible(enc, gs) && After(enc, gs) == log
  }

  lemma MadeEmpty(enc: Encoding)
    ensures Made(enc, EmptyLog)
  {
    assert Possible(enc, []) && After(enc, []) == EmptyLog;
  }

  lemma MadeLonger(enc: Encoding, log: LogFile, b: Batch)
    requires Made(enc, log)
    ensures Made(enc, Extended(log, b, |enc(b)|))
    ensures forall k: nat | log.length + k < EndAfter(log.length, |enc(b)|) :: Made(enc, Cut(log, |enc(b)|, k))
  {
    hide EndAfter, Extended, Cut;
    var gs :| Possible(enc, gs) && After(enc, gs) == log;
    var whole := gs + [Given(b, None)];
    assert whole[..|gs|] == gs;
    assert Possible(enc, whole) && After(enc, whole) == Extended(log, b, |enc(b)|);
    forall k: nat | log.length + k < EndAfter(log.length, |enc(b)|) ensures Made(enc, Cut(log, |enc(b)|, k)) {
      var torn := gs + [Given(b, Some(k))];
      assert torn[..|gs|] == gs;
      assert Possible(enc, torn) && After(enc, torn) == Cut(log, |enc(b)|, k);
    }
  }

  // ---- Runs ----

  ghost predicate AllMade(enc: Encoding, logs: map<nat, LogFile>) { forall n | n in logs :: Made(enc, logs[n]) }

  ghost predicate Real(enc: Encoding, s: State) {
    AllMade(enc, s.disk.logs) && (s.p.write.Appending? ==> s.p.write.bytes == |enc(s.p.write.batch)|)
  }

  /** A write is given as many bytes as its batch takes. */
  ghost predicate Sized(enc: Encoding, s: State, step: Step) {
    step.BeginAppend? ==> step.bytes == |enc(Batch(s.p.lastSequence + 1, step.ops))|
  }

  ghost predicate TouchesLogs(step: Step) {
    step.EndAppend? || step.SwitchMemtable? || step.Collect? || step.Crash? || step.BreakOff? || step.Restore?
  }

  ghost predicate Flushes(step: Step) {
    step.BeginFlush? || step.BuildTable? || step.FailFlush? || step.CommitFlush? || step.InstallFlush?
  }

  ghost predicate Merges(step: Step) {
    || step.BeginMerge? || step.OpenOutput? || step.WriteOutput? || step.FinishMerge? || step.FailMerge?
    || step.CommitMerge? || step.InstallMerge?
  }

  /** The logs and the record being appended are as before, unless the step begins a record. */
  ghost predicate LogsKept(s: State, step: Step, s': State) {
    && s'.disk.logs == s.disk.logs
    && (s'.p.write.Appending? ==>
         if step.BeginAppend? then s'.p.write.batch == Batch(s.p.lastSequence + 1, step.ops)
                                   && s'.p.write.bytes == step.bytes
         else s'.p.write == s.p.write)
  }

  lemma FlushesKeepLogs(s: State, step: Step)
    requires Enabled(s, step) && Flushes(step)
    ensures LogsKept(s, step, Next(s, step))
  {
    hide TableEntries, Live, EditNow;
  }

  lemma MergesKeepLogs(s: State, step: Step)
    requires Enabled(s, step) && Merges(step)
    ensures LogsKept(s, step, Next(s, step))
  {
    hide Compaction.GoodInputs, Compaction.Contents, TableEntries, Live, EditNow;
  }

  lemma OthersKeepLogs(s: State, step: Step)
    requires Enabled(s, step) && !TouchesLogs(step) && !Flushes(step) && !Merges(step)
    ensures LogsKept(s, step, Next(s, step))
  {
    hide TableEntries, Live, EndAfter, CutThrough, Collectable;
  }

  lemma QuietStepKeepsLogs(s: State, step: Step)
    requires Enabled(s, step) && !TouchesLogs(step)
    ensures LogsKept(s, step, Next(s, step))
  {
    hide Enabled, Next, LogsKept;
    if Flushes(step) {
      FlushesKeepLogs(s, step);
    } else if Merges(step) {
      MergesKeepLogs(s, step);
    } else {
      OthersKeepLogs(s, step);
    }
  }

  lemma LogTaken(enc: Encoding, logs: map<nat, LogFile>, n: nat, log: LogFile, gone: set<nat>)
    requires AllMade(enc, logs) && Made(enc, log)
    ensures AllMade(enc, logs[n := log]) && AllMade(enc, logs - gone)
  {
    hide Made;
  }

  lemma StepIsReal(enc: Encoding, s: State, step: Step)
    requires Real(enc, s) && Enabled(s, step) && Sized(enc, s, step)
    ensures Real(enc, Next(s, step))
  {
    if !TouchesLogs(step) {
      hide Enabled, Next, Made;
      QuietStepKeepsLogs(s, step);
    } else {
      LogStepIsReal(enc, s, step);
    }
  }

  lemma LogStepIsReal(enc: Encoding, s: State, step: Step)
    requires Real(enc, s) && Enabled(s, step) && TouchesLogs(step)
    ensures Real(enc, Next(s, step))
  {
    hide Made, EndAfter, Extended, Cut, CanRestore, Collectable, RecoveredSequence, AllMade, InFlight;
    MadeEmpty(enc);
    var logs := s.disk.logs;
    match step
    case EndAppend =>
      LogMade(enc, logs, s.p.logfile);
      MadeLonger(enc, logs[s.p.logfile], s.p.write.batch);
      LogTaken(enc, logs, s.p.logfile, Extended(logs[s.p.logfile], s.p.write.batch, s.p.write.bytes), {});
    case SwitchMemtable => LogTaken(enc, logs, s.p.nextFile, EmptyLog, {});
    case Collect(_, _, gone) => LogTaken(enc, logs, 0, EmptyLog, gone);
    case Crash(written) =>
      if s.p.write.Appending? && s.p.logfile in logs {
        LogMade(enc, logs, s.p.logfile);
        MadeLonger(enc, logs[s.p.logfile], s.p.write.batch);
        LogTaken(enc, logs, s.p.logfile, Cut(logs[s.p.logfile], s.p.write.bytes, written), {});
      }
    case BreakOff(_, log) =>
      if log.Some? {
        LogTaken(enc, logs, log.value, EmptyLog, {});
      }
    case Restore(_, _, newLog, _, _) => LogTaken(enc, logs, newLog, EmptyLog, {});
  }

  lemma LogMade(enc: Encoding, logs: map<nat, LogFile>, n: nat)
    requires AllMade(enc, logs) && n in logs
    ensures Made(enc, logs[n])
  {
  }

  lemma {:induction false} RunIsReal(enc: Encoding, states: seq<State>, steps: seq<Step>, k: nat)
    requires Run(states, steps) && k <= |steps| && forall i | 0 <= i < |steps| :: Sized(enc, states[i], steps[i])
    ensures Real(enc, states[k])
    decreases k
  {
    hide Real, Enabled, Next, Sized;
    if k == 0 {
      FirstIsReal(enc);
    } else {
      RunIsReal(enc, states, steps, k - 1);
      StepIsReal(enc, states[k - 1], steps[k - 1]);
    }
  }

  lemma FirstIsReal(enc: Encoding)
    ensures Real(enc, NewDatabase)
  {
  }

  /** In every run, whatever crashes cut short and restarts wrote on: each log of the engine is a file of
      bytes, put together from records and the beginnings of records, in which a reader finds the records
      of exactly the batches the engine expects to replay. */
  lemma LogsReadBack(crc: Checksum, enc: Encoding, states: seq<State>, steps: seq<Step>, k: nat, n: nat)
    returns (gs: seq<Given>)
    requires Run(states, steps) && k <= |steps| && forall i | 0 <= i < |steps| :: Sized(enc, states[i], steps[i])
    requires n in states[k].disk.logs
    ensures Possible(enc, gs) && After(enc, gs) == states[k].disk.logs[n]
    ensures ReadsBack(crc, enc, gs, states[k].disk.logs[n])
  {
    hide Possible, After, Found, LogReader.Log, Untaken, Bytes, Enabled, Next, Sized;
    RunIsReal(enc, states, steps, k);
    gs :| Possible(enc, gs) && After(enc, gs) == states[k].disk.logs[n];
    AfterIs(enc, gs);
    var ws := Attempts(enc, gs);
    if Untaken(Bytes(crc, 0, ws), crc, 0, ws) {
      HistoryReads(crc, ws);
    }
  }
}
