/** Group commit: writers queue up, and the one at the front logs and applies a batch for
    itself and as many of those behind it as its group may hold. */
module GroupCommit {
  import opened Wrappers
  import opened WriteBatch

  /** One call to Write. A call without operations only asks for room in the memtable; `bytes`
      is the encoded size of the batch. */
  datatype Writer = Writer(ops: Option<seq<Op>>, bytes: nat, sync: bool)

  function OpsOf(w: Writer): seq<Op> { if w.ops.Some? then w.ops.value else [] }

  /** The operations of the writers in [a, b), one after the other. */
  function OpsBetween(ws: seq<Writer>, a: nat, b: nat): seq<Op>
    requires b <= |ws|
  {
    if b <= a then [] else OpsBetween(ws, a, b - 1) + OpsOf(ws[b - 1])
  }

  /** Every operation of every writer is there, at the place its predecessors leave it. */
  lemma {:induction false} OperationAt(ws: seq<Writer>, a: nat, b: nat, i: nat, k: nat)
    requires a <= i < b <= |ws| && ws[i].ops.Some? && k < |ws[i].ops.value|
    ensures |OpsBetween(ws, a, i)| + k < |OpsBetween(ws, a, b)|
    ensures OpsBetween(ws, a, b)[|OpsBetween(ws, a, i)| + k] == ws[i].ops.value[k]
    decreases b
  {
    if i < b - 1 {
      OperationAt(ws, a, b - 1, i, k);
    }
  }

  // ---- Who joins a group ----

  const SmallWrite: nat := 128 * 1024
  const GroupLimit: nat := 1024 * 1024

  function MaxSize(first: Writer): nat {
    if first.bytes <= SmallWrite then first.bytes + SmallWrite else GroupLimit
  }

  function BytesBetween(ws: seq<Writer>, a: nat, b: nat): nat
    requires b <= |ws|
  {
    if b <= a then 0 else BytesBetween(ws, a, b - 1) + (if ws[b - 1].ops.Some? then ws[b - 1].bytes else 0)
  }

  /** Writer i may join a group led by writer h that holds all writers in between. */
  predicate MayJoin(ws: seq<Writer>, h: nat, i: nat)
    requires h < i < |ws|
  {
    && (ws[i].sync ==> ws[h].sync)
    && (ws[i].ops.Some? ==> BytesBetween(ws, h, i + 1) <= MaxSize(ws[h]))
  }

  /** The end of the group led by h that holds at least the writers below i: the first one from i
      on that may not join. */
  function GroupEnd(ws: seq<Writer>, h: nat, i: nat): (n: nat)
    requires h < i <= |ws|
    ensures i <= n <= |ws|
    ensures forall j | i <= j < n :: MayJoin(ws, h, j)
    ensures n < |ws| ==> !MayJoin(ws, h, n)
    decreases |ws| - i
  {
    if i < |ws| && MayJoin(ws, h, i) then GroupEnd(ws, h, i + 1) else i
  }

  /** The size of a stretch of writers is the sum of its parts' and, of one, its batch's. */
  lemma {:induction false} BytesAdd(ws: seq<Writer>, a: nat, m: nat, b: nat)
    requires a <= m <= b <= |ws|
    ensures BytesBetween(ws, a, b) == BytesBetween(ws, a, m) + BytesBetween(ws, m, b)
    ensures a < |ws| && ws[a].ops.Some? ==> BytesBetween(ws, a, a + 1) == ws[a].bytes
    decreases b
  {
    if m < b {
      BytesAdd(ws, a, m, b - 1);
    }
    if a < |ws| {
      assert BytesBetween(ws, a, a) == 0;
    }
  }

  /** The batch the front of the queue writes, and the last writer it covers. */
  method BuildBatchGroup(queue: seq<Writer>) returns (result: seq<Op>, last: nat)
    requires |queue| > 0 && queue[0].ops.Some?
    ensures last + 1 == GroupEnd(queue, 0, 1) && result == OpsBetween(queue, 0, last + 1)
    ensures forall i: nat | i <= last :: queue[i].sync ==> queue[0].sync
    ensures forall i: nat | 0 < i <= last && queue[i].ops.Some? ::
              BytesBetween(queue, 0, i + 1) <= if queue[0].bytes <= 131072 then queue[0].bytes + 131072 else 1048576
    ensures last + 1 < |queue| ==>
              || (queue[last + 1].sync && !queue[0].sync)
              || (queue[last + 1].ops.Some?
                  && BytesBetween(queue, 0, last + 1) + queue[last + 1].bytes
                     > if queue[0].bytes <= 131072 then queue[0].bytes + 131072 else 1048576)
  {
    var first := queue[0];
    result := first.ops.value;
    var size := first.bytes;
    var maxSize := GroupLimit;
    if size <= SmallWrite {
      maxSize := size + SmallWrite;
    }
    last := 0;
    assert OpsBetween(queue, 0, 1) == OpsBetween(queue, 0, 0) + OpsOf(first);
    while last + 1 < |queue|
      invariant last < |queue| && GroupEnd(queue, 0, 1) == GroupEnd(queue, 0, last + 1)
      invariant size == BytesBetween(queue, 0, last + 1) && result == OpsBetween(queue, 0, last + 1)
      invariant forall i: nat | 0 < i <= last && queue[i].ops.Some? :: BytesBetween(queue, 0, i + 1) <= maxSize
      invariant forall i: nat | i <= last :: queue[i].sync ==> first.sync
      decreases |queue| - last
    {
      var w := queue[last + 1];
      if w.sync && !first.sync {
        break;
      }
      if w.ops.Some? {
        size := size + w.bytes;
        if size > maxSize {
          break;
        }
        result := result + w.ops.value;
      }
      last := last + 1;
    }
  }

  // ---- The protocol ----

  datatype Stage = Waiting | Leading | Returned(ok: bool)

  /** Where a call stands. `result` is what its group came to. */
  datatype Client = Client(stage: Stage, signalled: bool, result: Option<bool>)

  /** A log record: the batch of the writers [first, first + count). */
  datatype Record = Record(batch: Batch, first: nat, count: nat, file: nat, synced: bool)

  datatype Phase =
    | Idle
    | MakingRoom
    | Appending(count: nat, batch: Batch)
    | Syncing(count: nat, batch: Batch)
    | Inserting(count: nat, batch: Batch)
    | Finishing(count: nat, last: nat, ok: bool, syncError: bool)

  /** Writers in the order of their calls; `queue` holds their numbers. `base` is the last sequence
      number at the start, and `failed` remembers that something went wrong. */
  datatype State = State(writers: seq<Writer>, clients: seq<Client>, queue: seq<nat>, phase: Phase,
                         log: seq<Record>, applied: seq<Batch>, lastSequence: nat, file: nat,
                         error: bool, base: nat, failed: bool)

  datatype Step =
    | Arrive(writer: Writer)
    | Wake(id: nat)
    | Room(ok: bool, newFile: bool)
    | Append(ok: bool)
    | Sync(ok: bool)
    | Insert
    | Finish

  ghost function Initial(base: nat): State { State([], [], [], Idle, [], [], base, 0, false, base, false) }

  ghost predicate Enabled(s: State, step: Step) {
    match step
    case Arrive(_) => true
    case Wake(id) => id < |s.clients| && s.clients[id].stage.Waiting?
    case Room(ok, _) => s.phase.MakingRoom? && (s.error ==> !ok)
    case Append(_) => s.phase.Appending?
    case Sync(_) => s.phase.Syncing?
    case Insert => s.phase.Inserting?
    case Finish => s.phase.Finishing?
  }

  ghost function Arrived(s: State, w: Writer): State {
    var leads := s.queue == [];
    s.(writers := s.writers + [w],
       clients := s.clients + [Client(if leads then Leading else Waiting, false, None)],
       queue := s.queue + [|s.clients|],
       phase := if leads then MakingRoom else s.phase)
  }

  /** A wake-up may be for nothing: the waiter looks again at whether it is done or in front. */
  ghost function Woken(s: State, id: nat): State
    requires Enabled(s, Wake(id))
  {
    var c := s.clients[id];
    if c.result.Some? then s.(clients := s.clients[id := Client(Returned(c.result.value), false, c.result)])
    else if s.queue != [] && s.queue[0] == id then
      s.(clients := s.clients[id := Client(Leading, false, None)], phase := MakingRoom)
    else s.(clients := s.clients[id := Client(Waiting, false, None)])
  }

  /** Room was made, perhaps with a new log file, or could not be. */
  ghost function RoomMade(s: State, ok: bool, newFile: bool): State
    requires Shape(s) && s.phase.MakingRoom?
  {
    var h := Head(s);
    if !ok then s.(phase := Finishing(1, s.lastSequence, false, false), failed := true)
    else
      var t := if newFile then s.(file := s.file + 1) else s;
      if s.writers[h].ops.None? then t.(phase := Finishing(1, s.lastSequence, true, false))
      else
        var end := GroupEnd(s.writers, h, h + 1);
        t.(phase := Appending(end - h, Batch(s.lastSequence + 1, OpsBetween(s.writers, h, end))))
  }

  ghost function Appended(s: State, ok: bool): State
    requires Shape(s) && s.phase.Appending?
  {
    var n, b := s.phase.count, s.phase.batch;
    if !ok then s.(phase := Finishing(n, s.lastSequence + |b.ops|, false, false), failed := true)
    else
      s.(log := s.log + [Record(b, Head(s), n, s.file, false)],
         phase := if s.writers[Head(s)].sync then Syncing(n, b) else Inserting(n, b))
  }

  ghost function MarkSynced(log: seq<Record>, file: nat): seq<Record> {
    seq(|log|, i requires 0 <= i < |log| => if log[i].file == file then log[i].(synced := true) else log[i])
  }

  /** The log file reaches the disk, or is in an unknown state. */
  ghost function Synced(s: State, ok: bool): State
    requires s.phase.Syncing?
  {
    var n, b := s.phase.count, s.phase.batch;
    if ok then s.(log := MarkSynced(s.log, s.file), phase := Inserting(n, b))
    else s.(phase := Finishing(n, s.lastSequence + |b.ops|, false, true), failed := true)
  }

  ghost function Inserted(s: State): State
    requires s.phase.Inserting?
  {
    s.(applied := s.applied + [s.phase.batch],
       phase := Finishing(s.phase.count, s.lastSequence + |s.phase.batch.ops|, true, false))
  }

  /** The leader returns, its group is told, and the next in the queue is signalled. */
  ghost function ClientAfter(s: State, i: nat): Client
    requires Shape(s) && s.phase.Finishing? && i < |s.clients|
  {
    var h, c := Head(s), s.clients[i];
    if i == h then Client(Returned(s.phase.ok), false, Some(s.phase.ok))
    else if h < i < h + s.phase.count then Client(Waiting, true, Some(s.phase.ok))
    else if i == h + s.phase.count then c.(signalled := true)
    else c
  }

  ghost function Finished(s: State): State
    requires Shape(s) && s.phase.Finishing? && s.phase.count <= |s.queue|
  {
    s.(clients := seq(|s.clients|, i requires 0 <= i < |s.clients| => ClientAfter(s, i)),
       queue := s.queue[s.phase.count..], phase := Idle,
       lastSequence := s.phase.last, error := s.error || s.phase.syncError)
  }

  ghost function Next(s: State, step: Step): State
    requires Inv(s) && Enabled(s, step)
  {
    match step
    case Arrive(w) => Arrived(s, w)
    case Wake(id) => Woken(s, id)
    case Room(ok, newFile) => RoomMade(s, ok, newFile)
    case Append(ok) => Appended(s, ok)
    case Sync(ok) => Synced(s, ok)
    case Insert => Inserted(s)
    case Finish => Finished(s)
  }

  // ---- What every step keeps ----

  /** The number of writers that have left the queue. */
  ghost function Head(s: State): int { |s.clients| - |s.queue| }

  ghost predicate ClientOk(s: State, i: nat)
    requires i < |s.clients|
  {
    var c := s.clients[i];
    if i < Head(s) then
      c.result.Some? && !c.stage.Leading? && (c.stage.Waiting? ==> c.signalled)
          && (c.stage.Returned? ==> c.stage.ok == c.result.value)
    else
      c.result.None? && c.stage == (if i == Head(s) && !s.phase.Idle? then Leading else Waiting)
  }

  ghost predicate Shape(s: State) {
    |s.writers| == |s.clients| && |s.queue| <= |s.clients| && (!s.phase.Idle? ==> s.queue != [])
  }

  /** The queue is the calls not yet answered, in the order they came; its front is leading or has
      been signalled, and whoever left it has its answer and, if still asleep, a signal. */
  ghost predicate QueueInv(s: State) {
    && Shape(s)
    && (forall i: nat | i < |s.queue| :: s.queue[i] == Head(s) + i)
    && (s.phase.Idle? && s.queue != [] ==> s.clients[Head(s)].signalled)
    && (forall i: nat | i < |s.clients| :: ClientOk(s, i))
  }

  ghost predicate InRecord(r: Record, i: nat) { r.first <= i < r.first + r.count }

  /** A record holds its writers' operations and nothing else. */
  ghost predicate RecordOk(writers: seq<Writer>, r: Record) {
    r.first + r.count <= |writers| && r.batch.ops == OpsBetween(writers, r.first, r.first + r.count)
  }

  /** Where the writers and the sequence numbers of the next record begin. */
  ghost function NextWriter(log: seq<Record>): nat {
    if |log| == 0 then 0 else log[|log| - 1].first + log[|log| - 1].count
  }

  ghost function NextSequence(log: seq<Record>): nat {
    if |log| == 0 then 0 else log[|log| - 1].batch.start + |log[|log| - 1].batch.ops|
  }

  /** Records hold disjoint, ascending ranges of writers and of sequence numbers. */
  ghost predicate LogOrdered(log: seq<Record>) {
    forall i: nat, j: nat | i < j < |log| ::
      && log[i].first + log[i].count <= log[j].first
      && log[i].batch.start + |log[i].batch.ops| <= log[j].batch.start
  }

  /** The group in the works. */
  ghost predicate GroupOk(s: State, count: nat, batch: Batch)
    requires Shape(s)
  {
    var h := Head(s);
    && 0 < count <= |s.queue| && s.writers[h].ops.Some?
    && batch == Batch(s.lastSequence + 1, OpsBetween(s.writers, h, h + count))
    && forall i | h <= i < h + count && s.writers[i].sync :: s.writers[h].sync
  }

  /** The record of the group in the works is the last one. */
  ghost predicate LoggedNow(s: State, count: nat, batch: Batch)
    requires Shape(s)
  {
    && |s.log| > 0
    && s.log[|s.log| - 1].first == Head(s) && s.log[|s.log| - 1].count == count && s.log[|s.log| - 1].batch == batch
    && s.log[|s.log| - 1].file == s.file
  }

  ghost predicate Behind(s: State, log: seq<Record>) {
    NextWriter(log) <= Head(s) && NextSequence(log) <= s.lastSequence + 1
  }

  ghost predicate PhaseInv(s: State)
    requires Shape(s)
  {
    match s.phase
    case Idle => Behind(s, s.log)
    case MakingRoom => Behind(s, s.log)
    case Appending(n, b) => GroupOk(s, n, b) && Behind(s, s.log)
    case Syncing(n, b) => GroupOk(s, n, b) && LoggedNow(s, n, b)
    case Inserting(n, b) =>
      GroupOk(s, n, b) && LoggedNow(s, n, b) && (s.writers[Head(s)].sync ==> s.log[|s.log| - 1].synced)
    case Finishing(n, last, ok, _) =>
      && 0 < n <= |s.queue| && last >= s.lastSequence
      && NextWriter(s.log) <= Head(s) + n && NextSequence(s.log) <= last + 1
      && (ok ==> if s.writers[Head(s)].ops.Some? then AnsweredBy(s, Head(s), n) else n == 1)
  }

  /** The group's record is there, applied, and on disk for those who asked. */
  ghost predicate AnsweredBy(s: State, h: nat, n: nat)
    requires h + n <= |s.writers|
  {
    forall i | h <= i < h + n && s.writers[i].ops.Some? :: Answered(s, i)
  }

  /** A writer's batch is in the log, on disk if it asked for that, and in the memtable. */
  ghost predicate Answered(s: State, i: nat)
    requires i < |s.writers|
  {
    exists k: nat :: AnswersAt(s, i, k)
  }

  ghost predicate AnswersAt(s: State, i: nat, k: nat)
    requires i < |s.writers|
  {
    && k < |s.log| && InRecord(s.log[k], i) && s.log[k].batch in s.applied
    && (s.writers[i].sync ==> s.log[k].synced)
  }

  ghost predicate ResultInv(s: State)
    requires Shape(s)
  {
    forall i: nat | i < Head(s) && s.clients[i].result == Some(true) && s.writers[i].ops.Some? :: Answered(s, i)
  }

  ghost predicate LogInv(writers: seq<Writer>, log: seq<Record>) {
    LogOrdered(log) && forall i: nat | i < |log| :: RecordOk(writers, log[i])
  }

  ghost predicate Inv(s: State) {
    QueueInv(s) && PhaseInv(s) && LogInv(s.writers, s.log) && ResultInv(s)
  }

  // ---- Step by step ----

  /** No step rewrites what is logged, applied or asked for. */
  ghost predicate Grows(s: State, t: State) {
    && s.writers <= t.writers && s.applied <= t.applied && |s.log| <= |t.log|
    && forall k: nat | k < |s.log| :: t.log[k] == s.log[k] || t.log[k] == s.log[k].(synced := true)
  }

  /** Once a writer is answered, it stays so: the log and the memtable only grow. */
  lemma AnsweredGrows(s: State, t: State, i: nat)
    requires i < |s.writers| && Grows(s, t) && Answered(s, i)
    ensures Answered(t, i)
  {
    var k: nat :| AnswersAt(s, i, k);
    assert AnswersAt(t, i, k);
  }

  /** Later calls change nothing about earlier ones. */
  lemma {:induction false} OpsKept(ws: seq<Writer>, ws': seq<Writer>, a: nat, b: nat)
    requires ws <= ws' && b <= |ws|
    ensures OpsBetween(ws', a, b) == OpsBetween(ws, a, b)
    decreases b
  {
    if a < b {
      OpsKept(ws, ws', a, b - 1);
    }
  }

  lemma LogFrame(writers: seq<Writer>, log: seq<Record>, writers': seq<Writer>, log': seq<Record>)
    requires LogInv(writers, log) && writers <= writers' && |log'| == |log|
    requires forall k: nat | k < |log| :: log'[k] == log[k] || log'[k] == log[k].(synced := true)
    ensures LogInv(writers', log')
  {
    forall i: nat | i < |log'| ensures RecordOk(writers', log'[i]) {
      var r := log[i];
      assert RecordOk(writers, r);
      OpsKept(writers, writers', r.first, r.first + r.count);
    }
    forall i: nat, j: nat | i < j < |log'|
      ensures log'[i].first + log'[i].count <= log'[j].first
      ensures log'[i].batch.start + |log'[i].batch.ops| <= log'[j].batch.start
    {
      assert log[i].first + log[i].count <= log[j].first;
    }
  }

  lemma ResultFrame(s: State, t: State)
    requires QueueInv(s) && ResultInv(s) && QueueInv(t) && Grows(s, t)
    requires forall i: nat | i < Head(t) && t.clients[i].result == Some(true) && t.writers[i].ops.Some? ::
               (i < Head(s) && s.clients[i].result == Some(true)) || Answered(t, i)
    ensures ResultInv(t)
  {
    forall i: nat | i < Head(t) && t.clients[i].result == Some(true) && t.writers[i].ops.Some? ensures Answered(t, i) {
      if i < Head(s) && s.clients[i].result == Some(true) {
        AnsweredGrows(s, t, i);
      }
    }
  }

  lemma QueueArrive(s: State, w: Writer)
    requires QueueInv(s)
    ensures QueueInv(Arrived(s, w)) && Head(Arrived(s, w)) == Head(s)
  {
    var t := Arrived(s, w);
    forall i: nat | i < |t.clients| ensures ClientOk(t, i) {
      if i < |s.clients| {
        assert ClientOk(s, i);
      }
    }
  }

  lemma KeepsArrive(s: State, w: Writer)
    requires Inv(s)
    ensures Inv(Arrived(s, w))
  {
    var t := Arrived(s, w);
    QueueArrive(s, w);
    LogFrame(s.writers, s.log, t.writers, t.log);
    ResultFrame(s, t);
    PhaseArrive(s, w);
  }

  lemma PhaseArrive(s: State, w: Writer)
    requires QueueInv(s) && PhaseInv(s) && QueueInv(Arrived(s, w))
    ensures PhaseInv(Arrived(s, w))
  {
    if !s.phase.Idle? {
      PhaseFrame(s, Arrived(s, w));
    }
  }

  /** The work in progress does not depend on who else calls. */
  lemma PhaseFrame(s: State, t: State)
    requires QueueInv(s) && PhaseInv(s) && QueueInv(t) && Head(t) == Head(s) && |s.queue| <= |t.queue|
    requires s.writers <= t.writers && t.log == s.log && t.applied == s.applied
    requires t.phase == s.phase && t.lastSequence == s.lastSequence && t.file == s.file
    ensures PhaseInv(t)
  {
    if s.phase.Appending? || s.phase.Syncing? || s.phase.Inserting? {
      OpsKept(s.writers, t.writers, Head(s), Head(s) + s.phase.count);
    } else if s.phase.Finishing? && s.phase.ok && s.writers[Head(s)].ops.Some? {
      AnsweredFrame(s, t, Head(s), s.phase.count);
    }
  }

  lemma AnsweredFrame(s: State, t: State, h: nat, n: nat)
    requires Grows(s, t) && h + n <= |s.writers| && AnsweredBy(s, h, n)
    ensures AnsweredBy(t, h, n)
  {
    forall i | h <= i < h + n && t.writers[i].ops.Some? ensures Answered(t, i) {
      AnsweredGrows(s, t, i);
    }
  }

  lemma QueueWake(s: State, id: nat)
    requires QueueInv(s) && Enabled(s, Wake(id))
    ensures QueueInv(Woken(s, id)) && Head(Woken(s, id)) == Head(s)
    ensures !s.phase.Idle? ==> Woken(s, id).phase == s.phase
  {
    var t := Woken(s, id);
    assert ClientOk(s, id);
    forall i: nat | i < |t.clients| ensures ClientOk(t, i) {
      assert ClientOk(s, i);
    }
  }

  lemma KeepsWake(s: State, id: nat)
    requires Inv(s) && Enabled(s, Wake(id))
    ensures Inv(Woken(s, id))
  {
    var t := Woken(s, id);
    QueueWake(s, id);
    PhaseWake(s, id);
    ResultWake(s, id);
  }

  lemma PhaseWake(s: State, id: nat)
    requires QueueInv(s) && PhaseInv(s) && Enabled(s, Wake(id)) && QueueInv(Woken(s, id))
    ensures PhaseInv(Woken(s, id))
  {
    QueueWake(s, id);
    if !s.phase.Idle? {
      PhaseFrame(s, Woken(s, id));
    }
  }

  lemma ResultWake(s: State, id: nat)
    requires QueueInv(s) && ResultInv(s) && Enabled(s, Wake(id)) && QueueInv(Woken(s, id))
    ensures ResultInv(Woken(s, id))
  {
    var t := Woken(s, id);
    QueueWake(s, id);
    assert ClientOk(s, id);
    ResultFrame(s, t);
  }

  /** Steps of the leader alone leave the queue and the answers as they are. */
  lemma SameQueue(s: State, t: State)
    requires QueueInv(s) && !s.phase.Idle? && !t.phase.Idle?
    requires t.writers == s.writers && t.clients == s.clients && t.queue == s.queue
    ensures QueueInv(t)
  {
    forall i: nat | i < |t.clients| ensures ClientOk(t, i) {
      assert ClientOk(s, i);
    }
  }

  lemma KeepsRoom(s: State, ok: bool, newFile: bool)
    requires Inv(s) && Enabled(s, Room(ok, newFile))
    ensures Inv(RoomMade(s, ok, newFile))
  {
    var t := RoomMade(s, ok, newFile);
    SameQueue(s, t);
    ResultFrame(s, t);
    PhaseRoom(s, ok, newFile);
  }

  lemma PhaseRoom(s: State, ok: bool, newFile: bool)
    requires QueueInv(s) && PhaseInv(s) && Enabled(s, Room(ok, newFile)) && QueueInv(RoomMade(s, ok, newFile))
    ensures PhaseInv(RoomMade(s, ok, newFile))
  {
    var h := Head(s);
    if ok && s.writers[h].ops.Some? {
      forall i | h <= i < GroupEnd(s.writers, h, h + 1) && s.writers[i].sync ensures s.writers[h].sync {
        assert i > h ==> MayJoin(s.writers, h, i);
      }
    }
  }

  lemma KeepsAppend(s: State, ok: bool)
    requires Inv(s) && Enabled(s, Append(ok))
    ensures Inv(Appended(s, ok))
  {
    var t := Appended(s, ok);
    SameQueue(s, t);
    ResultFrame(s, t);
    if ok {
      LogGrows(s.writers, s.log, t.log[|s.log|]);
    }
  }

  lemma LogGrows(writers: seq<Writer>, log: seq<Record>, r: Record)
    requires LogInv(writers, log) && RecordOk(writers, r)
    requires NextWriter(log) <= r.first && NextSequence(log) <= r.batch.start
    ensures LogInv(writers, log + [r])
  {
    var log' := log + [r];
    forall i: nat, j: nat | i < j < |log'|
      ensures log'[i].first + log'[i].count <= log'[j].first
      ensures log'[i].batch.start + |log'[i].batch.ops| <= log'[j].batch.start
    {
      if j == |log| && i < |log| - 1 {
        assert log[i].first + log[i].count <= log[|log| - 1].first;
      }
    }
  }

  lemma KeepsSync(s: State, ok: bool)
    requires Inv(s) && Enabled(s, Sync(ok))
    ensures Inv(Synced(s, ok))
  {
    var t := Synced(s, ok);
    SameQueue(s, t);
    LogFrame(s.writers, s.log, t.writers, t.log);
    ResultFrame(s, t);
    PhaseSync(s, ok);
  }

  lemma PhaseSync(s: State, ok: bool)
    requires QueueInv(s) && PhaseInv(s) && Enabled(s, Sync(ok)) && QueueInv(Synced(s, ok))
    ensures PhaseInv(Synced(s, ok))
  {
  }

  lemma KeepsInsert(s: State)
    requires Inv(s) && Enabled(s, Insert)
    ensures Inv(Inserted(s))
  {
    var t := Inserted(s);
    SameQueue(s, t);
    ResultFrame(s, t);
    PhaseInsert(s);
  }

  lemma PhaseInsert(s: State)
    requires QueueInv(s) && PhaseInv(s) && Enabled(s, Insert) && QueueInv(Inserted(s))
    ensures PhaseInv(Inserted(s))
  {
    LeaderAnswers(s);
  }

  lemma LeaderAnswers(s: State)
    requires QueueInv(s) && PhaseInv(s) && s.phase.Inserting?
    ensures AnsweredBy(Inserted(s), Head(s), s.phase.count)
  {
    var t, k := Inserted(s), |s.log| - 1;
    forall i | Head(s) <= i < Head(s) + s.phase.count && t.writers[i].ops.Some? ensures Answered(t, i) {
      assert t.applied[|s.applied|] == s.phase.batch;
      assert AnswersAt(t, i, k);
    }
  }

  lemma QueueFinish(s: State)
    requires QueueInv(s) && s.phase.Finishing? && 0 < s.phase.count <= |s.queue|
    ensures QueueInv(Finished(s)) && Head(Finished(s)) == Head(s) + s.phase.count
  {
    var t := Finished(s);
    forall i: nat | i < |t.clients| ensures ClientOk(t, i) {
      assert ClientOk(s, i);
    }
  }

  lemma KeepsFinish(s: State)
    requires Inv(s) && Enabled(s, Finish)
    ensures Inv(Finished(s))
  {
    var t := Finished(s);
    QueueFinish(s);
    forall i: nat | i < Head(t) && t.clients[i].result == Some(true) && t.writers[i].ops.Some?
      ensures (i < Head(s) && s.clients[i].result == Some(true)) || Answered(t, i)
    {
      if i >= Head(s) {
        assert Answered(s, i);
        AnsweredGrows(s, t, i);
      }
    }
    ResultFrame(s, t);
  }

  lemma InvStep(s: State, step: Step)
    requires Inv(s) && Enabled(s, step)
    ensures Inv(Next(s, step))
  {
    match step
    case Arrive(w) => KeepsArrive(s, w);
    case Wake(id) => KeepsWake(s, id);
    case Room(ok, newFile) => KeepsRoom(s, ok, newFile);
    case Append(ok) => KeepsAppend(s, ok);
    case Sync(ok) => KeepsSync(s, ok);
    case Insert => KeepsInsert(s);
    case Finish => KeepsFinish(s);
  }

  // ---- Runs without a failure ----

  /** The operations of the first n records, one after the other. */
  ghost function LogOps(log: seq<Record>, n: nat): seq<Op>
    requires n <= |log|
  {
    if n == 0 then [] else LogOps(log, n - 1) + log[n - 1].batch.ops
  }

  /** Each of the first n records begins right after the one before it. */
  ghost predicate Numbered(log: seq<Record>, n: nat, base: nat)
    requires n <= |log|
  {
    n > 0 ==> Numbered(log, n - 1, base) && log[n - 1].batch.start == base + 1 + |LogOps(log, n - 1)|
  }

  /** Any operation of any record is the one with that number. */
  lemma {:induction false} NumberedAt(log: seq<Record>, n: nat, base: nat, k: nat, i: nat)
    requires n <= |log| && Numbered(log, n, base) && k < n && i < |log[k].batch.ops|
    ensures base + 1 <= log[k].batch.start + i < base + 1 + |LogOps(log, n)|
    ensures LogOps(log, n)[log[k].batch.start + i - base - 1] == log[k].batch.ops[i]
    decreases n
  {
    if k < n - 1 {
      NumberedAt(log, n - 1, base, k, i);
    }
  }

  lemma {:induction false} SameBatches(log: seq<Record>, log': seq<Record>, n: nat, base: nat)
    requires n <= |log| && n <= |log'| && forall k: nat | k < n :: log'[k].batch == log[k].batch
    ensures LogOps(log', n) == LogOps(log, n) && (Numbered(log, n, base) ==> Numbered(log', n, base))
    decreases n
  {
    if n > 0 {
      SameBatches(log, log', n - 1, base);
    }
  }

  /** The operations of the first n calls. */
  ghost function OpsUpTo(writers: seq<Writer>, n: int): seq<Op> {
    if 0 <= n <= |writers| then OpsBetween(writers, 0, n) else []
  }

  lemma {:induction false} OpsCut(ws: seq<Writer>, h: nat, m: nat)
    requires h <= m <= |ws|
    ensures OpsUpTo(ws, m) == OpsUpTo(ws, h) + OpsBetween(ws, h, m)
  {
    if h < m {
      OpsCut(ws, h, m - 1);
    }
  }

  /** The number of writers whose operations the log holds: all that left the queue, and the group
      at work once its record is there. */
  ghost function LoggedTo(s: State): int {
    if s.phase.Syncing? || s.phase.Inserting? || s.phase.Finishing? then Head(s) + s.phase.count else Head(s)
  }

  /** Records written and not yet in the memtable. */
  ghost function Pending(s: State): nat {
    if s.phase.Syncing? || s.phase.Inserting? then 1 else 0
  }

  ghost predicate AllSucceeded(clients: seq<Client>, head: int) {
    forall i: nat | i < head && i < |clients| :: clients[i].result == Some(true)
  }

  /** The memtable got the first records, in order. */
  ghost predicate AppliedInOrder(applied: seq<Batch>, log: seq<Record>, pending: nat) {
    |applied| + pending == |log| && forall k: nat | k < |applied| :: applied[k] == log[k].batch
  }

  ghost predicate Clean(s: State) {
    && (s.phase.Finishing? ==> s.phase.ok && s.phase.last == s.base + |OpsUpTo(s.writers, LoggedTo(s))|)
    && s.lastSequence == s.base + |OpsUpTo(s.writers, Head(s))|
    && LogOps(s.log, |s.log|) == OpsUpTo(s.writers, LoggedTo(s))
    && Numbered(s.log, |s.log|, s.base)
    && AppliedInOrder(s.applied, s.log, Pending(s))
    && AllSucceeded(s.clients, Head(s))
  }

  lemma CleanStep(s: State, step: Step)
    requires Inv(s) && Enabled(s, step) && Clean(s) && !Next(s, step).failed
    ensures Clean(Next(s, step))
  {
    if step.Arrive? {
      CleanArrive(s, step.writer);
    } else if step.Wake? {
      CleanWake(s, step.id);
    } else {
      CleanLeaderStep(s, step);
    }
  }

  lemma CleanLeaderStep(s: State, step: Step)
    requires Inv(s) && Enabled(s, step) && Clean(s) && !Next(s, step).failed
    requires !step.Arrive? && !step.Wake?
    ensures Clean(Next(s, step))
  {
    hide Clean, OpsUpTo, OpsBetween, LogOps, Numbered, AppliedInOrder, AllSucceeded, ClientOk;
    if step.Room? {
      CleanRoom(s, step.newFile);
    } else if step.Append? {
      assert GroupOk(s, s.phase.count, s.phase.batch);
      CleanAppend(s);
    } else if step.Sync? {
      CleanSync(s);
    } else if step.Insert? {
      CleanInsert(s);
    } else {
      CleanFinish(s);
    }
  }

  lemma CleanSync(s: State)
    requires s.phase.Syncing? && Clean(s)
    ensures Clean(Synced(s, true))
  {
    SameBatches(s.log, MarkSynced(s.log, s.file), |s.log|, s.base);
  }

  lemma CleanFinish(s: State)
    requires Shape(s) && s.phase.Finishing? && 0 < s.phase.count <= |s.queue| && Clean(s)
    ensures Clean(Finished(s))
  {
  }

  lemma CleanArrive(s: State, w: Writer)
    requires Shape(s) && LoggedTo(s) <= |s.writers| && Clean(s)
    ensures Clean(Arrived(s, w))
  {
    OpsKept(s.writers, s.writers + [w], 0, Head(s));
    OpsKept(s.writers, s.writers + [w], 0, LoggedTo(s));
    var t := Arrived(s, w);
    assert LoggedTo(t) == LoggedTo(s) && Head(t) == Head(s) && Pending(t) == Pending(s) && t.log == s.log;
    assert LogOps(t.log, |t.log|) == OpsUpTo(t.writers, LoggedTo(t));
  }

  lemma CleanWake(s: State, id: nat)
    requires QueueInv(s) && Enabled(s, Wake(id)) && Clean(s)
    ensures Clean(Woken(s, id))
  {
    hide LogOps, Numbered, OpsUpTo, OpsBetween, AppliedInOrder;
    assert ClientOk(s, id);
    QueueWake(s, id);
  }

  lemma CleanRoom(s: State, newFile: bool)
    requires Shape(s) && s.phase.MakingRoom? && Clean(s)
    ensures Clean(RoomMade(s, true, newFile))
  {
    hide LogOps, Numbered, OpsUpTo, OpsBetween, AppliedInOrder, AllSucceeded;
    if s.writers[Head(s)].ops.None? {
      NothingAsked(s.writers, Head(s));
    }
  }

  lemma NothingAsked(ws: seq<Writer>, h: nat)
    requires h < |ws| && ws[h].ops.None?
    ensures OpsUpTo(ws, h + 1) == OpsUpTo(ws, h)
  {
    assert OpsBetween(ws, 0, h + 1) == OpsBetween(ws, 0, h) + OpsOf(ws[h]);
  }

  lemma CleanAppend(s: State)
    requires Shape(s) && s.phase.Appending? && Head(s) + s.phase.count <= |s.writers| && Clean(s)
    requires s.phase.batch == Batch(s.lastSequence + 1, OpsBetween(s.writers, Head(s), Head(s) + s.phase.count))
    ensures Clean(Appended(s, true))
  {
    hide LogOps, Numbered, OpsUpTo, OpsBetween, AppliedInOrder, AllSucceeded;
    var r := Record(s.phase.batch, Head(s), s.phase.count, s.file, false);
    var t := Appended(s, true);
    RecordAdds(s.writers, s.log, r, t.log, LoggedTo(t), s.base);
    AppliedBefore(s.applied, s.log, t.log);
  }

  lemma AppliedBefore(applied: seq<Batch>, log: seq<Record>, log': seq<Record>)
    requires AppliedInOrder(applied, log, 0) && log <= log' && |log'| == |log| + 1
    ensures AppliedInOrder(applied, log', 1)
  {
  }

  lemma RecordAdds(ws: seq<Writer>, log: seq<Record>, r: Record, log': seq<Record>, to: nat, base: nat)
    requires log' == log + [r] && to == r.first + r.count
    requires to <= |ws| && r.batch.ops == OpsBetween(ws, r.first, to)
    requires LogOps(log, |log|) == OpsUpTo(ws, r.first) && Numbered(log, |log|, base)
    requires r.batch.start == base + 1 + |OpsUpTo(ws, r.first)|
    ensures LogOps(log', |log'|) == OpsUpTo(ws, to) && Numbered(log', |log'|, base)
  {
    OpsCut(ws, r.first, to);
    LogMore(log, r, base);
  }

  lemma LogMore(log: seq<Record>, r: Record, base: nat)
    requires Numbered(log, |log|, base) && r.batch.start == base + 1 + |LogOps(log, |log|)|
    ensures Numbered(log + [r], |log| + 1, base)
    ensures LogOps(log + [r], |log| + 1) == LogOps(log, |log|) + r.batch.ops
  {
    SameBatches(log, log + [r], |log|, base);
  }

  lemma CleanInsert(s: State)
    requires Shape(s) && s.phase.Inserting? && GroupOk(s, s.phase.count, s.phase.batch)
    requires LoggedNow(s, s.phase.count, s.phase.batch) && Clean(s)
    ensures Clean(Inserted(s))
  {
    hide LogOps, Numbered, OpsBetween, AllSucceeded;
    OpsCut(s.writers, Head(s), LoggedTo(s));
  }

  // ---- Whole runs ----

  /** From s, these steps can be taken one after the other and end in t. */
  ghost predicate Run(s: State, steps: seq<Step>, t: State)
    requires Inv(s)
    decreases |steps|
  {
    if |steps| == 0 then s == t
    else Enabled(s, steps[0]) && (InvStep(s, steps[0]); Run(Next(s, steps[0]), steps[1..], t))
  }

  lemma InitialInv(base: nat)
    ensures Inv(Initial(base)) && Clean(Initial(base))
  {
  }

  lemma {:induction false} RunInv(s: State, steps: seq<Step>, t: State)
    requires Inv(s) && Run(s, steps, t)
    ensures Inv(t) && (s.failed ==> t.failed) && t.base == s.base
    decreases |steps|
  {
    if |steps| > 0 {
      InvStep(s, steps[0]);
      StepKeepsBase(s, steps[0]);
      RunInv(Next(s, steps[0]), steps[1..], t);
    }
  }

  lemma StepKeepsBase(s: State, step: Step)
    requires Inv(s) && Enabled(s, step)
    ensures Next(s, step).base == s.base && (s.failed ==> Next(s, step).failed)
  {
  }

  lemma {:induction false} CleanRun(s: State, steps: seq<Step>, t: State)
    requires Inv(s) && Run(s, steps, t) && Clean(s) && !t.failed
    ensures Clean(t)
    decreases |steps|
  {
    if |steps| > 0 {
      InvStep(s, steps[0]);
      RunInv(Next(s, steps[0]), steps[1..], t);
      CleanStep(s, steps[0]);
      CleanRun(Next(s, steps[0]), steps[1..], t);
    }
  }

  /** In a run without a failure the log holds the operations of every call served, each once, in
      the order of the calls and numbered without gaps, and nothing else; the memtable has got the
      same batches in the same order, but for one that is on its way. */
  lemma OnceInOrder(base: nat, steps: seq<Step>, t: State)
    requires Run(Initial(base), steps, t) && !t.failed
    ensures 0 <= Head(t) <= LoggedTo(t) <= |t.writers|
    ensures LogOps(t.log, |t.log|) == OpsUpTo(t.writers, LoggedTo(t)) && Numbered(t.log, |t.log|, base)
    ensures AppliedInOrder(t.applied, t.log, Pending(t))
    ensures forall i: nat | i < |t.clients| && t.clients[i].stage.Returned? :: i < Head(t) && t.clients[i].stage.ok
  {
    InitialInv(base);
    RunInv(Initial(base), steps, t);
    CleanRun(Initial(base), steps, t);
    forall i: nat | i < |t.clients| && t.clients[i].stage.Returned? ensures i < Head(t) && t.clients[i].stage.ok {
      assert ClientOk(t, i);
    }
  }

  /** Whatever else failed: a write that returned success is in exactly one log record, together
      with its group and in full; that record was applied, and if the write asked for it, synced. */
  lemma SuccessIsLogged(base: nat, steps: seq<Step>, t: State, i: nat)
    requires Run(Initial(base), steps, t)
    requires i < |t.clients| && i < |t.writers| && t.clients[i].stage == Returned(true) && t.writers[i].ops.Some?
    ensures exists k: nat :: k < |t.log| && InRecord(t.log[k], i) && RecordOk(t.writers, t.log[k])
                             && t.log[k].batch in t.applied && (t.writers[i].sync ==> t.log[k].synced)
    ensures forall j: nat, k: nat | j < |t.log| && k < |t.log| && InRecord(t.log[j], i) && InRecord(t.log[k], i) ::
              j == k
    ensures LogOrdered(t.log)
  {
    RunInv(Initial(base), steps, t);
    assert ClientOk(t, i);
    var k: nat :| AnswersAt(t, i, k);
    assert InRecord(t.log[k], i) && RecordOk(t.writers, t.log[k]);
  }

  /** A sync has failed, and what is in the log file is not known. */
  ghost predicate Doomed(s: State, h: int)
    requires Inv(s)
  {
    && Head(s) >= h
    && (if s.phase.Finishing? then !s.phase.ok && (s.error || s.phase.syncError)
        else s.error && (s.phase.Idle? || s.phase.MakingRoom?))
    && forall i: nat | h <= i < Head(s) && i < |s.clients| :: s.clients[i].result == Some(false)
  }

  lemma DoomedStep(s: State, step: Step, h: int)
    requires Inv(s) && Enabled(s, step) && Doomed(s, h) && Inv(Next(s, step))
    ensures Doomed(Next(s, step), h) && Next(s, step).log == s.log && Next(s, step).applied == s.applied
  {
    var t := Next(s, step);
    if step.Wake? {
      assert ClientOk(s, step.id);
      QueueWake(s, step.id);
      DoomedWake(s, step.id, h);
    } else if step.Finish? {
      QueueFinish(s);
      DoomedFinish(s, h);
    }
  }

  lemma DoomedWake(s: State, id: nat, h: int)
    requires Inv(s) && Enabled(s, Wake(id)) && Doomed(s, h) && Inv(Woken(s, id)) && ClientOk(s, id)
    ensures Doomed(Woken(s, id), h)
  {
    hide PhaseInv, LogInv, ResultInv;
  }

  lemma DoomedFinish(s: State, h: int)
    requires Inv(s) && Enabled(s, Finish) && Doomed(s, h) && Inv(Finished(s))
    ensures Doomed(Finished(s), h)
  {
    var t := Finished(s);
    forall i: nat | h <= i < Head(t) && i < |t.clients| ensures t.clients[i].result == Some(false) {
      assert t.clients[i] == ClientAfter(s, i);
    }
  }

  lemma {:induction false} DoomedRun(s: State, steps: seq<Step>, t: State, h: int)
    requires Inv(s) && Run(s, steps, t) && Doomed(s, h)
    ensures Inv(t) && Doomed(t, h) && t.log == s.log && t.applied == s.applied
    decreases |steps|
  {
    if |steps| > 0 {
      InvStep(s, steps[0]);
      DoomedStep(s, steps[0], h);
      DoomedRun(Next(s, steps[0]), steps[1..], t, h);
    }
  }

  /** After a sync that failed no write succeeds: whoever had no answer then gets a failure, and nothing more
      is logged or applied. */
  lemma FailedSyncIsFinal(s: State, steps: seq<Step>, t: State, i: nat)
    requires Inv(s) && Run(s, steps, t) && |steps| > 0 && steps[0] == Sync(false)
    requires i < |t.clients| && i >= Head(s) && t.clients[i].result.Some?
    ensures t.clients[i].result == Some(false) && t.log == s.log && t.applied == s.applied
  {
    InvStep(s, steps[0]);
    DoomedRun(Next(s, steps[0]), steps[1..], t, Head(s));
    assert ClientOk(t, i);
  }

  /** Nobody is forgotten: a call still waiting has its answer and a signal, or stands in the queue;
      and the front of the queue is at work or has been signalled. */
  lemma NobodySleepsForever(base: nat, steps: seq<Step>, t: State)
    requires Run(Initial(base), steps, t)
    ensures forall i: nat | i < |t.clients| && t.clients[i].stage.Waiting? ::
              (t.clients[i].signalled && t.clients[i].result.Some?) || i in t.queue
    ensures t.queue != [] ==> t.queue[0] < |t.clients|
                              && (t.clients[t.queue[0]].stage.Leading? || t.clients[t.queue[0]].signalled)
  {
    RunInv(Initial(base), steps, t);
    assert t.queue != [] ==> ClientOk(t, t.queue[0]);
    forall i: nat | i < |t.clients| && t.clients[i].stage.Waiting?
      ensures (t.clients[i].signalled && t.clients[i].result.Some?) || i in t.queue
    {
      assert ClientOk(t, i);
      if i >= Head(t) {
        assert t.queue[i - Head(t)] == i;
      }
    }
  }
}
