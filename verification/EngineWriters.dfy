/** Callers that write in groups, and the engine they write to, as one machine: the steps of the group
    commit drive the engine's write steps, and the engine's other steps fall anywhere in between. */
module EngineWriters {
  import opened Entries
  import opened WriteBatch
  import E = EngineState
  import EngineInvariant
  import EngineRestart
  import EngineTheorems
  import G = GroupCommit

  datatype Both = Both(calls: G.State, engine: E.State)

  datatype Step = Call(call: G.Step) | Engine(step: E.Step)

  /** Engine steps while a database is served that no caller has to wait for; how the front writer's
      record is begun and how its operations are applied are among them. */
  ghost predicate Serving(step: E.Step) {
    !step.EndAppend? && !step.EndWrite? && !step.SwitchMemtable? && !step.Crash? && !step.BreakOff? && !step.Restore?
    && !step.CommitOpen? && !step.FinishOpen?
  }

  /** A record is begun for the group in the works, and operations are applied once it is logged and,
      if need be, synced. */
  ghost predicate InTurn(s: Both, step: E.Step) {
    && (step.BeginAppend? ==> s.calls.phase.Appending? && step.ops == s.calls.phase.batch.ops)
    && (step.ApplyOne? ==> s.calls.phase.Inserting?)
  }

  /** Room may need a new log, a record must be complete, a batch applied in full. */
  ghost predicate EngineReady(e: E.State, step: G.Step) {
    match step
    case Room(_, newFile) => newFile ==> E.CanSwitchMemtable(e)
    case Append(_) => E.CanEndAppend(e)
    case Insert => e.p.write.Applying? && e.p.write.done == |e.p.write.batch.ops|
    case Finish => e.p.write.Applying? ==> E.CanEndWrite(e)
    case _ => true
  }

  ghost predicate Succeeds(step: G.Step) {
    match step
    case Room(ok, _) => ok
    case Append(ok) => ok
    case Sync(ok) => ok
    case _ => true
  }

  ghost predicate Enabled(s: Both, step: Step) {
    match step
    case Engine(t) => E.Enabled(s.engine, t) && Serving(t) && InTurn(s, t)
    case Call(t) => G.Enabled(s.calls, t) && Succeeds(t) && EngineReady(s.engine, t)
  }

  ghost function EngineAfter(e: E.State, step: G.Step): E.State
    requires EngineReady(e, step)
  {
    match step
    case Room(_, newFile) => if newFile then E.MemtableSwitched(e) else e
    case Append(_) => E.AppendEnded(e)
    case Finish => if e.p.write.Applying? then E.WriteEnded(e) else e
    case _ => e
  }

  ghost function Next(s: Both, step: Step): Both
    requires G.Inv(s.calls) && Enabled(s, step)
  {
    match step
    case Engine(t) => s.(engine := E.Next(s.engine, t))
    case Call(t) => Both(G.Next(s.calls, t), EngineAfter(s.engine, t))
  }

  // ---- What ties the two together ----

  ghost function AllOf(batches: seq<Batch>, n: nat): set<Entry>
    requires n <= |batches|
  {
    if n == 0 then {} else AllOf(batches, n - 1) + batches[n - 1].All()
  }

  lemma {:induction false} AllOfHas(batches: seq<Batch>, n: nat, k: nat)
    requires k < n <= |batches|
    ensures batches[k].All() <= AllOf(batches, n)
  {
    if k < n - 1 {
      AllOfHas(batches, n - 1, k);
    }
  }

  lemma {:induction false} AllOfPrefix(batches: seq<Batch>, more: seq<Batch>, n: nat)
    requires n <= |batches| <= |more| && more[..|batches|] == batches
    ensures AllOf(more, n) == AllOf(batches, n)
  {
    if n > 0 {
      AllOfPrefix(batches, more, n - 1);
      assert more[n - 1] == more[..|batches|][n - 1];
    }
  }

  /** The batches whose writes have ended. */
  ghost function Ended(g: G.State, e: E.State): nat
    requires g.phase.Finishing? && e.p.write.Applying? ==> |g.applied| > 0
  {
    if g.phase.Finishing? && e.p.write.Applying? then |g.applied| - 1 else |g.applied|
  }

  /** The engine's write is at what the group commit is at. */
  ghost predicate WriteTied(g: G.State, e: E.State)
    requires G.Shape(g)
  {
    var w := e.p.write;
    match g.phase
    case Idle => w.NoWrite?
    case MakingRoom => w.NoWrite?
    case Appending(_, b) => w.NoWrite? || (w.Appending? && w.batch == b)
    case Syncing(_, b) => w.Applying? && w.batch == b
    case Inserting(_, b) => w.Applying? && w.batch == b
    case Finishing(n, last, _, _) =>
      if w.NoWrite? then last == g.lastSequence && g.writers[G.Head(g)].ops.None? && n == 1
      else w.Applying? && last == g.lastSequence + |w.batch.ops| && LastIs(g, n, w.batch)
  }

  /** The last record is that of the group at work, and it was applied. */
  ghost predicate LastIs(g: G.State, n: nat, b: Batch) {
    && |g.applied| == |g.log| > 0 && g.applied[|g.applied| - 1] == b
    && g.log[|g.log| - 1].first == G.Head(g) && g.log[|g.log| - 1].count == n
  }

  /** Every call that was served is in a record whose write has ended. */
  ghost predicate Served(writers: seq<G.Writer>, log: seq<G.Record>, head: int, ended: nat) {
    forall i: nat | i < head && i < |writers| && writers[i].ops.Some? :: InOneOf(log, i, ended)
  }

  ghost predicate InOneOf(log: seq<G.Record>, i: nat, ended: nat) {
    exists k: nat :: k < ended && k < |log| && G.InRecord(log[k], i)
  }

  ghost predicate Tied(s: Both, start: set<Entry>) {
    var g, e := s.calls, s.engine;
    && e.mode.Up? && e.p.lastSequence == g.lastSequence && !g.failed
    && G.Inv(g) && G.Clean(g) && WriteTied(g, e)
    && e.history == start + AllOf(g.applied, Ended(g, e))
    && Served(g.writers, g.log, G.Head(g), Ended(g, e))
  }

  // ---- Engine steps ----

  lemma ServingKeeps(e: E.State, step: E.Step)
    requires e.mode.Up? && E.Enabled(e, step) && Serving(step) && !step.BeginAppend? && !step.ApplyOne?
    ensures var t := E.Next(e, step);
            t.mode == e.mode && t.p.lastSequence == e.p.lastSequence && t.p.write == e.p.write && t.history == e.history
  {
    hide E.Compaction.GoodInputs, E.TableEntries, E.Live, E.Collectable, E.CanRestore, E.CanBreakOff, E.EditNow,
         E.Extended;
  }

  lemma EngineStepTied(s: Both, step: E.Step, start: set<Entry>)
    requires Tied(s, start) && Enabled(s, Engine(step))
    ensures Tied(Next(s, Engine(step)), start)
  {
    hide G.Inv, G.Clean, Served, LastIs, AllOf;
    if step.BeginAppend? {
      BatchOfGroup(s.calls);
    } else if !step.ApplyOne? {
      hide E.Enabled, E.Next;
      ServingKeeps(s.engine, step);
    }
  }

  lemma BatchOfGroup(g: G.State)
    requires G.Inv(g) && g.phase.Appending?
    ensures g.phase.batch == Batch(g.lastSequence + 1, g.phase.batch.ops)
  {
  }

  // ---- Callers' steps ----

  lemma ServedFrame(writers: seq<G.Writer>, log: seq<G.Record>, head: int, ended: nat,
                    writers': seq<G.Writer>, log': seq<G.Record>, head': int, ended': nat)
    requires Served(writers, log, head, ended) && head' <= head <= |writers| && ended <= ended' && |log| <= |log'|
    requires |writers| <= |writers'| && forall i: nat | i < |writers| :: writers'[i] == writers[i]
    requires forall k: nat | k < |log| :: log'[k].first == log[k].first && log'[k].count == log[k].count
    ensures Served(writers', log', head', ended')
  {
    forall i: nat | i < head' && i < |writers'| && writers'[i].ops.Some? ensures InOneOf(log', i, ended') {
      assert InOneOf(log, i, ended);
      var k: nat :| k < ended && k < |log| && G.InRecord(log[k], i);
      assert G.InRecord(log'[k], i);
    }
  }

  /** The group at work has been served once its write has ended. */
  lemma ServedNow(writers: seq<G.Writer>, log: seq<G.Record>, head: nat, n: nat)
    requires |log| > 0 && Served(writers, log, head, |log| - 1)
    requires log[|log| - 1].first == head && log[|log| - 1].count == n
    ensures Served(writers, log, head + n, |log|)
  {
    forall i: nat | i < head + n && i < |writers| && writers[i].ops.Some? ensures InOneOf(log, i, |log|) {
      if i < head {
        assert InOneOf(log, i, |log| - 1);
      } else {
        assert G.InRecord(log[|log| - 1], i);
      }
    }
  }

  lemma ServedNothing(writers: seq<G.Writer>, log: seq<G.Record>, head: nat, ended: nat)
    requires Served(writers, log, head, ended) && head < |writers| && writers[head].ops.None?
    ensures Served(writers, log, head + 1, ended)
  {
  }

  lemma InvClean(s: Both, step: G.Step, start: set<Entry>)
    requires Tied(s, start) && Enabled(s, Call(step))
    ensures G.Inv(G.Next(s.calls, step)) && G.Clean(G.Next(s.calls, step)) && !G.Next(s.calls, step).failed
  {
    G.InvStep(s.calls, step);
    NoFailure(s.calls, step);
    G.CleanStep(s.calls, step);
  }

  lemma NoFailure(g: G.State, step: G.Step)
    requires G.Inv(g) && G.Enabled(g, step) && Succeeds(step) && !g.failed
    ensures !G.Next(g, step).failed
  {
    hide G.QueueInv, G.PhaseInv, G.LogInv, G.ResultInv;
  }

  lemma CallTied(s: Both, step: G.Step, start: set<Entry>)
    requires Tied(s, start) && Enabled(s, Call(step))
    ensures Tied(Next(s, Call(step)), start)
  {
    InvClean(s, step, start);
    match step
    case Arrive(w) => ArriveTied(s, w, start);
    case Wake(id) => WakeTied(s, id, start);
    case Room(_, newFile) => RoomTied(s, newFile, start);
    case Append(_) => AppendTied(s, start);
    case Sync(_) => SyncTied(s, start);
    case Insert => InsertTied(s, start);
    case Finish => FinishTied(s, start);
  }

  ghost predicate Rest(s: Both, start: set<Entry>)
    requires G.Shape(s.calls)
  {
    var g, e := s.calls, s.engine;
    && e.mode.Up? && e.p.lastSequence == g.lastSequence && WriteTied(g, e)
    && e.history == start + AllOf(g.applied, Ended(g, e))
    && Served(g.writers, g.log, G.Head(g), Ended(g, e))
  }

  lemma ArriveTied(s: Both, w: G.Writer, start: set<Entry>)
    requires Tied(s, start)
    ensures Rest(s.(calls := G.Arrived(s.calls, w)), start)
  {
    hide G.Clean, G.LogInv, G.ResultInv, AllOf, Served, G.PhaseInv, G.ClientOk;
    var g, t := s.calls, G.Arrived(s.calls, w);
    ServedFrame(g.writers, g.log, G.Head(g), Ended(g, s.engine), t.writers, t.log, G.Head(t), Ended(t, s.engine));
  }

  lemma WakeTied(s: Both, id: nat, start: set<Entry>)
    requires Tied(s, start) && G.Enabled(s.calls, G.Wake(id))
    ensures Rest(s.(calls := G.Woken(s.calls, id)), start)
  {
    hide G.Clean, G.LogInv, G.ResultInv, AllOf, Served, G.PhaseInv;
    assert G.ClientOk(s.calls, id);
  }

  lemma RoomTied(s: Both, newFile: bool, start: set<Entry>)
    requires Tied(s, start) && s.calls.phase.MakingRoom? && (newFile ==> E.CanSwitchMemtable(s.engine))
    ensures Rest(Both(G.RoomMade(s.calls, true, newFile), EngineAfter(s.engine, G.Room(true, newFile))), start)
  {
    hide G.Clean, G.LogInv, G.ResultInv, AllOf, Served, G.PhaseInv, G.ClientOk, G.GroupEnd, G.OpsBetween;
  }

  lemma AppendTied(s: Both, start: set<Entry>)
    requires Tied(s, start) && s.calls.phase.Appending? && E.CanEndAppend(s.engine)
    ensures Rest(Both(G.Appended(s.calls, true), E.AppendEnded(s.engine)), start)
  {
    hide G.Clean, G.LogInv, G.ResultInv, AllOf, Served, G.ClientOk, G.OpsBetween;
    var g, t := s.calls, G.Appended(s.calls, true);
    ServedFrame(g.writers, g.log, G.Head(g), |g.applied|, t.writers, t.log, G.Head(t), |t.applied|);
  }

  lemma SyncTied(s: Both, start: set<Entry>)
    requires Tied(s, start) && s.calls.phase.Syncing?
    ensures Rest(s.(calls := G.Synced(s.calls, true)), start)
  {
    hide G.Clean, G.LogInv, G.ResultInv, AllOf, Served, G.ClientOk, G.OpsBetween;
    var g, t := s.calls, G.Synced(s.calls, true);
    ServedFrame(g.writers, g.log, G.Head(g), |g.applied|, t.writers, t.log, G.Head(t), |t.applied|);
  }

  lemma InsertTied(s: Both, start: set<Entry>)
    requires Tied(s, start) && s.calls.phase.Inserting? && s.engine.p.write.Applying?
    requires s.engine.p.write.done == |s.engine.p.write.batch.ops|
    ensures Rest(s.(calls := G.Inserted(s.calls)), start)
  {
    hide G.LogInv, G.ResultInv, Served, AllOf, G.ClientOk, G.LogOps, G.Numbered, G.OpsUpTo, G.AllSucceeded, G.GroupOk,
         G.OpsBetween;
    AllOfPrefix(s.calls.applied, G.Inserted(s.calls).applied, |s.calls.applied|);
  }

  lemma FinishTied(s: Both, start: set<Entry>)
    requires Tied(s, start) && s.calls.phase.Finishing? && EngineReady(s.engine, G.Finish)
    ensures G.Shape(G.Finished(s.calls)) && Rest(Both(G.Finished(s.calls), EngineAfter(s.engine, G.Finish)), start)
  {
    hide G.LogInv, G.ResultInv, Served, G.ClientOk, G.Clean, G.Behind, G.AnsweredBy;
    var g := s.calls;
    if s.engine.p.write.Applying? {
      ServedNow(g.writers, g.log, G.Head(g), g.phase.count);
    } else {
      ServedNothing(g.writers, g.log, G.Head(g), |g.applied|);
    }
  }

  lemma StepTied(s: Both, step: Step, start: set<Entry>)
    requires Tied(s, start) && Enabled(s, step)
    ensures Tied(Next(s, step), start)
  {
    hide Tied, Enabled, Next;
    match step
    case Engine(t) => EngineStepTied(s, t, start);
    case Call(t) => CallTied(s, t, start);
  }

  /** The engine's own invariant: what a call does to the engine is one of the engine's steps, or
      nothing. */
  lemma EngineKeeps(s: Both, step: Step)
    requires G.Inv(s.calls) && Enabled(s, step) && EngineInvariant.Inv(s.engine) && s.engine.mode.Up?
    ensures EngineInvariant.Inv(Next(s, step).engine)
  {
    hide EngineInvariant.Inv, E.Enabled, E.Next;
    match step
    case Engine(t) => EngineRestart.InvStep(s.engine, t);
    case Call(t) => CallKeeps(s.engine, t);
  }

  lemma CallKeeps(e: E.State, step: G.Step)
    requires EngineReady(e, step) && EngineInvariant.Inv(e)
    ensures EngineInvariant.Inv(EngineAfter(e, step))
  {
    hide EngineInvariant.Inv;
    match step
    case Room(_, newFile) =>
      if newFile {
        EngineRestart.InvStep(e, E.SwitchMemtable);
      }
    case Append(_) => EngineRestart.InvStep(e, E.EndAppend);
    case Finish =>
      if e.p.write.Applying? {
        EngineRestart.InvStep(e, E.EndWrite);
      }
    case _ =>
  }

  // ---- Whole runs ----

  ghost predicate Run(s: Both, steps: seq<Step>, t: Both, start: set<Entry>)
    requires Tied(s, start)
    decreases |steps|
  {
    if |steps| == 0 then s == t
    else Enabled(s, steps[0]) && (StepTied(s, steps[0], start); Run(Next(s, steps[0]), steps[1..], t, start))
  }

  lemma {:induction false} RunTied(s: Both, steps: seq<Step>, t: Both, start: set<Entry>)
    requires Tied(s, start) && EngineInvariant.Inv(s.engine) && Run(s, steps, t, start)
    ensures Tied(t, start) && EngineInvariant.Inv(t.engine)
    decreases |steps|
  {
    if |steps| > 0 {
      StartsUp(s, start);
      hide Tied, Enabled, Next, EngineInvariant.Inv;
      StepTied(s, steps[0], start);
      EngineKeeps(s, steps[0]);
      RunTied(Next(s, steps[0]), steps[1..], t, start);
    }
  }

  lemma StartsUp(s: Both, start: set<Entry>)
    requires Tied(s, start)
    ensures s.engine.mode.Up? && G.Inv(s.calls)
  {
  }

  /** An open engine nobody writes to yet. */
  ghost function Fresh(e: E.State): Both { Both(G.Initial(e.p.lastSequence), e) }

  lemma FreshTied(e: E.State)
    requires e.mode.Up? && e.p.write.NoWrite?
    ensures Tied(Fresh(e), e.history)
  {
    G.InitialInv(e.p.lastSequence);
  }

  /** From callers to the disk: whatever the engine does meanwhile, a call that returned success is, with
      its group, in one record whose entries are written; nothing but the applied batches is; reads follow
      all of it, and a restart at this moment would find what reads the same. */
  lemma ServedCallsAreWritten(e: E.State, steps: seq<Step>, t: Both, i: nat, key: UserKey)
    requires e.mode.Up? && e.p.write.NoWrite? && EngineInvariant.Inv(e)
    requires (FreshTied(e); Run(Fresh(e), steps, t, e.history))
    requires i < |t.calls.clients| && i < |t.calls.writers| && t.calls.clients[i].stage == G.Returned(true)
    requires t.calls.writers[i].ops.Some?
    ensures exists k: nat ::
              k < |t.calls.log| && G.InRecord(t.calls.log[k], i) && G.RecordOk(t.calls.writers, t.calls.log[k])
                             && t.calls.log[k].batch.All() <= t.engine.history
    ensures exists n: nat :: n <= |t.calls.applied| && t.engine.history == e.history + AllOf(t.calls.applied, n)
    ensures EngineTheorems.LayeredGet(t.engine.p, t.engine.disk, key, t.engine.p.lastSequence)
            == Read(t.engine.history, key, t.engine.p.lastSequence)
    ensures SameReads(t.engine.history + E.InFlight(t.engine.p), E.Recoverable(t.engine.disk), t.engine.floor)
  {
    var g, s := t.calls, t.engine;
    FreshTied(e);
    RunTied(Fresh(e), steps, t, e.history);
    var n := Ended(g, s);
    assert s.history == e.history + AllOf(g.applied, n);
    var k := RecordOf(t, e.history, i);
    AllOfHas(g.applied, n, k);
    Answers(s, key);
  }

  lemma RecordOf(t: Both, start: set<Entry>, i: nat) returns (k: nat)
    requires Tied(t, start) && i < |t.calls.clients| && i < |t.calls.writers|
    requires t.calls.clients[i].stage.Returned? && t.calls.writers[i].ops.Some?
    ensures k < Ended(t.calls, t.engine) <= |t.calls.applied| && k < |t.calls.log| && G.InRecord(t.calls.log[k], i)
    ensures G.RecordOk(t.calls.writers, t.calls.log[k]) && t.calls.applied[k] == t.calls.log[k].batch
  {
    var g := t.calls;
    assert G.ClientOk(g, i);
    assert InOneOf(g.log, i, Ended(g, t.engine));
    k :| k < Ended(g, t.engine) && k < |g.log| && G.InRecord(g.log[k], i);
  }

  lemma Answers(s: E.State, key: UserKey)
    requires s.mode.Up? && EngineInvariant.Inv(s)
    ensures EngineTheorems.LayeredGet(s.p, s.disk, key, s.p.lastSequence) == Read(s.history, key, s.p.lastSequence)
    ensures SameReads(s.history + E.InFlight(s.p), E.Recoverable(s.disk), s.floor)
  {
    EngineTheorems.GetFollowsHistory(s, key, s.p.lastSequence);
  }
}
