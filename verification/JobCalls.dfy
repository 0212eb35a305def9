/**
 Whole calls of the job protocol with nobody in between: a job from its start to the
 return of its handler, a cancellation, and expiry.
 */
module JobCalls {
  import opened Wrappers
  import opened Jobs
  import opened JobProtocol
  import opened JobHistory

  ghost predicate Follow(cfg: Config, states: seq<State>, actions: seq<Action>) {
    |states| == |actions| + 1 && forall k | 0 <= k < |actions| :: Next(cfg, states[k], actions[k], states[k + 1])
  }

  /** Expiring again at the same time takes nothing more away. */
  lemma CleanupTwice(cfg: Config, st: State, table: Table)
    requires var kept := Cleanup(cfg, st.table, st.clock);
      table.Keys == kept.Keys && forall other | other in kept :: table[other].completedAt == kept[other].completedAt
    ensures Cleanup(cfg, table, st.clock) == table
  {
  }

  // ---------------------------------------------------------------------
  // Cancelling
  // ---------------------------------------------------------------------

  /** The state after an expiry pass, with that caller of `cancel`. */
  ghost function Kept(cfg: Config, st: State, c: nat, canceller: Canceller): State {
    st.(table := Cleanup(cfg, st.table, st.clock), cancels := st.cancels[c := canceller])
  }

  lemma ReadsTarget(cfg: Config, st: State, c: nat, id: JobId)
    requires c !in st.cancels && id in Cleanup(cfg, st.table, st.clock)
    ensures var r := st.table[id];
      Next(cfg, st, CancelRead(c, id),
        Kept(cfg, st, c, if r.status == Running then Asking(id, r.executionId, r.lifecycle) else Replying(id)))
  {
    CleanupWithin(cfg, st.table, st.clock);
    hide Cleanup;
  }

  lemma HearsExecutor(cfg: Config, st: State, c: nat, id: JobId, executionId: string, lifecycle: Option<string>)
    ensures Next(cfg, Kept(cfg, st, c, Asking(id, executionId, lifecycle)), CancelExecutor(c, true),
      Kept(cfg, st, c, Accepted(id, executionId, lifecycle)))
    ensures Next(cfg, Kept(cfg, st, c, Asking(id, executionId, lifecycle)), CancelExecutor(c, false),
      Kept(cfg, st, c, Replying(id)))
  {
    hide Cleanup;
    var asking := st.cancels[c := Asking(id, executionId, lifecycle)];
    assert asking[c := Accepted(id, executionId, lifecycle)] == st.cancels[c := Accepted(id, executionId, lifecycle)];
    assert asking[c := Replying(id)] == st.cancels[c := Replying(id)];
  }

  lemma WritesCancellation(
    cfg: Config, st: State, c: nat, id: JobId, executionId: string, lifecycle: Option<string>, isDraining: bool)
    ensures var table := CancelTo(Cleanup(cfg, st.table, st.clock), id, executionId, lifecycle.Some? && isDraining);
      Next(cfg, Kept(cfg, st, c, Accepted(id, executionId, lifecycle)), CancelWrite(c, isDraining),
        Kept(cfg, st, c, Replying(id)).(table := table))
  {
    hide Cleanup, CancelTo;
    assert st.cancels[c := Accepted(id, executionId, lifecycle)][c := Replying(id)] == st.cancels[c := Replying(id)];
  }

  lemma Replies(cfg: Config, st: State, c: nat, id: JobId, table: Table)
    requires c !in st.cancels && Cleanup(cfg, table, st.clock) == table
    ensures Next(cfg, Kept(cfg, st, c, Replying(id)).(table := table), CancelSnapshot(c), st.(table := table))
  {
    hide Cleanup;
    assert st.cancels[c := Replying(id)] - {c} == st.cancels;
  }

  lemma CancelledTable(cfg: Config, st: State, id: JobId, executionId: string, draining: bool)
    requires id in Cleanup(cfg, st.table, st.clock) && st.table[id].status == Running
    ensures var kept := Cleanup(cfg, st.table, st.clock);
      var table := CancelTo(kept, id, executionId, draining);
      Cleanup(cfg, table, st.clock) == table &&
      table == kept[id := st.table[id].(
        status := Cancelled,
        response := Some(Response(false, CancelledDiagnostic(executionId))),
        draining := draining)]
  {
    CleanupWithin(cfg, st.table, st.clock);
    CleanupTwice(cfg, st, CancelTo(Cleanup(cfg, st.table, st.clock), id, executionId, draining));
    hide Cleanup;
  }

  /** A Running job that the executor can cancel is replied to as cancelled, and the caller is done. */
  lemma CancelAlone(cfg: Config, st: State, c: nat, id: JobId, isDraining: bool)
      returns (states: seq<State>, actions: seq<Action>)
    requires c !in st.cancels && id in Cleanup(cfg, st.table, st.clock) && st.table[id].status == Running
    ensures actions == [CancelRead(c, id), CancelExecutor(c, true), CancelWrite(c, isDraining), CancelSnapshot(c)]
    ensures Follow(cfg, states, actions) && states[0] == st
    ensures states[|actions|] == st.(
      table := Cleanup(cfg, st.table, st.clock)[id := st.table[id].(
        status := Cancelled,
        response := Some(Response(false, CancelledDiagnostic(st.table[id].executionId))),
        draining := st.table[id].lifecycle.Some? && isDraining)])
  {
    CleanupWithin(cfg, st.table, st.clock);
    hide Cleanup, Next, CancelTo, Kept;
    var r := st.table[id];
    var table := CancelTo(Cleanup(cfg, st.table, st.clock), id, r.executionId, r.lifecycle.Some? && isDraining);
    ReadsTarget(cfg, st, c, id);
    HearsExecutor(cfg, st, c, id, r.executionId, r.lifecycle);
    WritesCancellation(cfg, st, c, id, r.executionId, r.lifecycle, isDraining);
    CancelledTable(cfg, st, id, r.executionId, r.lifecycle.Some? && isDraining);
    Replies(cfg, st, c, id, table);
    states := [
      st, Kept(cfg, st, c, Asking(id, r.executionId, r.lifecycle)),
      Kept(cfg, st, c, Accepted(id, r.executionId, r.lifecycle)),
      Kept(cfg, st, c, Replying(id)).(table := table), st.(table := table)];
    actions := [CancelRead(c, id), CancelExecutor(c, true), CancelWrite(c, isDraining), CancelSnapshot(c)];
  }

  lemma RepliesKept(cfg: Config, st: State, c: nat, id: JobId)
    requires c !in st.cancels
    ensures Next(cfg, Kept(cfg, st, c, Replying(id)), CancelSnapshot(c),
      st.(table := Cleanup(cfg, st.table, st.clock)))
  {
    CleanupTwice(cfg, st, Cleanup(cfg, st.table, st.clock));
    Replies(cfg, st, c, id, Cleanup(cfg, st.table, st.clock));
    hide Cleanup, Next;
  }

  /** A refused cancellation, and one of a job that has its verdict, leave the job as it is. */
  lemma CancelDoesNothing(cfg: Config, st: State, c: nat, id: JobId)
      returns (states: seq<State>, actions: seq<Action>)
    requires c !in st.cancels && id in Cleanup(cfg, st.table, st.clock)
    ensures actions == if st.table[id].status == Running
      then [CancelRead(c, id), CancelExecutor(c, false), CancelSnapshot(c)]
      else [CancelRead(c, id), CancelSnapshot(c)]
    ensures Follow(cfg, states, actions) && states[0] == st
    ensures states[|actions|] == st.(table := Cleanup(cfg, st.table, st.clock))
  {
    CleanupWithin(cfg, st.table, st.clock);
    hide Cleanup, Next, Kept;
    var r, last := st.table[id], st.(table := Cleanup(cfg, st.table, st.clock));
    ReadsTarget(cfg, st, c, id);
    RepliesKept(cfg, st, c, id);
    if r.status == Running {
      HearsExecutor(cfg, st, c, id, r.executionId, r.lifecycle);
      states := [
        st, Kept(cfg, st, c, Asking(id, r.executionId, r.lifecycle)), Kept(cfg, st, c, Replying(id)), last];
      actions := [CancelRead(c, id), CancelExecutor(c, false), CancelSnapshot(c)];
    } else {
      states, actions := [st, Kept(cfg, st, c, Replying(id)), last], [CancelRead(c, id), CancelSnapshot(c)];
    }
  }

  /** A cancellation of an unknown or expired job is over at once. */
  lemma CancelFindsNothing(cfg: Config, st: State, c: nat, id: JobId)
    requires c !in st.cancels && id !in Cleanup(cfg, st.table, st.clock)
    ensures Next(cfg, st, CancelRead(c, id), st.(table := Cleanup(cfg, st.table, st.clock)))
  {
    hide Cleanup;
  }

  // ---------------------------------------------------------------------
  // Running a job
  // ---------------------------------------------------------------------

  lemma FreshId(cfg: Config, st: State)
    requires Inv(cfg, st)
    ensures Id(cfg, st.nextSequence) !in st.table && st.nextSequence !in st.starts
  {
    assert forall id | id in st.table :: id.sequence != st.nextSequence by {
      forall id | id in st.table ensures id.sequence < st.nextSequence { assert RecordOk(cfg, st, id); }
    }
    assert forall n | n in st.starts :: n != st.nextSequence by {
      forall n | n in st.starts ensures n < st.nextSequence { assert StartOk(cfg, st, n); }
    }
  }

  /** The state with the job's record in the table and its starter in the phase. */
  ghost function With(cfg: Config, st: State, record: JobRecord, phase: Phase): State {
    st.(
      table := Cleanup(cfg, st.table, st.clock)[Id(cfg, st.nextSequence) := record],
      nextSequence := st.nextSequence + 1,
      starts := st.starts[st.nextSequence := phase])
  }

  /** The number is taken and nothing reserved. */
  ghost function Numbered(st: State, tool: string, executionId: string): State {
    st.(nextSequence := st.nextSequence + 1, starts := st.starts[st.nextSequence := Sequenced(tool, executionId)])
  }

  function NewRecord(n: nat, tool: string, executionId: string): JobRecord {
    JobRecord(n, tool, executionId, Running, false, None, None, None)
  }

  lemma Numbers(cfg: Config, st: State, tool: string, executionId: string)
    ensures Next(cfg, st, TakeSequence(tool, executionId), Numbered(st, tool, executionId))
  {
  }

  lemma Reserves(cfg: Config, st: State, tool: string, executionId: string)
    requires |Cleanup(cfg, st.table, st.clock)| < cfg.maxRecords
    ensures var n := st.nextSequence;
      Next(cfg, Numbered(st, tool, executionId), Reserve(n), With(cfg, st, NewRecord(n, tool, executionId), Holding))
  {
    hide Cleanup;
    var n, s1 := st.nextSequence, Numbered(st, tool, executionId);
    assert s1.starts[n := Holding] == st.starts[n := Holding];
  }

  lemma RecordsLifecycle(cfg: Config, st: State, record: JobRecord, lifecycle: string)
    ensures Next(cfg, With(cfg, st, record, Holding), RecordLifecycle(st.nextSequence, lifecycle),
      With(cfg, st, record.(lifecycle := Some(lifecycle)), Attaching))
  {
    var n, id, held := st.nextSequence, Id(cfg, st.nextSequence), With(cfg, st, record, Holding);
    var kept := Cleanup(cfg, st.table, st.clock);
    hide Cleanup;
    assert kept[id := record][id := record.(lifecycle := Some(lifecycle))] ==
      kept[id := record.(lifecycle := Some(lifecycle))];
    assert held.starts[n := Attaching] == st.starts[n := Attaching];
  }

  lemma StillThere(cfg: Config, st: State, record: JobRecord)
    requires record.completedAt == None || (record.completedAt == Some(st.clock) && cfg.ttl > 0)
    ensures var table := Cleanup(cfg, st.table, st.clock)[Id(cfg, st.nextSequence) := record];
      Cleanup(cfg, table, st.clock) == table
  {
  }

  lemma TakesSnapshot(cfg: Config, st: State, record: JobRecord)
    requires record.completedAt == None
    ensures Next(cfg, With(cfg, st, record, Attaching), AttachSnapshot(st.nextSequence),
      With(cfg, st, record, Observing))
  {
    StillThere(cfg, st, record);
    hide Cleanup;
    var n := st.nextSequence;
    assert st.starts[n := Attaching][n := Observing] == st.starts[n := Observing];
  }

  lemma Concludes(
    cfg: Config, st: State, record: JobRecord, observed: Observed, requestId: string, isDraining: bool)
      returns (decided: JobRecord)
    requires record.status == Running
    ensures Next(cfg, With(cfg, st, record, Observing),
      CompleteLogical(st.nextSequence, observed, requestId, isDraining), With(cfg, st, decided, Releasing))
    ensures decided == record.(status := decided.status, response := decided.response, draining := decided.draining)
    ensures Decides(st, CompleteLogical(st.nextSequence, observed, requestId, isDraining), decided)
  {
    var n, id := st.nextSequence, Id(cfg, st.nextSequence);
    var (status, response) := Verdict(observed, requestId);
    decided := record.(status := status, response := Some(response), draining := VerdictDraining(status, isDraining));
    var kept := Cleanup(cfg, st.table, st.clock);
    hide Cleanup, Verdict, VerdictDraining;
    assert kept[id := record][id := decided] == kept[id := decided];
    assert st.starts[n := Observing][n := Releasing] == st.starts[n := Releasing];
    assert Decides(st, CompleteLogical(n, observed, requestId, isDraining), decided) by {
      VerdictDecides(st, n, observed, requestId, isDraining, decided);
    }
  }

  lemma VerdictDecides(
    st: State, n: nat, observed: Observed, requestId: string, isDraining: bool, decided: JobRecord)
    requires var (status, response) := Verdict(observed, requestId);
      decided.status == status && decided.response == Some(response) &&
      decided.draining == VerdictDraining(status, isDraining)
    ensures Decides(st, CompleteLogical(n, observed, requestId, isDraining), decided)
  {
  }

  /** Nobody holds the job any more. */
  ghost function Over(cfg: Config, st: State, record: JobRecord): State {
    st.(
      table := Cleanup(cfg, st.table, st.clock)[Id(cfg, st.nextSequence) := record],
      nextSequence := st.nextSequence + 1)
  }

  lemma Releases(cfg: Config, st: State, record: JobRecord)
    requires record.completedAt == None && cfg.ttl > 0 && st.nextSequence !in st.starts
    ensures Next(cfg, With(cfg, st, record, Releasing), CompletePhysical(st.nextSequence, 0),
      Over(cfg, st, record.(draining := false, completedAt := Some(st.clock))))
  {
    var n, id := st.nextSequence, Id(cfg, st.nextSequence);
    var done := record.(draining := false, completedAt := Some(st.clock));
    StillThere(cfg, st, done);
    var kept := Cleanup(cfg, st.table, st.clock);
    hide Cleanup;
    assert kept[id := record][id := done] == kept[id := done];
    assert st.starts[n := Releasing] - {n} == st.starts;
  }

  /**
   A job from its start to the return of its handler: in the end its record shows the
   tool, the execution, the verdict and the time, and nobody holds it any more.
   */
  lemma JobAlone(
    cfg: Config, st: State, tool: string, executionId: string, lifecycle: string, observed: Observed,
    requestId: string, isDraining: bool)
      returns (states: seq<State>, actions: seq<Action>, decided: JobRecord)
    requires Inv(cfg, st) && |Cleanup(cfg, st.table, st.clock)| < cfg.maxRecords && cfg.ttl > 0
    ensures var n := st.nextSequence;
      actions == [
        TakeSequence(tool, executionId), Reserve(n), RecordLifecycle(n, lifecycle), AttachSnapshot(n),
        CompleteLogical(n, observed, requestId, isDraining), CompletePhysical(n, 0)]
    ensures Follow(cfg, states, actions) && states[0] == st
    ensures Decides(st, CompleteLogical(st.nextSequence, observed, requestId, isDraining), decided)
    ensures states[|actions|] == st.(
      table := Cleanup(cfg, st.table, st.clock)[Id(cfg, st.nextSequence) := JobRecord(
        st.nextSequence, tool, executionId, decided.status, false, decided.response, Some(st.clock),
        Some(lifecycle))],
      nextSequence := st.nextSequence + 1)
  {
    hide Inv, Decides, Cleanup, Next, With, Numbered;
    var n := st.nextSequence;
    var blank := NewRecord(n, tool, executionId);
    var attached := blank.(lifecycle := Some(lifecycle));
    FreshId(cfg, st);
    Numbers(cfg, st, tool, executionId);
    Reserves(cfg, st, tool, executionId);
    RecordsLifecycle(cfg, st, blank, lifecycle);
    TakesSnapshot(cfg, st, attached);
    decided := Concludes(cfg, st, attached, observed, requestId, isDraining);
    Releases(cfg, st, decided);
    states := [
      st, Numbered(st, tool, executionId), With(cfg, st, blank, Holding), With(cfg, st, attached, Attaching),
      With(cfg, st, attached, Observing), With(cfg, st, decided, Releasing),
      Over(cfg, st, decided.(draining := false, completedAt := Some(st.clock)))];
    actions := [
      TakeSequence(tool, executionId), Reserve(n), RecordLifecycle(n, lifecycle), AttachSnapshot(n),
      CompleteLogical(n, observed, requestId, isDraining), CompletePhysical(n, 0)];
  }

  lemma RollsBack(cfg: Config, st: State, record: JobRecord)
    requires Id(cfg, st.nextSequence) !in st.table && st.nextSequence !in st.starts
    ensures Next(cfg, With(cfg, st, record, Holding), Rollback(st.nextSequence),
      st.(table := Cleanup(cfg, st.table, st.clock), nextSequence := st.nextSequence + 1))
  {
    var n, id := st.nextSequence, Id(cfg, st.nextSequence);
    CleanupWithin(cfg, st.table, st.clock);
    var kept := Cleanup(cfg, st.table, st.clock);
    hide Cleanup;
    assert kept[id := record] - {id} == kept && st.starts[n := Holding] - {n} == st.starts;
  }

  /** A start that cannot submit gives its reservation back. */
  lemma RollbackAlone(cfg: Config, st: State, tool: string, executionId: string)
      returns (states: seq<State>, actions: seq<Action>)
    requires Inv(cfg, st) && |Cleanup(cfg, st.table, st.clock)| < cfg.maxRecords
    ensures var n := st.nextSequence; actions == [TakeSequence(tool, executionId), Reserve(n), Rollback(n)]
    ensures Follow(cfg, states, actions) && states[0] == st
    ensures states[|actions|] == st.(
      table := Cleanup(cfg, st.table, st.clock), nextSequence := st.nextSequence + 1)
  {
    hide Inv, Cleanup, Next, With, Numbered;
    var n := st.nextSequence;
    FreshId(cfg, st);
    Numbers(cfg, st, tool, executionId);
    Reserves(cfg, st, tool, executionId);
    RollsBack(cfg, st, NewRecord(n, tool, executionId));
    states := [
      st, Numbered(st, tool, executionId), With(cfg, st, NewRecord(n, tool, executionId), Holding),
      st.(table := Cleanup(cfg, st.table, st.clock), nextSequence := n + 1)];
    actions := [TakeSequence(tool, executionId), Reserve(n), Rollback(n)];
  }

  /** Once its time to live has passed, the next reader finds a completed job gone. */
  lemma ExpiresInTime(cfg: Config, st: State, elapsed: nat, id: JobId) returns (states: seq<State>)
    requires Inv(cfg, st) && id in st.table && st.table[id].completedAt.Some?
    ensures Follow(cfg, states, [Tick(elapsed), ReadStatus]) && states[0] == st
    ensures id in states[2].table <==> st.clock + elapsed < st.table[id].completedAt.value + cfg.ttl
  {
    assert RecordOk(cfg, st, id);
    hide Inv, Consistent;
    var s1 := st.(clock := st.clock + elapsed);
    states := [st, s1, s1.(table := Cleanup(cfg, st.table, s1.clock))];
  }
}
