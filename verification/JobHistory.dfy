/**
 What a job's record says about the past of a run: who started it, which step gave
 it its verdict, and which step took it away.
 */
module JobHistory {
  import opened Wrappers
  import opened Jobs
  import opened JobProtocol

  /** The step writes a verdict into the record of `id`, if that is still Running. */
  predicate Targets(st: State, a: Action, id: JobId) {
    match a
    case CancelWrite(c, _) => c in st.cancels && st.cancels[c].jobId == id
    case CompleteLogical(n, _, _, _) => n == id.sequence
    case _ => false
  }

  /** What the verdict is, and whether the handler still drains. */
  predicate Decides(st: State, a: Action, after: JobRecord) {
    match a
    case CancelWrite(c, isDraining) =>
      c in st.cancels && st.cancels[c].Accepted? &&
      after.status == Cancelled &&
      after.response == Some(Response(false, CancelledDiagnostic(st.cancels[c].executionId))) &&
      after.draining == (st.cancels[c].lifecycle.Some? && isDraining)
    case CompleteLogical(_, Finished(response), _, _) =>
      after.status == (if response.success then Succeeded else Failed) &&
      after.response == Some(response) && !after.draining
    case CompleteLogical(_, ExecutionCancelled, requestId, isDraining) =>
      after.status == Cancelled && after.response == Some(Response(false, CancelledDiagnostic(requestId))) &&
      after.draining == isDraining
    case CompleteLogical(_, ExecutionTimeout, requestId, isDraining) =>
      after.status == TimedOut && after.response == Some(Response(false, TimeoutDiagnostic(requestId))) &&
      after.draining == isDraining
    case CompleteLogical(_, OtherError(message), _, _) =>
      after.status == Failed && after.response == Some(Response(false, OtherDiagnostic(message))) && !after.draining
    case _ => false
  }

  /** One record before and after one step, field by field. */
  predicate Moves(st: State, a: Action, id: JobId, before: JobRecord, after: JobRecord) {
    && after.sequence == before.sequence && after.tool == before.tool && after.executionId == before.executionId
    && after.lifecycle ==
      (if a.RecordLifecycle? && a.n == id.sequence then Some(a.lifecycle) else before.lifecycle)
    && after.completedAt ==
      (if a.CompletePhysical? && a.n == id.sequence && before.completedAt.None? then Some(st.clock)
       else before.completedAt)
    && (if before.status == Running && Targets(st, a, id) then Decides(st, a, after)
        else after.status == before.status && after.response == before.response)
    && (!Targets(st, a, id) || before.status != Running ==>
          after.draining == (before.draining && !(a.CompletePhysical? && a.n == id.sequence)))
  }

  lemma LifecycleMoves(cfg: Config, st: State, a: Action, st': State, id: JobId)
    requires Inv(cfg, st) && a.RecordLifecycle? && Next(cfg, st, a, st') && id in st.table && id in st'.table
    ensures Moves(st, a, id, st.table[id], st'.table[id])
  {
    assert RecordOk(cfg, st, id);
    hide Consistent, Inv, Decides;
  }

  lemma LogicalMoves(cfg: Config, st: State, a: Action, st': State, id: JobId)
    requires Inv(cfg, st) && a.CompleteLogical? && Next(cfg, st, a, st') && id in st.table && id in st'.table
    ensures Moves(st, a, id, st.table[id], st'.table[id])
  {
    assert RecordOk(cfg, st, id);
    hide Consistent, Inv;
  }

  lemma CancelMoves(cfg: Config, st: State, a: Action, st': State, id: JobId)
    requires a.CancelWrite? && Next(cfg, st, a, st') && id in st.table && id in st'.table
    ensures Moves(st, a, id, st.table[id], st'.table[id])
  {
  }

  lemma PhysicalMoves(cfg: Config, st: State, a: Action, st': State, id: JobId)
    requires Inv(cfg, st) && a.CompletePhysical? && Next(cfg, st, a, st') && id in st.table && id in st'.table
    ensures Moves(st, a, id, st.table[id], st'.table[id])
  {
    assert RecordOk(cfg, st, id);
    hide Consistent, Inv;
  }

  lemma ReserveMoves(cfg: Config, st: State, a: Action, st': State, id: JobId)
    requires Inv(cfg, st) && a.Reserve? && Next(cfg, st, a, st') && id in st.table && id in st'.table
    ensures Moves(st, a, id, st.table[id], st'.table[id])
  {
    assert RecordOk(cfg, st, id) && StartOk(cfg, st, a.n);
    hide Consistent, Inv;
  }

  lemma OthersMove(cfg: Config, st: State, a: Action, st': State, id: JobId)
    requires Next(cfg, st, a, st') && !Rewrites(a) && !a.CompletePhysical? && !a.Reserve?
    requires id in st.table && id in st'.table
    ensures Moves(st, a, id, st.table[id], st'.table[id])
  {
    hide LogicalTo, CancelTo, AttachTo, PhysicalTo, ReserveTo, Verdict;
    assert st'.table[id] == st.table[id];
  }

  /** Every step moves every record that it leaves in the table exactly so. */
  lemma RecordMoves(cfg: Config, st: State, a: Action, st': State, id: JobId)
    requires Inv(cfg, st) && Next(cfg, st, a, st') && id in st.table && id in st'.table
    ensures Moves(st, a, id, st.table[id], st'.table[id])
  {
    hide Inv, Next, Moves;
    match a
    case RecordLifecycle(_, _) => LifecycleMoves(cfg, st, a, st', id);
    case CompleteLogical(_, _, _, _) => LogicalMoves(cfg, st, a, st', id);
    case CancelWrite(_, _) => CancelMoves(cfg, st, a, st', id);
    case CompletePhysical(_, _) => PhysicalMoves(cfg, st, a, st', id);
    case Reserve(_) => ReserveMoves(cfg, st, a, st', id);
    case _ => OthersMove(cfg, st, a, st', id);
  }

  /** A record appears by the reservation of its number only, as a running job without any past. */
  lemma RecordAppears(cfg: Config, st: State, a: Action, st': State, id: JobId)
    requires Next(cfg, st, a, st') && id !in st.table && id in st'.table
    ensures a == Reserve(id.sequence) && id.bootNonce == cfg.bootNonce
    ensures id.sequence in st.starts && st.starts[id.sequence].Sequenced?
    ensures var phase, record := st.starts[id.sequence], st'.table[id];
      record.sequence == id.sequence && record.tool == phase.tool && record.executionId == phase.executionId &&
      record.status == Running && !record.draining && record.response == None && record.completedAt == None &&
      record.lifecycle == None
  {
  }

  // ---------------------------------------------------------------------
  // Leaving the table
  // ---------------------------------------------------------------------

  predicate Expired(cfg: Config, at: Option<nat>, now: nat) {
    at.Some? && at.value + cfg.ttl <= now
  }

  /** The jobs that have not expired. */
  ghost function Remaining(cfg: Config, st: State): set<JobId> {
    set id | id in st.table && !Expired(cfg, st.table[id].completedAt, st.clock)
  }

  /** `id` has completed, and of the unexpired jobs no other did so before, or at that time with a lower number. */
  ghost predicate FirstToGo(cfg: Config, st: State, id: JobId)
    requires id in st.table
  {
    var r := st.table[id];
    r.completedAt.Some? &&
    forall other | other in Remaining(cfg, st) && st.table[other].completedAt.Some? ::
      var at := st.table[other].completedAt.value;
      r.completedAt.value < at || (r.completedAt.value == at && id.sequence <= other.sequence)
  }

  /** The step takes the record of `id` out of the table. */
  ghost predicate Leaves(cfg: Config, st: State, a: Action, id: JobId)
    requires id in st.table
  {
    var at := st.table[id].completedAt;
    match a
    case Rollback(n) => id.sequence == n
    case CompletePhysical(n, elapsed) =>
      Expired(cfg, if id.sequence == n && at.None? then Some(st.clock) else at, st.clock + elapsed)
    case Reserve(_) =>
      Expired(cfg, at, st.clock) || (|Remaining(cfg, st)| >= cfg.maxRecords && FirstToGo(cfg, st, id))
    case AttachSnapshot(_) => Expired(cfg, at, st.clock)
    case ReadStatus => Expired(cfg, at, st.clock)
    case CancelRead(_, _) => Expired(cfg, at, st.clock)
    case CancelSnapshot(_) => Expired(cfg, at, st.clock)
    case _ => false
  }

  lemma CleanupIsExpiry(cfg: Config, st: State, id: JobId)
    requires Inv(cfg, st) && id in st.table
    ensures id in Cleanup(cfg, st.table, st.clock) <==> !Expired(cfg, st.table[id].completedAt, st.clock)
  {
    assert RecordOk(cfg, st, id);
    hide Consistent, Inv;
  }

  lemma RemainingIsCleanup(cfg: Config, st: State)
    requires Inv(cfg, st)
    ensures Remaining(cfg, st) == Cleanup(cfg, st.table, st.clock).Keys
  {
    hide Inv, Cleanup, Expired;
    forall id | id in st.table
      ensures id in Cleanup(cfg, st.table, st.clock) <==> !Expired(cfg, st.table[id].completedAt, st.clock)
    {
      CleanupIsExpiry(cfg, st, id);
    }
    CleanupWithin(cfg, st.table, st.clock);
  }

  lemma CleanupWithin(cfg: Config, table: Table, now: nat)
    ensures var kept := Cleanup(cfg, table, now);
      kept.Keys <= table.Keys && forall id | id in kept :: kept[id] == table[id]
  {
  }

  /** Numbers are never shared, so there is one first to go. */
  lemma OldestIsFirst(cfg: Config, st: State, id: JobId)
    requires Inv(cfg, st) && id in Cleanup(cfg, st.table, st.clock)
    ensures IsOldest(Cleanup(cfg, st.table, st.clock), id) <==> FirstToGo(cfg, st, id)
  {
    RemainingIsCleanup(cfg, st);
    CleanupWithin(cfg, st.table, st.clock);
    forall other | other in st.table ensures st.table[other].sequence == other.sequence {
      assert RecordOk(cfg, st, other);
    }
    hide Inv, Cleanup, Remaining;
  }

  lemma FirstIsUnique(cfg: Config, st: State, x: JobId, y: JobId)
    requires Inv(cfg, st) && x in Remaining(cfg, st) && y in Remaining(cfg, st)
    requires FirstToGo(cfg, st, x) && FirstToGo(cfg, st, y)
    ensures x == y
  {
    assert RecordOk(cfg, st, x) && RecordOk(cfg, st, y);
    hide Inv, Consistent, Remaining;
  }

  lemma ReserveLeaves(cfg: Config, st: State, a: Action, st': State, id: JobId)
    requires Inv(cfg, st) && a.Reserve? && Next(cfg, st, a, st') && id in st.table
    ensures id !in st'.table <==> Leaves(cfg, st, a, id)
  {
    var kept := Cleanup(cfg, st.table, st.clock);
    assert StartOk(cfg, st, a.n);
    CleanupIsExpiry(cfg, st, id);
    RemainingIsCleanup(cfg, st);
    CleanupWithin(cfg, st.table, st.clock);
    hide Inv, Cleanup, Remaining, Expired, FirstToGo, StartOk;
    assert |kept| == |kept.Keys|;
    if id in kept {
      OldestIsFirst(cfg, st, id);
      if |kept| >= cfg.maxRecords && !NoRoom(cfg, kept) {
        var record := FreshRecord(a.n, st.starts[a.n].tool, st.starts[a.n].executionId);
        var victim :| IsOldest(kept, victim) && st'.table == (kept - {victim})[Id(cfg, a.n) := record];
        OldestIsFirst(cfg, st, victim);
        if FirstToGo(cfg, st, id) { FirstIsUnique(cfg, st, id, victim); }
      }
    }
  }

  lemma PhysicalLeaves(cfg: Config, st: State, a: Action, st': State, id: JobId)
    requires Inv(cfg, st) && a.CompletePhysical? && Next(cfg, st, a, st') && id in st.table
    ensures id !in st'.table <==> Leaves(cfg, st, a, id)
  {
    assert RecordOk(cfg, st, id) && StartOk(cfg, st, a.n);
    hide Inv, Consistent;
  }

  lemma OthersLeave(cfg: Config, st: State, a: Action, st': State, id: JobId)
    requires Inv(cfg, st) && Next(cfg, st, a, st') && !a.Reserve? && !a.CompletePhysical? && id in st.table
    ensures id !in st'.table <==> Leaves(cfg, st, a, id)
  {
    CleanupIsExpiry(cfg, st, id);
    assert RecordOk(cfg, st, id);
    hide Inv, Consistent, Expired, Cleanup, Verdict;
  }

  /** A record leaves by its rollback, by expiry, or evicted as the first to go; and then it does. */
  lemma RecordLeavesIff(cfg: Config, st: State, a: Action, st': State, id: JobId)
    requires Inv(cfg, st) && Next(cfg, st, a, st') && id in st.table
    ensures id !in st'.table <==> Leaves(cfg, st, a, id)
  {
    hide Inv, Next, Leaves;
    if a.Reserve? {
      ReserveLeaves(cfg, st, a, st', id);
    } else if a.CompletePhysical? {
      PhysicalLeaves(cfg, st, a, st', id);
    } else {
      OthersLeave(cfg, st, a, st', id);
    }
  }

  // ---------------------------------------------------------------------
  // Whole runs
  // ---------------------------------------------------------------------

  predicate OfStart(a: Action) {
    a.TakeSequence? || a.Reserve? || a.Rollback? || a.RecordLifecycle? || a.AttachSnapshot? || a.CompleteLogical? ||
    a.CompletePhysical?
  }

  predicate OfCancel(a: Action) {
    a.CancelRead? || a.CancelExecutor? || a.CancelWrite? || a.CancelSnapshot?
  }

  lemma StartsStay(cfg: Config, st: State, a: Action, st': State)
    requires Next(cfg, st, a, st') && !OfStart(a)
    ensures st'.starts == st.starts && st'.nextSequence == st.nextSequence
  {
    hide LogicalTo, CancelTo, AttachTo, PhysicalTo, ReserveTo, Verdict, Cleanup;
  }

  lemma CancelsStay(cfg: Config, st: State, a: Action, st': State)
    requires Next(cfg, st, a, st') && !OfCancel(a)
    ensures st'.cancels == st.cancels
  {
    hide LogicalTo, CancelTo, AttachTo, PhysicalTo, ReserveTo, Verdict, Cleanup;
  }

  lemma SequencedStep(cfg: Config, st: State, a: Action, st': State, n: nat)
    requires Next(cfg, st, a, st') && n in st'.starts && st'.starts[n].Sequenced?
    ensures (n in st.starts && st.starts[n] == st'.starts[n]) ||
      (n == st.nextSequence && a == TakeSequence(st'.starts[n].tool, st'.starts[n].executionId))
  {
    hide LogicalTo, CancelTo, AttachTo, PhysicalTo, ReserveTo, Verdict, Cleanup;
    if !OfStart(a) {
      StartsStay(cfg, st, a, st');
      hide Next;
    }
  }

  /** A number that is waiting for its reservation was taken for that tool and execution. */
  lemma {:induction false} SequencedOrigin(cfg: Config, run: seq<State>, actions: seq<Action>, k: nat, n: nat)
      returns (i: nat)
    requires IsRun(cfg, run, actions) && k < |run| && n in run[k].starts && run[k].starts[n].Sequenced?
    ensures i < k && run[i].nextSequence == n
    ensures actions[i] == TakeSequence(run[k].starts[n].tool, run[k].starts[n].executionId)
  {
    hide Next;
    var st, a := run[k - 1], actions[k - 1];
    assert Next(cfg, st, a, run[k]);
    SequencedStep(cfg, st, a, run[k], n);
    if n in st.starts && st.starts[n] == run[k].starts[n] {
      i := SequencedOrigin(cfg, run, actions, k - 1, n);
    } else {
      i := k - 1;
    }
  }

  /** Every job in the table was started, under its number, with the tool and the execution that it shows. */
  lemma {:induction false} JobHasItsStart(cfg: Config, run: seq<State>, actions: seq<Action>, k: nat, id: JobId)
      returns (i: nat)
    requires IsRun(cfg, run, actions) && k < |run| && id in run[k].table
    ensures id.bootNonce == cfg.bootNonce && i < k && run[i].nextSequence == id.sequence
    ensures actions[i] == TakeSequence(run[k].table[id].tool, run[k].table[id].executionId)
  {
    hide Inv, Next;
    ReachableInv(cfg, run, actions, k - 1);
    var st, a := run[k - 1], actions[k - 1];
    assert Next(cfg, st, a, run[k]);
    if id in st.table {
      i := JobHasItsStart(cfg, run, actions, k - 1, id);
      RecordMoves(cfg, st, a, run[k], id);
    } else {
      RecordAppears(cfg, st, a, run[k], id);
      i := SequencedOrigin(cfg, run, actions, k - 1, id.sequence);
    }
  }

  /** A caller of `cancel` holds the execution of its job, whose number has been used up. */
  predicate CancelOk(cfg: Config, st: State, canceller: Canceller) {
    var id := canceller.jobId;
    id == Id(cfg, id.sequence) && id.sequence < st.nextSequence &&
    (id.sequence in st.starts ==> !st.starts[id.sequence].Sequenced?) &&
    (!canceller.Replying? && id in st.table ==> st.table[id].executionId == canceller.executionId)
  }

  lemma StepKeepsCancel(cfg: Config, st: State, a: Action, st': State, canceller: Canceller)
    requires Inv(cfg, st) && Next(cfg, st, a, st') && CancelOk(cfg, st, canceller)
    ensures CancelOk(cfg, st', canceller)
  {
    var id := canceller.jobId;
    NumbersStay(cfg, st, a, st', id.sequence);
    hide Inv, Next, Moves;
    if id in st'.table {
      if id in st.table {
        RecordMoves(cfg, st, a, st', id);
        SameExecution(st, a, id, st.table[id], st'.table[id]);
      } else {
        RecordAppears(cfg, st, a, st', id);
      }
    }
  }

  lemma SameExecution(st: State, a: Action, id: JobId, before: JobRecord, after: JobRecord)
    requires Moves(st, a, id, before, after)
    ensures after.executionId == before.executionId && after.tool == before.tool
  {
    hide Decides;
  }

  lemma NumbersStay(cfg: Config, st: State, a: Action, st': State, n: nat)
    requires Next(cfg, st, a, st') && n < st.nextSequence && (n in st.starts ==> !st.starts[n].Sequenced?)
    ensures n < st'.nextSequence && (n in st'.starts ==> !st'.starts[n].Sequenced?)
  {
    hide LogicalTo, CancelTo, AttachTo, PhysicalTo, ReserveTo, Verdict, Cleanup;
  }

  /** What a canceller was a step ago, or the record that it has just read. */
  lemma CancellerStep(cfg: Config, st: State, a: Action, st': State, c: nat)
    requires Inv(cfg, st) && Next(cfg, st, a, st') && c in st'.cancels
    requires c in st.cancels ==> CancelOk(cfg, st, st.cancels[c])
    ensures CancelOk(cfg, st', st'.cancels[c])
  {
    hide Inv, Next, CancelOk;
    if c in st.cancels {
      StepKeepsCancel(cfg, st, a, st', st.cancels[c]);
      CancellerMoves(cfg, st, a, st', c);
      CancelOkSame(cfg, st', st.cancels[c], st'.cancels[c]);
    } else {
      CancellerComes(cfg, st, a, st', c);
      CancellerStarts(cfg, st, a, st', c);
    }
  }

  lemma CancellerComes(cfg: Config, st: State, a: Action, st': State, c: nat)
    requires Next(cfg, st, a, st') && c in st'.cancels && c !in st.cancels
    ensures a == CancelRead(c, st'.cancels[c].jobId)
  {
    hide LogicalTo, CancelTo, AttachTo, PhysicalTo, ReserveTo, Verdict, Cleanup;
    if !OfCancel(a) {
      CancelsStay(cfg, st, a, st');
      hide Next;
    }
  }

  lemma CancellerStarts(cfg: Config, st: State, a: Action, st': State, c: nat)
    requires Inv(cfg, st) && Next(cfg, st, a, st') && c in st'.cancels && a == CancelRead(c, st'.cancels[c].jobId)
    ensures CancelOk(cfg, st', st'.cancels[c])
  {
    var id := st'.cancels[c].jobId;
    CleanupWithin(cfg, st.table, st.clock);
    hide Consistent, Cleanup;
    assert RecordOk(cfg, st, id);
    if id.sequence in st.starts { assert StartOk(cfg, st, id.sequence); }
  }

  lemma CancellerMoves(cfg: Config, st: State, a: Action, st': State, c: nat)
    requires Next(cfg, st, a, st') && c in st.cancels && c in st'.cancels
    ensures st'.cancels[c].jobId == st.cancels[c].jobId
    ensures !st'.cancels[c].Replying? ==>
      !st.cancels[c].Replying? && st'.cancels[c].executionId == st.cancels[c].executionId
  {
    hide LogicalTo, CancelTo, AttachTo, PhysicalTo, ReserveTo, Verdict, Cleanup;
    if !OfCancel(a) {
      CancelsStay(cfg, st, a, st');
      hide Next;
    }
  }

  lemma CancelOkSame(cfg: Config, st: State, x: Canceller, y: Canceller)
    requires CancelOk(cfg, st, x) && y.jobId == x.jobId
    requires !y.Replying? ==> !x.Replying? && y.executionId == x.executionId
    ensures CancelOk(cfg, st, y)
  {
  }

  lemma {:induction false} CancellersOk(cfg: Config, run: seq<State>, actions: seq<Action>, k: nat, c: nat)
    requires IsRun(cfg, run, actions) && k < |run| && c in run[k].cancels
    ensures CancelOk(cfg, run[k], run[k].cancels[c])
  {
    hide Inv, Next, CancelOk;
    ReachableInv(cfg, run, actions, k - 1);
    assert Next(cfg, run[k - 1], actions[k - 1], run[k]);
    if c in run[k - 1].cancels { CancellersOk(cfg, run, actions, k - 1, c); }
    CancellerStep(cfg, run[k - 1], actions[k - 1], run[k], c);
  }

  /** Step `i` found the job of `id` Running, and gave it the verdict that `r` shows. */
  ghost predicate Wrote(run: seq<State>, actions: seq<Action>, i: nat, id: JobId, r: JobRecord)
    requires |run| == |actions| + 1
  {
    i < |actions| && id in run[i].table && run[i].table[id].status == Running && Targets(run[i], actions[i], id) &&
    id in run[i + 1].table && Decides(run[i], actions[i], run[i + 1].table[id]) &&
    run[i + 1].table[id].status == r.status && run[i + 1].table[id].response == r.response
  }

  /**
   Every verdict in the table was written by one step, of the worker or of a caller of
   `cancel` whom the executor told that it accepted; the latter names the job's own
   execution.
   */
  lemma {:induction false} VerdictHasItsWriter(
    cfg: Config, run: seq<State>, actions: seq<Action>, k: nat, id: JobId)
      returns (i: nat)
    requires IsRun(cfg, run, actions) && k < |run| && id in run[k].table && run[k].table[id].status != Running
    ensures i < k && Wrote(run, actions, i, id, run[k].table[id])
    ensures actions[i].CancelWrite? ==>
      run[k].table[id].response == Some(Response(false, CancelledDiagnostic(run[k].table[id].executionId)))
  {
    hide Inv, Next, Moves, Decides;
    ReachableInv(cfg, run, actions, k - 1);
    var st, a := run[k - 1], actions[k - 1];
    assert Next(cfg, st, a, run[k]);
    if id !in st.table {
      RecordAppears(cfg, st, a, run[k], id);
      assert false;
    }
    RecordMoves(cfg, st, a, run[k], id);
    MovesVerdict(st, a, id, st.table[id], run[k].table[id]);
    SameExecution(st, a, id, st.table[id], run[k].table[id]);
    if st.table[id].status != Running {
      i := VerdictHasItsWriter(cfg, run, actions, k - 1, id);
    } else {
      i := k - 1;
      if a.CancelWrite? {
        CancellersOk(cfg, run, actions, k - 1, a.c);
        CancelNames(st, a, run[k].table[id]);
      }
    }
  }

  lemma MovesVerdict(st: State, a: Action, id: JobId, before: JobRecord, after: JobRecord)
    requires Moves(st, a, id, before, after)
    ensures before.status == Running && after.status != Running ==> Targets(st, a, id) && Decides(st, a, after)
    ensures before.status != Running ==> after.status == before.status && after.response == before.response
  {
    hide Decides;
  }

  lemma CancelNames(st: State, a: Action, after: JobRecord)
    requires a.CancelWrite? && Decides(st, a, after)
    ensures a.c in st.cancels && st.cancels[a.c].Accepted?
    ensures after.response == Some(Response(false, CancelledDiagnostic(st.cancels[a.c].executionId)))
  {
  }

  lemma AcceptedStep(cfg: Config, st: State, a: Action, st': State, c: nat)
    requires Next(cfg, st, a, st') && c in st'.cancels && st'.cancels[c].Accepted?
    ensures c in st.cancels
    ensures var before, after := st.cancels[c], st'.cancels[c];
      before == after ||
      (a == CancelExecutor(c, true) && before == Asking(after.jobId, after.executionId, after.lifecycle))
  {
    hide LogicalTo, CancelTo, AttachTo, PhysicalTo, ReserveTo, Verdict, Cleanup;
    if !OfCancel(a) {
      CancelsStay(cfg, st, a, st');
      hide Next;
    }
  }

  /** Whoever writes a cancellation asked the executor for this job, and was told that it accepted. */
  lemma {:induction false} AcceptedWasTold(cfg: Config, run: seq<State>, actions: seq<Action>, k: nat, c: nat)
      returns (i: nat)
    requires IsRun(cfg, run, actions) && k < |run| && c in run[k].cancels && run[k].cancels[c].Accepted?
    ensures i < k && actions[i] == CancelExecutor(c, true) && c in run[i].cancels
    ensures var (asking, told) := (run[i].cancels[c], run[k].cancels[c]);
      asking.Asking? && asking.jobId == told.jobId && asking.executionId == told.executionId &&
      asking.lifecycle == told.lifecycle
  {
    hide Next;
    var st, a := run[k - 1], actions[k - 1];
    assert Next(cfg, st, a, run[k]);
    AcceptedStep(cfg, st, a, run[k], c);
    if c in st.cancels && st.cancels[c] == run[k].cancels[c] {
      i := AcceptedWasTold(cfg, run, actions, k - 1, c);
    } else {
      i := k - 1;
    }
  }

  /** The job is gone for good, or it has its verdict. */
  predicate Settled(cfg: Config, st: State, id: JobId) {
    id == Id(cfg, id.sequence) && id.sequence < st.nextSequence &&
    (id.sequence in st.starts ==> !st.starts[id.sequence].Sequenced?) &&
    (id in st.table ==> st.table[id].status != Running)
  }

  lemma StepKeepsSettled(cfg: Config, st: State, a: Action, st': State, id: JobId)
    requires Inv(cfg, st) && Next(cfg, st, a, st') && Settled(cfg, st, id)
    ensures Settled(cfg, st', id)
  {
    NumbersStay(cfg, st, a, st', id.sequence);
    hide Inv, Next, Moves;
    if id in st'.table {
      if id in st.table {
        RecordMoves(cfg, st, a, st', id);
        MovesVerdict(st, a, id, st.table[id], st'.table[id]);
      } else {
        RecordAppears(cfg, st, a, st', id);
      }
    }
  }

  lemma WriteSettles(cfg: Config, st: State, a: Action, st': State)
    requires Inv(cfg, st) && a.CancelWrite? && Next(cfg, st, a, st')
    requires a.c in st.cancels ==> CancelOk(cfg, st, st.cancels[a.c])
    ensures a.c in st.cancels && Settled(cfg, st', st.cancels[a.c].jobId)
  {
    var id := st.cancels[a.c].jobId;
    NumbersStay(cfg, st, a, st', id.sequence);
    if id in st.table && id in st'.table {
      CancelMoves(cfg, st, a, st', id);
      hide Moves;
      CancelSettles(st, a, id, st.table[id], st'.table[id]);
    }
  }

  /** A cancellation that the executor accepted never leaves its job Running, and no later reply says so. */
  lemma {:induction false} AcceptedCancelSettles(
    cfg: Config, run: seq<State>, actions: seq<Action>, i: nat, j: nat, c: nat, isDraining: bool)
    requires IsRun(cfg, run, actions) && i < j < |run| && actions[i] == CancelWrite(c, isDraining)
    ensures c in run[i].cancels && Settled(cfg, run[j], run[i].cancels[c].jobId)
    decreases j
  {
    hide Inv, Next, Settled, CancelOk, Init;
    ReachableInv(cfg, run, actions, j - 1);
    assert Next(cfg, run[j - 1], actions[j - 1], run[j]);
    if i + 1 < j {
      AcceptedCancelSettles(cfg, run, actions, i, j - 1, c, isDraining);
      StepKeepsSettled(cfg, run[j - 1], actions[j - 1], run[j], run[i].cancels[c].jobId);
    } else {
      if c in run[i].cancels { CancellersOk(cfg, run, actions, i, c); }
      WriteSettles(cfg, run[i], actions[i], run[j]);
    }
  }

  lemma CancelSettles(st: State, a: Action, id: JobId, before: JobRecord, after: JobRecord)
    requires a.CancelWrite? && a.c in st.cancels && st.cancels[a.c].jobId == id && Moves(st, a, id, before, after)
    ensures after.status != Running
  {
  }
}
