/**
 The job protocol as a transition system: any number of `job.start` callers,
 detached workers, racing `job.cancel` callers and status readers, interleaved
 at the registry's lock. The executor's answers, the observed results and the
 clock are chosen freely by each step.
 */
module JobProtocol {
  import opened Wrappers
  import opened Jobs

  /**
   Where a started job stands between two critical sections. The caller of
   `job.start` is `Sequenced` once it has its number, `Holding` while it owns the
   reservation and submits, `Attaching` between the two halves of `attach`. Then
   the detached worker is `Observing` until the logical and `Releasing` until the
   physical completion.
   */
  datatype Phase = Sequenced(tool: string, executionId: string) | Holding | Attaching | Observing | Releasing

  /** A `job.cancel` caller between two critical sections. */
  datatype Canceller =
    | Asking(jobId: JobId, executionId: string, lifecycle: Option<string>)
    | Accepted(jobId: JobId, executionId: string, lifecycle: Option<string>)
    | Replying(jobId: JobId)

  /** Started jobs are named by their sequence number, cancellers by any number. */
  datatype State = State(
    table: Table,
    nextSequence: nat,
    clock: nat,
    starts: map<nat, Phase>,
    cancels: map<nat, Canceller>)

  datatype Action =
    | TakeSequence(tool: string, executionId: string)
    | Reserve(n: nat)
    | Rollback(n: nat)
    | RecordLifecycle(n: nat, lifecycle: string)
    | AttachSnapshot(n: nat)
    | CompleteLogical(n: nat, observed: Observed, requestId: string, isDraining: bool)
    | CompletePhysical(n: nat, elapsed: nat)
    | ReadStatus
    | CancelRead(c: nat, jobId: JobId)
    | CancelExecutor(c: nat, accepted: bool)
    | CancelWrite(c: nat, isDraining: bool)
    | CancelSnapshot(c: nat)
    | Tick(elapsed: nat)

  function Id(cfg: Config, n: nat): JobId {
    JobId(cfg.bootNonce, n)
  }

  ghost predicate Init(st: State) {
    st.table == map[] && st.nextSequence == 1 && st.starts == map[] && st.cancels == map[]
  }

  /** One atomic step. */
  ghost predicate Next(cfg: Config, st: State, a: Action, st': State) {
    match a
    case TakeSequence(tool, executionId) =>
      st' == st.(
        nextSequence := st.nextSequence + 1,
        starts := st.starts[st.nextSequence := Sequenced(tool, executionId)])
    case Reserve(n) =>
      n in st.starts && st.starts[n].Sequenced? &&
      var record := FreshRecord(n, st.starts[n].tool, st.starts[n].executionId);
      ReserveTo(cfg, st.table, st.clock, Id(cfg, n), record, st'.table) &&
      st' == st.(
        table := st'.table,
        starts := if NoRoom(cfg, Cleanup(cfg, st.table, st.clock)) then st.starts - {n} else st.starts[n := Holding])
    case Rollback(n) =>
      n in st.starts && st.starts[n].Holding? &&
      st' == st.(table := st.table - {Id(cfg, n)}, starts := st.starts - {n})
    case RecordLifecycle(n, lifecycle) =>
      n in st.starts && st.starts[n].Holding? &&
      st' == st.(table := AttachTo(st.table, Id(cfg, n), lifecycle), starts := st.starts[n := Attaching])
    case AttachSnapshot(n) =>
      n in st.starts && st.starts[n].Attaching? &&
      st' == st.(table := Cleanup(cfg, st.table, st.clock), starts := st.starts[n := Observing])
    case CompleteLogical(n, observed, requestId, isDraining) =>
      n in st.starts && st.starts[n].Observing? &&
      var (status, response) := Verdict(observed, requestId);
      st' == st.(
        table := LogicalTo(st.table, Id(cfg, n), status, response, VerdictDraining(status, isDraining)),
        starts := st.starts[n := Releasing])
    case CompletePhysical(n, elapsed) =>
      n in st.starts && st.starts[n].Releasing? &&
      st' == st.(
        table := PhysicalTo(cfg, st.table, Id(cfg, n), st.clock, st.clock + elapsed),
        clock := st.clock + elapsed,
        starts := st.starts - {n})
    case ReadStatus =>
      st' == st.(table := Cleanup(cfg, st.table, st.clock))
    case CancelRead(c, id) =>
      c !in st.cancels &&
      var kept := Cleanup(cfg, st.table, st.clock);
      st' == st.(
        table := kept,
        cancels :=
          if id !in kept then st.cancels
          else if kept[id].status == Running then st.cancels[c := Asking(id, kept[id].executionId, kept[id].lifecycle)]
          else st.cancels[c := Replying(id)])
    case CancelExecutor(c, accepted) =>
      c in st.cancels && st.cancels[c].Asking? &&
      var Asking(id, executionId, lifecycle) := st.cancels[c];
      st' == st.(cancels := st.cancels[c := if accepted then Accepted(id, executionId, lifecycle) else Replying(id)])
    case CancelWrite(c, isDraining) =>
      c in st.cancels && st.cancels[c].Accepted? &&
      var Accepted(id, executionId, lifecycle) := st.cancels[c];
      st' == st.(
        table := CancelTo(st.table, id, executionId, lifecycle.Some? && isDraining),
        cancels := st.cancels[c := Replying(id)])
    case CancelSnapshot(c) =>
      c in st.cancels && st.cancels[c].Replying? &&
      st' == st.(table := Cleanup(cfg, st.table, st.clock), cancels := st.cancels - {c})
    case Tick(elapsed) =>
      st' == st.(clock := st.clock + elapsed)
  }

  ghost predicate IsRun(cfg: Config, run: seq<State>, actions: seq<Action>) {
    |run| == |actions| + 1 && Init(run[0]) &&
    forall k | 0 <= k < |actions| :: Next(cfg, run[k], actions[k], run[k + 1])
  }

  // ---------------------------------------------------------------------
  // The invariant
  // ---------------------------------------------------------------------

  /** What every reader of a record relies on. */
  predicate Consistent(r: JobRecord) {
    (r.response.Some? <==> r.status != Running) &&
    (r.response.Some? ==> (r.status == Succeeded <==> r.response.value.success)) &&
    (r.draining ==> r.status == Cancelled || r.status == TimedOut) &&
    (r.completedAt.Some? ==> r.status != Running && !r.draining)
  }

  /** A record is live, with its starter or worker at hand, until it is stamped. */
  predicate RecordOk(cfg: Config, st: State, id: JobId)
    requires id in st.table
  {
    var r := st.table[id];
    Consistent(r) && id == Id(cfg, r.sequence) && r.sequence < st.nextSequence &&
    (r.completedAt.Some? ==> r.completedAt.value <= st.clock) &&
    (r.completedAt.None? <==> r.sequence in st.starts)
  }

  predicate StartOk(cfg: Config, st: State, n: nat)
    requires n in st.starts
  {
    n < st.nextSequence &&
    (Id(cfg, n) in st.table <==> !st.starts[n].Sequenced?) &&
    (st.starts[n].Releasing? ==> st.table[Id(cfg, n)].status != Running)
  }

  ghost predicate Inv(cfg: Config, st: State) {
    |st.table| <= cfg.maxRecords &&
    (forall id | id in st.table :: RecordOk(cfg, st, id)) &&
    (forall n | n in st.starts :: StartOk(cfg, st, n))
  }

  lemma StepKeepsInv(cfg: Config, st: State, a: Action, st': State)
    requires Inv(cfg, st) && Next(cfg, st, a, st')
    ensures Inv(cfg, st')
  {
    hide Inv, Next, InPlace;
    match a
    case Reserve(_) => ReserveKeepsInv(cfg, st, a, st');
    case Rollback(_) => RollbackKeepsInv(cfg, st, a, st');
    case CompletePhysical(_, _) => PhysicalKeepsInv(cfg, st, a, st');
    case RecordLifecycle(_, _) => RewriteInPlace(cfg, st, a, st'); InPlaceKeepsInv(cfg, st, st');
    case CompleteLogical(_, _, _, _) => RewriteInPlace(cfg, st, a, st'); InPlaceKeepsInv(cfg, st, st');
    case CancelWrite(_, _) => RewriteInPlace(cfg, st, a, st'); InPlaceKeepsInv(cfg, st, st');
    case AttachSnapshot(_) => ExpiryKeepsInv(cfg, st, a, st');
    case ReadStatus => ExpiryKeepsInv(cfg, st, a, st');
    case CancelRead(_, _) => ExpiryKeepsInv(cfg, st, a, st');
    case CancelSnapshot(_) => ExpiryKeepsInv(cfg, st, a, st');
    case TakeSequence(_, _) => TakeSequenceKeepsInv(cfg, st, a, st');
    case CancelExecutor(_, _) => QuietKeepsInv(cfg, st, a, st');
    case Tick(_) => QuietKeepsInv(cfg, st, a, st');
  }

  lemma TakeSequenceKeepsInv(cfg: Config, st: State, a: Action, st': State)
    requires Inv(cfg, st) && a.TakeSequence? && Next(cfg, st, a, st')
    ensures Inv(cfg, st')
  {
    forall id | id in st'.table ensures RecordOk(cfg, st', id) {
      assert RecordOk(cfg, st, id);
    }
    forall n | n in st'.starts ensures StartOk(cfg, st', n) {
      assert n == st.nextSequence || StartOk(cfg, st, n);
    }
  }

  /** Steps that leave the table and the starts alone. */
  lemma QuietKeepsInv(cfg: Config, st: State, a: Action, st': State)
    requires Inv(cfg, st) && (a.CancelExecutor? || a.Tick?) && Next(cfg, st, a, st')
    ensures Inv(cfg, st')
  {
    forall id | id in st'.table ensures RecordOk(cfg, st', id) {
      assert RecordOk(cfg, st, id);
    }
    forall n | n in st'.starts ensures StartOk(cfg, st', n) {
      assert StartOk(cfg, st, n);
    }
  }

  lemma RollbackKeepsInv(cfg: Config, st: State, a: Action, st': State)
    requires Inv(cfg, st) && a.Rollback? && Next(cfg, st, a, st')
    ensures Inv(cfg, st')
  {
    RemoveSize(st.table, Id(cfg, a.n));
    forall id | id in st'.table ensures RecordOk(cfg, st', id) {
      assert RecordOk(cfg, st, id);
    }
    forall n | n in st'.starts ensures StartOk(cfg, st', n) {
      assert StartOk(cfg, st, n);
    }
  }

  /** A record rewritten in place: same job, consistent, and a verdict stands. */
  predicate Refines(before: JobRecord, after: JobRecord) {
    && after.sequence == before.sequence
    && after.completedAt == before.completedAt
    && Consistent(after)
    && (before.status != Running ==>
      after.status == before.status && after.response == before.response && (after.draining ==> before.draining))
  }

  ghost predicate TableRefines(before: Table, after: Table) {
    after.Keys == before.Keys && |after| == |before| && forall id | id in before :: Refines(before[id], after[id])
  }

  lemma AttachRefines(table: Table, id: JobId, lifecycle: string)
    requires forall other | other in table :: Consistent(table[other])
    ensures TableRefines(table, AttachTo(table, id, lifecycle))
  {
  }

  lemma CancelRefines(table: Table, id: JobId, executionId: string, draining: bool)
    requires forall other | other in table :: Consistent(table[other])
    ensures TableRefines(table, CancelTo(table, id, executionId, draining))
  {
  }

  lemma LogicalRefines(table: Table, id: JobId, observed: Observed, requestId: string, isDraining: bool)
    requires forall other | other in table :: Consistent(table[other])
    ensures var (status, response) := Verdict(observed, requestId);
      var after := LogicalTo(table, id, status, response, VerdictDraining(status, isDraining));
      TableRefines(table, after) && (id in after ==> after[id].status != Running)
  {
    hide Verdict;
  }

  /** The phase is kept, or moves on between phases that have a record in the table. */
  predicate PhaseOk(cfg: Config, st: State, st': State, n: nat)
    requires n in st.starts && n in st'.starts
  {
    var id := Id(cfg, n);
    || st'.starts[n] == st.starts[n]
    || (!st.starts[n].Sequenced? && !st'.starts[n].Sequenced? &&
        (st'.starts[n].Releasing? && id in st'.table ==> st'.table[id].status != Running))
  }

  /** Steps that only rewrite records in place. */
  ghost predicate InPlace(cfg: Config, st: State, st': State) {
    && TableRefines(st.table, st'.table)
    && st'.nextSequence == st.nextSequence && st'.clock == st.clock && st'.starts.Keys == st.starts.Keys
    && forall n | n in st.starts :: PhaseOk(cfg, st, st', n)
  }

  lemma InPlaceKeepsInv(cfg: Config, st: State, st': State)
    requires Inv(cfg, st) && InPlace(cfg, st, st')
    ensures Inv(cfg, st')
  {
    hide Consistent;
    forall id | id in st'.table ensures RecordOk(cfg, st', id) {
      assert RecordOk(cfg, st, id) && Refines(st.table[id], st'.table[id]);
    }
    forall n | n in st'.starts ensures StartOk(cfg, st', n) {
      assert StartOk(cfg, st, n) && n in st.starts;
      var id := Id(cfg, n);
      if id in st.table { assert Refines(st.table[id], st'.table[id]); }
    }
  }

  lemma InvIsConsistent(cfg: Config, st: State)
    requires Inv(cfg, st)
    ensures forall id | id in st.table :: Consistent(st.table[id])
  {
    hide Consistent;
    forall id | id in st.table ensures Consistent(st.table[id]) { assert RecordOk(cfg, st, id); }
  }

  predicate Rewrites(a: Action) {
    a.CompleteLogical? || a.CancelWrite? || a.RecordLifecycle?
  }

  lemma LogicalInPlace(cfg: Config, st: State, a: Action, st': State)
    requires Inv(cfg, st) && a.CompleteLogical? && Next(cfg, st, a, st')
    ensures InPlace(cfg, st, st')
  {
    InvIsConsistent(cfg, st);
    LogicalRefines(st.table, Id(cfg, a.n), a.observed, a.requestId, a.isDraining);
    hide Inv, TableRefines, LogicalTo, Verdict, VerdictDraining, Consistent;
  }

  lemma CancelInPlace(cfg: Config, st: State, a: Action, st': State)
    requires Inv(cfg, st) && a.CancelWrite? && Next(cfg, st, a, st')
    ensures InPlace(cfg, st, st')
  {
    InvIsConsistent(cfg, st);
    hide Inv, TableRefines, CancelTo, Consistent;
    var Accepted(id, executionId, lifecycle) := st.cancels[a.c];
    CancelRefines(st.table, id, executionId, lifecycle.Some? && a.isDraining);
  }

  lemma LifecycleInPlace(cfg: Config, st: State, a: Action, st': State)
    requires Inv(cfg, st) && a.RecordLifecycle? && Next(cfg, st, a, st')
    ensures InPlace(cfg, st, st')
  {
    InvIsConsistent(cfg, st);
    hide Inv, TableRefines, AttachTo, Consistent;
    AttachRefines(st.table, Id(cfg, a.n), a.lifecycle);
  }

  lemma RewriteInPlace(cfg: Config, st: State, a: Action, st': State)
    requires Inv(cfg, st) && Rewrites(a) && Next(cfg, st, a, st')
    ensures InPlace(cfg, st, st')
  {
    hide Inv, Next, InPlace;
    if a.CompleteLogical? {
      LogicalInPlace(cfg, st, a, st');
    } else if a.CancelWrite? {
      CancelInPlace(cfg, st, a, st');
    } else {
      LifecycleInPlace(cfg, st, a, st');
    }
  }

  lemma CleanupAt(cfg: Config, table: Table, now: nat, id: JobId)
    ensures var kept := Cleanup(cfg, table, now);
      && (id in kept ==> id in table && kept[id] == table[id])
      && (id in table && table[id].completedAt.None? ==> id in kept)
  {
  }

  /** The step's only effect on the table is an expiry pass. */
  ghost predicate Expires(cfg: Config, st: State, st': State) {
    && st'.table == Cleanup(cfg, st.table, st.clock)
    && st'.nextSequence == st.nextSequence && st'.clock == st.clock && st'.starts.Keys == st.starts.Keys
    && forall n | n in st.starts :: PhaseOk(cfg, st, st', n)
  }

  lemma ExpiresKeepsInv(cfg: Config, st: State, st': State)
    requires Inv(cfg, st) && Expires(cfg, st, st')
    ensures Inv(cfg, st')
  {
    hide Consistent, Cleanup;
    forall id | id in st'.table ensures RecordOk(cfg, st', id) {
      CleanupAt(cfg, st.table, st.clock, id);
      assert RecordOk(cfg, st, id);
    }
    forall n | n in st'.starts ensures StartOk(cfg, st', n) {
      assert n in st.starts && StartOk(cfg, st, n) && PhaseOk(cfg, st, st', n);
      CleanupAt(cfg, st.table, st.clock, Id(cfg, n));
      if Id(cfg, n) in st.table { assert RecordOk(cfg, st, Id(cfg, n)); }
    }
  }

  lemma ExpiryKeepsInv(cfg: Config, st: State, a: Action, st': State)
    requires Inv(cfg, st) && Next(cfg, st, a, st')
    requires a.AttachSnapshot? || a.ReadStatus? || a.CancelRead? || a.CancelSnapshot?
    ensures Inv(cfg, st')
  {
    assert Expires(cfg, st, st') by { hide Inv, Cleanup; }
    hide Next, Inv, Expires;
    ExpiresKeepsInv(cfg, st, st');
  }

  lemma ReserveKeepsInv(cfg: Config, st: State, a: Action, st': State)
    requires Inv(cfg, st) && a.Reserve? && Next(cfg, st, a, st')
    ensures Inv(cfg, st')
  {
    var kept := Cleanup(cfg, st.table, st.clock);
    if NoRoom(cfg, kept) {
      forall id | id in st'.table ensures RecordOk(cfg, st', id) {
        assert RecordOk(cfg, st, id);
      }
      forall n | n in st'.starts ensures StartOk(cfg, st', n) {
        assert StartOk(cfg, st, n);
      }
    } else {
      var room := ReserveRoom(cfg, st.table, st.clock, Id(cfg, a.n), st'.table[Id(cfg, a.n)], st'.table);
      InsertKeepsInv(cfg, st, a.n, room, st');
    }
  }

  /** The table a reservation inserts into: at most one completed record short. */
  lemma ReserveRoom(cfg: Config, table: Table, now: nat, id: JobId, record: JobRecord, table': Table)
      returns (room: Table)
    requires |table| <= cfg.maxRecords
    requires ReserveTo(cfg, table, now, id, record, table') && !NoRoom(cfg, Cleanup(cfg, table, now))
    ensures |room| < cfg.maxRecords && table' == room[id := record]
    ensures forall other | other in room :: other in table && room[other] == table[other]
    ensures forall other | other in table && table[other].completedAt.None? :: other in room
  {
    var kept := Cleanup(cfg, table, now);
    room := kept;
    if |kept| >= cfg.maxRecords {
      var victim :| IsOldest(kept, victim) && table' == (kept - {victim})[id := record];
      RemoveSize(kept, victim);
      room := kept - {victim};
    }
  }

  /** Inserting into a table that has room and still holds every live record. */
  lemma InsertKeepsInv(cfg: Config, st: State, n: nat, room: Table, st': State)
    requires Inv(cfg, st) && n in st.starts && st.starts[n].Sequenced?
    requires |room| < cfg.maxRecords
    requires forall id | id in room :: id in st.table && room[id] == st.table[id]
    requires forall id | id in st.table && st.table[id].completedAt.None? :: id in room
    requires st' == st.(
      table := room[Id(cfg, n) := FreshRecord(n, st.starts[n].tool, st.starts[n].executionId)],
      starts := st.starts[n := Holding])
    ensures Inv(cfg, st')
  {
    assert st'.table.Keys == room.Keys + {Id(cfg, n)};
    assert |st'.table| == |st'.table.Keys|;
    forall id | id in st'.table ensures RecordOk(cfg, st', id) {
      assert id == Id(cfg, n) || RecordOk(cfg, st, id);
    }
    forall m | m in st'.starts ensures StartOk(cfg, st', m) {
      assert StartOk(cfg, st, m);
    }
  }

  lemma PhysicalSize(cfg: Config, table: Table, id: JobId, at: nat, now: nat)
    ensures |PhysicalTo(cfg, table, id, at, now)| <= |table|
  {
    if id in table { SameSize(table); }
  }

  lemma PhysicalAt(cfg: Config, table: Table, id: JobId, at: nat, now: nat, other: JobId)
    ensures var after := PhysicalTo(cfg, table, id, at, now);
      && (other in after ==> other in table)
      && (other in table && other != id && table[other].completedAt.None? ==> other in after)
      && (other in after && other != id ==> after[other] == table[other])
      && (other in after && other == id ==> Stamped(table[id], after[id], at))
  {
  }

  predicate Stamped(before: JobRecord, after: JobRecord, at: nat) {
    after.sequence == before.sequence && !after.draining && after.status == before.status &&
    after.response == before.response &&
    after.completedAt == if before.completedAt.None? then Some(at) else before.completedAt
  }

  lemma PhysicalRecord(cfg: Config, st: State, a: Action, st': State, other: JobId)
    requires Inv(cfg, st) && a.CompletePhysical? && Next(cfg, st, a, st') && other in st'.table
    ensures RecordOk(cfg, st', other)
  {
    assert StartOk(cfg, st, a.n);
    PhysicalAt(cfg, st.table, Id(cfg, a.n), st.clock, st.clock + a.elapsed, other);
    assert RecordOk(cfg, st, other);
    hide PhysicalTo, Inv, StartOk;
  }

  lemma PhysicalStart(cfg: Config, st: State, a: Action, st': State, n: nat)
    requires Inv(cfg, st) && a.CompletePhysical? && Next(cfg, st, a, st') && n in st'.starts
    ensures StartOk(cfg, st', n)
  {
    PhysicalAt(cfg, st.table, Id(cfg, a.n), st.clock, st.clock + a.elapsed, Id(cfg, n));
    assert StartOk(cfg, st, n);
    if Id(cfg, n) in st.table { StandingNumber(cfg, st, n); }
    hide PhysicalTo, Inv;
  }

  lemma PhysicalKeepsInv(cfg: Config, st: State, a: Action, st': State)
    requires Inv(cfg, st) && a.CompletePhysical? && Next(cfg, st, a, st')
    ensures Inv(cfg, st')
  {
    hide PhysicalTo, RecordOk, StartOk;
    PhysicalSize(cfg, st.table, Id(cfg, a.n), st.clock, st.clock + a.elapsed);
    forall other | other in st'.table ensures RecordOk(cfg, st', other) { PhysicalRecord(cfg, st, a, st', other); }
    forall n | n in st'.starts ensures StartOk(cfg, st', n) { PhysicalStart(cfg, st, a, st', n); }
  }

  /** Every reachable state, under every interleaving, satisfies the invariant. */
  lemma {:induction false} ReachableInv(cfg: Config, run: seq<State>, actions: seq<Action>, k: nat)
    requires IsRun(cfg, run, actions) && k < |run|
    ensures Inv(cfg, run[k])
  {
    if k > 0 {
      ReachableInv(cfg, run, actions, k - 1);
      StepKeepsInv(cfg, run[k - 1], actions[k - 1], run[k]);
    }
  }

  // ---------------------------------------------------------------------
  // What never changes back
  // ---------------------------------------------------------------------

  /** The job's record is gone and its number has no holder left. */
  predicate Retired(cfg: Config, st: State, n: nat) {
    n < st.nextSequence && n !in st.starts && Id(cfg, n) !in st.table
  }

  /** The verdict of `r` still stands in `st`; draining may only have ended. */
  predicate Stands(cfg: Config, st: State, n: nat, r: JobRecord) {
    Id(cfg, n) in st.table &&
    var now := st.table[Id(cfg, n)];
    now.status == r.status && now.response == r.response && (now.draining ==> r.draining)
  }

  lemma StepKeepsRetired(cfg: Config, st: State, a: Action, st': State, n: nat)
    requires Inv(cfg, st) && Next(cfg, st, a, st') && Retired(cfg, st, n)
    ensures Retired(cfg, st', n)
  {
    if a.Reserve? && !NoRoom(cfg, Cleanup(cfg, st.table, st.clock)) {
      var room := ReserveRoom(cfg, st.table, st.clock, Id(cfg, a.n), st'.table[Id(cfg, a.n)], st'.table);
    }
  }

  lemma StepKeepsVerdict(cfg: Config, st: State, a: Action, st': State, n: nat, r: JobRecord)
    requires Inv(cfg, st) && Next(cfg, st, a, st')
    requires r.status != Running && Stands(cfg, st, n, r)
    ensures Stands(cfg, st', n, r) || Retired(cfg, st', n)
  {
    hide Inv, Next, Stands, Retired;
    if Rewrites(a) {
      RewriteKeepsVerdict(cfg, st, a, st', n, r);
    } else if a.CompletePhysical? {
      PhysicalKeepsVerdict(cfg, st, a, st', n, r);
    } else if a.Reserve? {
      ReserveKeepsVerdict(cfg, st, a, st', n, r);
    } else {
      OtherKeepsVerdict(cfg, st, a, st', n, r);
    }
  }

  lemma RewriteKeepsVerdict(cfg: Config, st: State, a: Action, st': State, n: nat, r: JobRecord)
    requires Inv(cfg, st) && Rewrites(a) && Next(cfg, st, a, st')
    requires r.status != Running && Stands(cfg, st, n, r)
    ensures Stands(cfg, st', n, r)
  {
    RewriteInPlace(cfg, st, a, st');
    hide Inv, Next, Consistent;
    assert Refines(st.table[Id(cfg, n)], st'.table[Id(cfg, n)]);
  }

  lemma PhysicalKeepsVerdict(cfg: Config, st: State, a: Action, st': State, n: nat, r: JobRecord)
    requires Inv(cfg, st) && a.CompletePhysical? && Next(cfg, st, a, st')
    requires r.status != Running && Stands(cfg, st, n, r)
    ensures Stands(cfg, st', n, r) || Retired(cfg, st', n)
  {
    hide Inv, RecordOk, Consistent, PhysicalTo;
    PhysicalAt(cfg, st.table, Id(cfg, a.n), st.clock, st.clock + a.elapsed, Id(cfg, n));
    StandingNumber(cfg, st, n);
  }

  /** A record in the table has a number already taken; completed, it has no starter left. */
  lemma StandingNumber(cfg: Config, st: State, n: nat)
    requires Inv(cfg, st) && Id(cfg, n) in st.table
    ensures n < st.nextSequence && (st.table[Id(cfg, n)].completedAt.None? <==> n in st.starts)
  {
    hide Consistent;
    assert RecordOk(cfg, st, Id(cfg, n));
  }

  lemma ReserveKeepsVerdict(cfg: Config, st: State, a: Action, st': State, n: nat, r: JobRecord)
    requires Inv(cfg, st) && a.Reserve? && Next(cfg, st, a, st')
    requires r.status != Running && Stands(cfg, st, n, r)
    ensures Stands(cfg, st', n, r) || Retired(cfg, st', n)
  {
    StandingNumber(cfg, st, n);
    assert StartOk(cfg, st, a.n);
    if !NoRoom(cfg, Cleanup(cfg, st.table, st.clock)) {
      var room := ReserveRoom(cfg, st.table, st.clock, Id(cfg, a.n), st'.table[Id(cfg, a.n)], st'.table);
    }
    hide Inv, RecordOk, StartOk;
  }

  lemma OtherKeepsVerdict(cfg: Config, st: State, a: Action, st': State, n: nat, r: JobRecord)
    requires Inv(cfg, st) && Next(cfg, st, a, st') && !Rewrites(a) && !a.CompletePhysical? && !a.Reserve?
    requires r.status != Running && Stands(cfg, st, n, r)
    ensures Stands(cfg, st', n, r) || Retired(cfg, st', n)
  {
    StandingNumber(cfg, st, n);
    hide Inv, LogicalTo, CancelTo, AttachTo, PhysicalTo, ReserveTo, Verdict;
  }

  /**
   The first terminal writer wins. Once a job has left `Running`, its status and
   response never change again, whichever of `cancel` and the worker came first
   and however they interleave; when the record goes, the id never returns.
   */
  lemma {:induction false} VerdictIsFinal(cfg: Config, run: seq<State>, actions: seq<Action>, i: nat, j: nat, n: nat)
    requires IsRun(cfg, run, actions) && i <= j < |run|
    requires Id(cfg, n) in run[i].table && run[i].table[Id(cfg, n)].status != Running
    ensures Stands(cfg, run[j], n, run[i].table[Id(cfg, n)]) || Retired(cfg, run[j], n)
    decreases j
  {
    hide Next, Inv, Stands, Retired, Init;
    if i == j {
      StandsItself(cfg, run[i], n);
    } else {
      VerdictIsFinal(cfg, run, actions, i, j - 1, n);
      ReachableInv(cfg, run, actions, j - 1);
      if Retired(cfg, run[j - 1], n) {
        StepKeepsRetired(cfg, run[j - 1], actions[j - 1], run[j], n);
      } else {
        StepKeepsVerdict(cfg, run[j - 1], actions[j - 1], run[j], n, run[i].table[Id(cfg, n)]);
      }
    }
  }

  lemma StandsItself(cfg: Config, st: State, n: nat)
    requires Id(cfg, n) in st.table
    ensures Stands(cfg, st, n, st.table[Id(cfg, n)])
  {
  }

  /** A live record, and the step that would remove it. */
  predicate Removes(cfg: Config, a: Action, id: JobId) {
    a == Rollback(id.sequence) || (a.CompletePhysical? && a.n == id.sequence && a.elapsed >= cfg.ttl)
  }

  lemma LiveIsNumbered(cfg: Config, st: State, id: JobId)
    requires Inv(cfg, st) && id in st.table && st.table[id].completedAt.None?
    ensures id == Id(cfg, id.sequence) && id.sequence in st.starts
  {
    hide Consistent;
    assert RecordOk(cfg, st, id);
  }

  lemma PhysicalRemoves(cfg: Config, st: State, a: Action, st': State, id: JobId)
    requires Inv(cfg, st) && a.CompletePhysical? && Next(cfg, st, a, st')
    requires id in st.table && st.table[id].completedAt.None?
    ensures id !in st'.table <==> Removes(cfg, a, id)
  {
    LiveIsNumbered(cfg, st, id);
    hide Inv;
    PhysicalLeaves(cfg, st.table, Id(cfg, a.n), st.clock, st.clock + a.elapsed, id);
    hide PhysicalTo;
  }

  lemma PhysicalLeaves(cfg: Config, table: Table, id: JobId, at: nat, now: nat, live: JobId)
    requires live in table && table[live].completedAt.None? && at <= now
    ensures live !in PhysicalTo(cfg, table, id, at, now) <==> live == id && now - at >= cfg.ttl
  {
  }

  lemma ReserveSparesLive(cfg: Config, st: State, a: Action, st': State, id: JobId)
    requires Inv(cfg, st) && a.Reserve? && Next(cfg, st, a, st')
    requires id in st.table && st.table[id].completedAt.None?
    ensures id in st'.table
  {
    if !NoRoom(cfg, Cleanup(cfg, st.table, st.clock)) {
      hide RecordOk, StartOk;
      var room := ReserveRoom(cfg, st.table, st.clock, Id(cfg, a.n), st'.table[Id(cfg, a.n)], st'.table);
    }
  }

  lemma OthersSpareLive(cfg: Config, st: State, a: Action, st': State, id: JobId)
    requires Inv(cfg, st) && Next(cfg, st, a, st') && !a.CompletePhysical? && !a.Reserve? && !Rewrites(a)
    requires id in st.table && st.table[id].completedAt.None?
    ensures id !in st'.table <==> Removes(cfg, a, id)
  {
    LiveIsNumbered(cfg, st, id);
    hide Inv, LogicalTo, CancelTo, AttachTo, PhysicalTo, ReserveTo, Verdict;
  }

  /**
   A record that has not physically completed leaves exactly by its own rollback,
   or in the very step that stamps it, when it is already past its time to live.
   */
  lemma OnlyOwnerRemovesLive(cfg: Config, st: State, a: Action, st': State, id: JobId)
    requires Inv(cfg, st) && Next(cfg, st, a, st')
    requires id in st.table && st.table[id].completedAt.None?
    ensures id !in st'.table <==>
      a == Rollback(id.sequence) || (a.CompletePhysical? && a.n == id.sequence && a.elapsed >= cfg.ttl)
  {
    hide Inv, Next, Refines;
    if a.CompletePhysical? {
      PhysicalRemoves(cfg, st, a, st', id);
    } else if a.Reserve? {
      ReserveSparesLive(cfg, st, a, st', id);
    } else if Rewrites(a) {
      RewriteInPlace(cfg, st, a, st');
    } else {
      OthersSpareLive(cfg, st, a, st', id);
    }
  }

  /** The snapshot that `attach` expects to succeed does succeed, in every run. */
  lemma AttachAlwaysFindsItsJob(cfg: Config, run: seq<State>, actions: seq<Action>, k: nat, n: nat)
    requires IsRun(cfg, run, actions) && k < |run|
    requires n in run[k].starts && run[k].starts[n].Attaching?
    ensures SnapshotOf(Cleanup(cfg, run[k].table, run[k].clock), Id(cfg, n)).Ok?
  {
    ReachableInv(cfg, run, actions, k);
    assert StartOk(cfg, run[k], n) && RecordOk(cfg, run[k], Id(cfg, n));
  }

  /**
   A reservation loses at most one retained record, only when the table is full,
   and then the one that completed first.
   */
  lemma ReserveEvictsOldest(cfg: Config, st: State, a: Action, st': State)
    requires Inv(cfg, st) && a.Reserve? && Next(cfg, st, a, st')
    ensures var kept := Cleanup(cfg, st.table, st.clock);
      (forall lost | lost in kept && lost !in st'.table :: |kept| == cfg.maxRecords && IsOldest(kept, lost)) &&
      (forall lost1, lost2 | lost1 in kept && lost2 in kept && lost1 !in st'.table && lost2 !in st'.table ::
         lost1 == lost2)
  {
    var kept := Cleanup(cfg, st.table, st.clock);
    if |kept| >= cfg.maxRecords && !NoRoom(cfg, kept) {
      var victim :| IsOldest(kept, victim) && st'.table == (kept - {victim})[Id(cfg, a.n) := st'.table[Id(cfg, a.n)]];
    }
  }

  /**
   A reservation is refused exactly when every slot is held by a job whose
   starter or worker is still at hand; otherwise its job is in the table.
   */
  lemma RefusedOnlyWhenAllLive(cfg: Config, st: State, a: Action, st': State)
    requires Inv(cfg, st) && a.Reserve? && Next(cfg, st, a, st')
    ensures var kept := Cleanup(cfg, st.table, st.clock);
      Id(cfg, a.n) !in st'.table <==>
        |kept| == cfg.maxRecords && forall id | id in kept :: id.sequence in st.starts
  {
    var kept := Cleanup(cfg, st.table, st.clock);
    assert StartOk(cfg, st, a.n);
    forall id | id in kept ensures kept[id].completedAt.None? <==> id.sequence in st.starts {
      assert RecordOk(cfg, st, id);
    }
    if !NoRoom(cfg, kept) {
      var room := ReserveRoom(cfg, st.table, st.clock, Id(cfg, a.n), st'.table[Id(cfg, a.n)], st'.table);
    }
  }
}
