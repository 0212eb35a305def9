/**
 The job registry: a bounded table of background jobs, with expiry and eviction
 of finished ones. Each operation under the registry's lock is one method; its
 contract ties the new table to the old one through the transition functions
 that the protocol model (module `JobProtocol`) interleaves.
 */
module Jobs {
  import opened Wrappers
  import opened Numerals

  datatype JobStatus = Running | Succeeded | Failed | Cancelled | TimedOut

  datatype Payload =
    | Data(text: string)
    | CancelledDiagnostic(requestId: string)
    | TimeoutDiagnostic(requestId: string)
    | OtherDiagnostic(message: string)

  /** A typed invocation response; only its success flag is inspected here. */
  datatype Response = Response(success: bool, payload: Payload)

  /** What the executor reports for one execution. */
  datatype Observed =
    | Finished(response: Response)
    | ExecutionCancelled
    | ExecutionTimeout
    | OtherError(message: string)

  /** `lifecycle` names the attached execution; clock readings are plain numbers. */
  datatype JobRecord = JobRecord(
    sequence: nat,
    tool: string,
    executionId: string,
    status: JobStatus,
    draining: bool,
    response: Option<Response>,
    completedAt: Option<nat>,
    lifecycle: Option<string>)

  type Table = map<JobId, JobRecord>

  datatype Snapshot = Snapshot(
    jobId: JobId, tool: string, status: JobStatus, draining: bool, response: Option<Response>)

  datatype JobError = CapacityFull(capacity: nat) | NotFound(jobId: JobId)

  datatype Config = Config(maxRecords: nat, ttl: nat, bootNonce: nat)

  /** A job id is the text of the process nonce and a sequence number. */
  datatype JobId = JobId(bootNonce: nat, sequence: nat) {
    function Text(): string {
      "job-" + Padded(bootNonce, 16, Hex) + "-" + Padded(sequence, 16, Hex)
    }
  }

  /** The text determines the id, so a table keyed by ids is a table keyed by their texts. */
  lemma JobIdTextInjective(a: JobId, b: JobId)
    requires a.Text() == b.Text()
    ensures a == b
  {
    SplitAtDash(
      Padded(a.bootNonce, 16, Hex), Padded(a.sequence, 16, Hex),
      Padded(b.bootNonce, 16, Hex), Padded(b.sequence, 16, Hex));
    PaddedInjective(a.bootNonce, b.bootNonce, 16, Hex);
    PaddedInjective(a.sequence, b.sequence, 16, Hex);
  }

  /** The text is `job-` and the two numbers in hexadecimal digits, of sixteen digits at least, with a dash between. */
  lemma JobIdTextReads(id: JobId) returns (nonce: string, sequence: string)
    ensures id.Text() == "job-" + nonce + "-" + sequence
    ensures AreDigits(nonce, 16) && |nonce| >= 16 && Value(nonce, Hex) == id.bootNonce
    ensures AreDigits(sequence, 16) && |sequence| >= 16 && Value(sequence, Hex) == id.sequence
  {
    nonce, sequence := Padded(id.bootNonce, 16, Hex), Padded(id.sequence, 16, Hex);
    PaddedReads(id.bootNonce, 16, Hex);
    PaddedReads(id.sequence, 16, Hex);
  }

  /** A dash-free field ends where the first dash stands. */
  lemma SplitAtDash(a1: string, a2: string, b1: string, b2: string)
    requires '-' !in a1 && '-' !in b1
    requires "job-" + a1 + "-" + a2 == "job-" + b1 + "-" + b2
    ensures a1 == b1 && a2 == b2
  {
    var s, t := "job-" + a1 + "-" + a2, "job-" + b1 + "-" + b2;
    assert s[4 + |a1|] == '-' && t[4 + |b1|] == '-';
    if |a1| < |b1| {
      assert false;
    } else if |b1| < |a1| {
      assert false;
    }
    assert s[4..4 + |a1|] == a1 && t[4..4 + |b1|] == b1;
    assert s[5 + |a1|..] == a2 && t[5 + |b1|..] == b2;
  }

  function CancelledResponse(requestId: string): Response {
    Response(false, CancelledDiagnostic(requestId))
  }

  /** The status and response a worker derives from the observed execution. */
  function Verdict(observed: Observed, requestId: string): (v: (JobStatus, Response))
    ensures v.0 != Running
    ensures v.0 == Succeeded <==> v.1.success
    ensures v.0 == Cancelled <==> observed.ExecutionCancelled?
    ensures v.0 == TimedOut <==> observed.ExecutionTimeout?
    ensures observed.Finished? ==> v.1 == observed.response
    ensures observed.ExecutionCancelled? ==> v.1.payload == CancelledDiagnostic(requestId)
    ensures observed.ExecutionTimeout? ==> v.1.payload == TimeoutDiagnostic(requestId)
    ensures observed.OtherError? ==> v.0 == Failed && v.1.payload == OtherDiagnostic(observed.message)
  {
    match observed
    case Finished(response) => (if response.success then Succeeded else Failed, response)
    case ExecutionCancelled => (Cancelled, CancelledResponse(requestId))
    case ExecutionTimeout => (TimedOut, Response(false, TimeoutDiagnostic(requestId)))
    case OtherError(message) => (Failed, Response(false, OtherDiagnostic(message)))
  }

  /** Draining is recorded only for a verdict that stopped the handler early. */
  function VerdictDraining(status: JobStatus, isDraining: bool): bool {
    (status == Cancelled || status == TimedOut) && isDraining
  }

  // ---------------------------------------------------------------------
  // Transition functions
  // ---------------------------------------------------------------------

  predicate Retained(cfg: Config, record: JobRecord, now: nat) {
    record.completedAt.None? ||
    (if now < record.completedAt.value then 0 else now - record.completedAt.value) < cfg.ttl
  }

  function Cleanup(cfg: Config, table: Table, now: nat): (kept: Table)
    ensures |kept| <= |table|
  {
    var kept := map id | id in table && Retained(cfg, table[id], now) :: table[id];
    assert |kept| <= |table| by {
      assert kept.Keys <= table.Keys;
      SubsetSize(kept.Keys, table.Keys);
    }
    kept
  }

  lemma {:induction false} SubsetSize(a: set<JobId>, b: set<JobId>)
    requires a <= b
    ensures |a| <= |b|
  {
    if a != {} {
      var x :| x in a;
      SubsetSize(a - {x}, b - {x});
    }
  }

  predicate Before(a: JobRecord, b: JobRecord)
    requires a.completedAt.Some? && b.completedAt.Some?
  {
    a.completedAt.value < b.completedAt.value ||
    (a.completedAt.value == b.completedAt.value && a.sequence < b.sequence)
  }

  /** `id` is a physically completed job, and none completed before it. */
  ghost predicate IsOldest(table: Table, id: JobId) {
    id in table && table[id].completedAt.Some? &&
    forall other | other in table && table[other].completedAt.Some? :: !Before(table[other], table[id])
  }

  ghost predicate NoneCompleted(table: Table) {
    forall id | id in table :: table[id].completedAt.None?
  }

  /** Every slot is taken by a job that has not physically completed. */
  ghost predicate NoRoom(cfg: Config, table: Table) {
    |table| >= cfg.maxRecords && NoneCompleted(table)
  }

  function FreshRecord(sequence: nat, tool: string, executionId: string): JobRecord {
    JobRecord(sequence, tool, executionId, Running, false, None, None, None)
  }

  /** Expire, then make room by at most one eviction, then insert or refuse. */
  ghost predicate ReserveTo(cfg: Config, table: Table, now: nat, id: JobId, record: JobRecord, table': Table) {
    var kept := Cleanup(cfg, table, now);
    if |kept| < cfg.maxRecords then
      table' == kept[id := record]
    else if NoRoom(cfg, kept) then
      table' == kept
    else
      exists victim :: IsOldest(kept, victim) && table' == (kept - {victim})[id := record]
  }

  function AttachTo(table: Table, id: JobId, lifecycle: string): (table': Table)
    ensures table'.Keys == table.Keys && |table'| == |table|
  {
    SameSize(table);
    if id in table then table[id := table[id].(lifecycle := Some(lifecycle))] else table
  }

  function CancelTo(table: Table, id: JobId, executionId: string, draining: bool): (table': Table)
    ensures table'.Keys == table.Keys && |table'| == |table|
  {
    SameSize(table);
    if id in table && table[id].status == Running then
      var response := Some(CancelledResponse(executionId));
      table[id := table[id].(status := Cancelled, response := response, draining := draining)]
    else table
  }

  function LogicalTo(table: Table, id: JobId, status: JobStatus, response: Response, draining: bool): (table': Table)
    ensures table'.Keys == table.Keys && |table'| == |table|
  {
    SameSize(table);
    if id in table && table[id].status == Running then
      table[id := table[id].(status := status, response := Some(response), draining := draining)]
    else table
  }

  /** Completion time `at` is kept if already set; expiry runs at `now`. */
  function PhysicalTo(cfg: Config, table: Table, id: JobId, at: nat, now: nat): Table {
    if id in table then
      var record := table[id];
      var stamp := if record.completedAt.None? then Some(at) else record.completedAt;
      Cleanup(cfg, table[id := record.(draining := false, completedAt := stamp)], now)
    else table
  }

  function SnapshotOf(table: Table, id: JobId): Result<Snapshot, JobError> {
    if id in table then
      var record := table[id];
      Ok(Snapshot(id, record.tool, record.status, record.draining, record.response))
    else Err(NotFound(id))
  }

  // ---------------------------------------------------------------------
  // The registry object
  // ---------------------------------------------------------------------

  /** The least completed record, by completion time and then sequence. */
  method OldestCompleted(records: Table) returns (oldest: Option<JobId>)
    ensures oldest.None? ==> NoneCompleted(records)
    ensures oldest.Some? ==> IsOldest(records, oldest.value)
    ensures oldest.None? <==> forall id | id in records :: records[id].completedAt == None
    ensures oldest.Some? ==>
      oldest.value in records && records[oldest.value].completedAt.Some? &&
      forall id | id in records && records[id].completedAt.Some? ::
        var (least, other) := (records[oldest.value], records[id]);
        least.completedAt.value < other.completedAt.value ||
        (least.completedAt.value == other.completedAt.value && least.sequence <= other.sequence)
  {
    oldest := None;
    var rest := records.Keys;
    while rest != {}
      invariant rest <= records.Keys
      invariant oldest.None? ==> forall id | id in records.Keys - rest :: records[id].completedAt.None?
      invariant oldest.Some? ==>
        oldest.value in records && records[oldest.value].completedAt.Some? &&
        forall id | id in records.Keys - rest && records[id].completedAt.Some? ::
          !Before(records[id], records[oldest.value])
    {
      var id :| id in rest;
      rest := rest - {id};
      if records[id].completedAt.Some? && (oldest.None? || Before(records[id], records[oldest.value])) {
        oldest := Some(id);
      }
    }
  }

  class JobRegistry {
    const cfg: Config
    var records: Table
    var nextSequence: nat

    ghost predicate Valid()
      reads this
    {
      |records| <= cfg.maxRecords
    }

    constructor (cfg: Config)
      ensures Valid() && this.cfg == cfg && records == map[] && nextSequence == 1
    {
      this.cfg := cfg;
      records := map[];
      nextSequence := 1;
    }

    /** The atomic `fetch_add` that opens a reservation, outside the lock. */
    method TakeSequence() returns (sequence: nat)
      modifies this`nextSequence
      ensures sequence == old(nextSequence) && nextSequence == sequence + 1
    {
      sequence := nextSequence;
      nextSequence := nextSequence + 1;
    }

    /** A record stays, as it is, unless it completed at least the time to live ago. */
    method CleanupLocked(now: nat)
      modifies this`records
      ensures records == Cleanup(cfg, old(records), now)
      ensures forall id :: id in records <==>
        id in old(records) &&
        (old(records)[id].completedAt.None? || (0 < cfg.ttl && now < old(records)[id].completedAt.value + cfg.ttl))
      ensures forall id | id in records :: records[id] == old(records)[id]
    {
      ghost var before := records;
      var left := records.Keys;
      RetainedUntil(cfg, before, now);
      while left != {}
        invariant left <= before.Keys
        invariant forall id :: id in records <==> id in before && (id in left || Retained(cfg, before[id], now))
        invariant forall id | id in records :: records[id] == before[id]
        decreases |left|
      {
        var id :| id in left;
        if !Retained(cfg, records[id], now) {
          records := records - {id};
        }
        left := left - {id};
      }
      assert records == Cleanup(cfg, before, now);
    }

    /** The locked part of a reservation. */
    method Reserve(sequence: nat, tool: string, executionId: string, now: nat) returns (result: Result<JobId, JobError>)
      requires Valid()
      modifies this`records
      ensures Valid()
      ensures var jobId, record := JobId(cfg.bootNonce, sequence), FreshRecord(sequence, tool, executionId);
        && ReserveTo(cfg, old(records), now, jobId, record, records)
        && result ==
          if NoRoom(cfg, Cleanup(cfg, old(records), now)) then Err(CapacityFull(cfg.maxRecords)) else Ok(jobId)
      ensures result.Ok? ==>
        result.value.bootNonce == cfg.bootNonce && result.value.sequence == sequence && result.value in records &&
        var record := records[result.value];
        record.sequence == sequence && record.tool == tool && record.executionId == executionId &&
        record.status == Running && record.draining == false && record.response == None &&
        record.completedAt == None && record.lifecycle == None
      ensures forall id | id in records && (result.Err? || id != result.value) ::
        id in old(records) && records[id] == old(records)[id]
    {
      var jobId := JobId(cfg.bootNonce, sequence);
      CleanupLocked(now);
      ghost var kept := records;
      while |records| >= cfg.maxRecords
        invariant records == kept ||
          (exists victim ::
             IsOldest(kept, victim) && records == kept - {victim} && |records| < cfg.maxRecords <= |kept|)
        decreases |records|
      {
        var oldest := OldestCompleted(records);
        if oldest.None? {
          break;
        }
        RemoveSize(records, oldest.value);
        records := records - {oldest.value};
      }
      if |records| >= cfg.maxRecords {
        return Err(CapacityFull(cfg.maxRecords));
      }
      records := records[jobId := FreshRecord(sequence, tool, executionId)];
      return Ok(jobId);
    }

    method Rollback(jobId: JobId)
      requires Valid()
      modifies this`records
      ensures Valid() && records == old(records) - {jobId}
    {
      assert (records - {jobId}).Keys == records.Keys - {jobId};
      SubsetSize(records.Keys - {jobId}, records.Keys);
      records := records - {jobId};
    }

    /** The first locked section of `attach`: record the execution's lifecycle. */
    method RecordLifecycle(jobId: JobId, lifecycle: string)
      requires Valid()
      modifies this`records
      ensures Valid() && records == AttachTo(old(records), jobId, lifecycle)
      ensures records.Keys == old(records).Keys
      ensures forall id | id in records && id != jobId :: records[id] == old(records)[id]
      ensures jobId in records ==> records[jobId] == old(records)[jobId].(lifecycle := Some(lifecycle))
    {
      if jobId in records {
        records := records[jobId := records[jobId].(lifecycle := Some(lifecycle))];
      }
    }

    method TakeSnapshot(jobId: JobId, now: nat) returns (result: Result<Snapshot, JobError>)
      requires Valid()
      modifies this`records
      ensures Valid() && records == Cleanup(cfg, old(records), now) && result == SnapshotOf(records, jobId)
      ensures jobId in old(records) && Retained(cfg, old(records)[jobId], now) ==>
        var record := old(records)[jobId];
        result.Ok? && result.value.jobId == jobId && result.value.tool == record.tool &&
        result.value.status == record.status && result.value.draining == record.draining &&
        result.value.response == record.response
      ensures !(jobId in old(records) && Retained(cfg, old(records)[jobId], now)) ==> result == Err(NotFound(jobId))
    {
      CleanupLocked(now);
      if jobId !in records {
        return Err(NotFound(jobId));
      }
      var record := records[jobId];
      return Ok(Snapshot(jobId, record.tool, record.status, record.draining, record.response));
    }

    /** The reading half of `cancel`: the target is reported only while Running. */
    method CancelTarget(jobId: JobId, now: nat) returns (result: Result<Option<(string, Option<string>)>, JobError>)
      requires Valid()
      modifies this`records
      ensures Valid() && records == Cleanup(cfg, old(records), now)
      ensures result.Ok? <==> jobId in records
      ensures result.Ok? ==> (result.value.Some? <==> records[jobId].status == Running)
      ensures result.Ok? && result.value.Some? ==>
        result.value.value == (records[jobId].executionId, records[jobId].lifecycle)
    {
      CleanupLocked(now);
      if jobId !in records {
        return Err(NotFound(jobId));
      }
      var record := records[jobId];
      return Ok(if record.status == Running then Some((record.executionId, record.lifecycle)) else None);
    }

    /** The writing half of `cancel`, after the executor accepted the cancellation. */
    method RecordCancellation(jobId: JobId, executionId: string, lifecycle: Option<string>, isDraining: bool)
      requires Valid()
      modifies this`records
      ensures Valid() && records == CancelTo(old(records), jobId, executionId, lifecycle.Some? && isDraining)
      ensures records.Keys == old(records).Keys
      ensures forall id | id in records && (id != jobId || old(records)[id].status != Running) ::
        records[id] == old(records)[id]
      ensures jobId in records && old(records)[jobId].status == Running ==>
        records[jobId] == old(records)[jobId].(
          status := Cancelled,
          response := Some(Response(false, CancelledDiagnostic(executionId))),
          draining := lifecycle.Some? && isDraining)
    {
      if jobId in records && records[jobId].status == Running {
        var record := records[jobId];
        record := record.(status := Cancelled);
        record := record.(response := Some(CancelledResponse(executionId)));
        record := record.(draining := lifecycle.Some? && isDraining);
        records := records[jobId := record];
      }
    }

    method CompleteLogical(jobId: JobId, status: JobStatus, response: Response, draining: bool)
      requires Valid()
      modifies this`records
      ensures Valid() && records == LogicalTo(old(records), jobId, status, response, draining)
      ensures records.Keys == old(records).Keys
      ensures forall id | id in records && (id != jobId || old(records)[id].status != Running) ::
        records[id] == old(records)[id]
      ensures jobId in records && old(records)[jobId].status == Running ==>
        records[jobId] == old(records)[jobId].(status := status, response := Some(response), draining := draining)
    {
      if jobId !in records || records[jobId].status != Running {
        return;
      }
      var record := records[jobId].(status := status);
      record := record.(response := Some(response));
      record := record.(draining := draining);
      records := records[jobId := record];
    }

    /** The clock is read twice: for the completion stamp and for the expiry pass. */
    method CompletePhysical(jobId: JobId, at: nat, now: nat)
      requires Valid()
      modifies this`records
      ensures Valid() && records == PhysicalTo(cfg, old(records), jobId, at, now)
      ensures jobId !in old(records) ==> records == old(records)
      ensures jobId in old(records) ==> forall id :: id in records <==>
        id in old(records) &&
        var stamp := Stamp(old(records), jobId, at, id);
        stamp.None? || (0 < cfg.ttl && now < stamp.value + cfg.ttl)
      ensures forall id | id in records && id != jobId :: records[id] == old(records)[id]
      ensures jobId in records ==>
        records[jobId] == old(records)[jobId].(draining := false, completedAt := Stamp(old(records), jobId, at, jobId))
    {
      if jobId !in records {
        return;
      }
      var record := records[jobId].(draining := false);
      if record.completedAt.None? {
        record := record.(completedAt := Some(at));
      }
      records := records[jobId := record];
      CleanupLocked(now);
    }
  }

  /** The completion time of `id` once `jobId` has completed, which counts the first time only. */
  function Stamp(table: Table, jobId: JobId, at: nat, id: JobId): (stamp: Option<nat>)
    requires id in table
    ensures id != jobId || table[id].completedAt.Some? ==> stamp == table[id].completedAt
    ensures id == jobId && table[id].completedAt.None? ==> stamp == Some(at)
  {
    if id == jobId && table[id].completedAt.None? then Some(at) else table[id].completedAt
  }

  lemma RetainedUntil(cfg: Config, table: Table, now: nat)
    ensures forall id | id in table :: Retained(cfg, table[id], now) <==>
      (table[id].completedAt.None? || (0 < cfg.ttl && now < table[id].completedAt.value + cfg.ttl))
  {
  }

  lemma SameSize(table: Table)
    ensures forall other: Table | other.Keys == table.Keys :: |other| == |table|
  {
    assert |table| == |table.Keys|;
    forall other: Table | other.Keys == table.Keys ensures |other| == |table| {
      assert |other| == |other.Keys|;
    }
  }

  lemma RemoveSize(table: Table, id: JobId)
    requires id in table
    ensures |table - {id}| == |table| - 1
  {
    assert (table - {id}).Keys == table.Keys - {id};
  }
}
