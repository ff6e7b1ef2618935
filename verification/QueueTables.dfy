/** The two queue tables and the effect of every SQL statement on them.

    Each function below is one statement, taken as one atomic step at a reading
    `now` of the database clock. Times are microseconds; the durations that a
    caller passes are nanoseconds, cut down to whole milliseconds on the way in. */
module QueueTables {
  import opened Basics

  /** Job ids are uuids; only their identity and PostgreSQL's order matter. */
  type JobId = nat
  type Time = int

  const NANOS_PER_MILLI := 1_000_000
  const MICROS_PER_MILLI := 1_000
  const NANOS_PER_HOUR := 3_600_000_000_000

  /** What a dispatch fixes for good. */
  datatype JobSpec = JobSpec(queue: string, name: string, payload: string, priority: int,
                             maxAttempts: int, timeoutMs: int, backoffMs: seq<int>,
                             dedupKey: Option<string>, createdAt: Time)

  /** The three lease columns, which a table constraint makes NULL together. */
  datatype LeaseColumns = Unleased | Leased(owner: string, leasedAt: Time, expiresAt: Time)

  datatype JobRow = JobRow(spec: JobSpec, availableAt: Time, attempts: int, generation: int,
                           lease: LeaseColumns, lastErrorKind: Option<string>, updatedAt: Time)

  datatype FailedRow = FailedRow(spec: JobSpec, attempts: int, kind: string, failedAt: Time)

  datatype Tables = Tables(jobs: map<JobId, JobRow>, failed: map<JobId, FailedRow>)

  datatype LeaseToken = LeaseToken(id: JobId, worker: string, generation: int)

  datatype EnqueueRequest = EnqueueRequest(id: JobId, queue: string, name: string, payload: string,
                                           priority: int, delayNs: int, at: Option<Time>, maxAttempts: int,
                                           timeoutNs: int, backoffNs: seq<int>, dedupKey: string)

  datatype ClaimRequest = ClaimRequest(queues: seq<string>, names: seq<string>, limit: int,
                                       worker: string, leaseNs: int)

  /** Rejected: the arguments were refused. Conflict: a table constraint failed
      and the statement rolled back. Done(b): b says whether a row was affected. */
  datatype Answer = Rejected | Conflict | Done(affected: bool)

  datatype Dispatch = DispatchRejected | DispatchConflict | Dispatched(id: JobId, enqueued: bool)

  function Millis(ns: int): int { ns / NANOS_PER_MILLI }

  function After(now: Time, ms: int): Time { now + ms * MICROS_PER_MILLI }

  // ---- enqueue ---------------------------------------------------------

  predicate ValidBackoff(backoff: seq<int>) {
    && 0 < |backoff| <= 1000
    && forall d :: d in backoff ==> 0 <= d <= 30 * 24 * NANOS_PER_HOUR && (d > 0 ==> d >= NANOS_PER_MILLI)
  }

  predicate ValidEnqueue(r: EnqueueRequest) {
    && 0 < |r.payload|
    && |r.dedupKey| <= 256
    && 1 <= r.maxAttempts <= 1000
    && NANOS_PER_MILLI <= r.timeoutNs <= 24 * NANOS_PER_HOUR
    && 0 <= r.delayNs <= 365 * 24 * NANOS_PER_HOUR
    && (r.delayNs > 0 ==> r.delayNs >= NANOS_PER_MILLI)
    && (r.at.Some? ==> r.delayNs == 0)
    && -32768 <= r.priority <= 32767
    && ValidBackoff(r.backoffNs)
  }

  function KeyOf(dedupKey: string): Option<string> {
    if dedupKey == "" then None else Some(dedupKey)
  }

  function SpecOf(r: EnqueueRequest, now: Time): JobSpec {
    JobSpec(r.queue, r.name, r.payload, r.priority, r.maxAttempts, Millis(r.timeoutNs),
            seq(|r.backoffNs|, i requires 0 <= i < |r.backoffNs| => Millis(r.backoffNs[i])),
            KeyOf(r.dedupKey), now)
  }

  function FreshRow(spec: JobSpec, availableAt: Time, now: Time): JobRow {
    JobRow(spec, availableAt, 0, 0, Unleased, None, now)
  }

  /** Two specs that the partial unique index on (queue, name, dedup_key) keeps apart. */
  predicate SameActiveKey(a: JobSpec, b: JobSpec) {
    a.dedupKey.Some? && a.dedupKey == b.dedupKey && a.queue == b.queue && a.name == b.name
  }

  predicate KeyTaken(jobs: map<JobId, JobRow>, spec: JobSpec) {
    exists id :: id in jobs && SameActiveKey(jobs[id].spec, spec)
  }

  predicate UniqueKeys(jobs: map<JobId, JobRow>) {
    forall i, j :: i in jobs && j in jobs && SameActiveKey(jobs[i].spec, jobs[j].spec) ==> i == j
  }

  predicate Inserts(t: Tables, r: EnqueueRequest, now: Time) {
    ValidEnqueue(r) && !KeyTaken(t.jobs, SpecOf(r, now)) && r.id !in t.jobs
  }

  function EnqueueTables(t: Tables, r: EnqueueRequest, now: Time): Tables {
    if !Inserts(t, r, now) then t
    else
      var at := if r.at.Some? then r.at.value else After(now, Millis(r.delayNs));
      t.(jobs := t.jobs[r.id := FreshRow(SpecOf(r, now), at, now)])
  }

  /** The answer Enqueue gives; a taken key answers with the job that holds it. */
  ghost predicate EnqueueAnswer(t: Tables, r: EnqueueRequest, now: Time, d: Dispatch) {
    if !ValidEnqueue(r) then d == DispatchRejected
    else if KeyTaken(t.jobs, SpecOf(r, now)) then
      && d.Dispatched? && d.id in t.jobs && SameActiveKey(t.jobs[d.id].spec, SpecOf(r, now))
      && d.enqueued == (d.id == r.id)
    else if r.id in t.jobs then d == DispatchConflict
    else d == Dispatched(r.id, true)
  }

  // ---- claim -----------------------------------------------------------

  predicate ValidClaim(q: ClaimRequest) {
    && q.queues != [] && q.names != [] && 1 <= q.limit <= 10000
    && 0 < |q.worker| <= 128 && q.leaseNs >= NANOS_PER_MILLI
  }

  predicate Claimable(row: JobRow, now: Time) {
    row.availableAt <= now && row.attempts < row.spec.maxAttempts
  }

  predicate Named(row: JobRow, queues: seq<string>, names: seq<string>) {
    row.spec.queue in queues && row.spec.name in names
  }

  /** Claims order by priority DESC, available_at, id; sweeps by available_at, id. */
  datatype Order = ByPriority | ByAge

  predicate Before(order: Order, jobs: map<JobId, JobRow>, i: JobId, j: JobId)
    requires i in jobs && j in jobs
  {
    var a, b := jobs[i], jobs[j];
    if order.ByPriority? && a.spec.priority != b.spec.priority then a.spec.priority > b.spec.priority
    else a.availableAt < b.availableAt || (a.availableAt == b.availableAt && i < j)
  }

  /** `batch` is what ORDER BY ... LIMIT keeps of `candidates`. */
  ghost predicate IsBatch(order: Order, jobs: map<JobId, JobRow>, candidates: set<JobId>, limit: int, batch: seq<JobId>)
    requires candidates <= jobs.Keys
  {
    && (forall k :: 0 <= k < |batch| ==> batch[k] in candidates)
    && (forall k, l :: 0 <= k < l < |batch| ==> Before(order, jobs, batch[k], batch[l]))
    && (|batch| < limit ==> forall id :: id in candidates ==> id in batch)
    && |batch| <= limit
    && (forall k, id :: 0 <= k < |batch| && id in candidates && id !in batch ==> Before(order, jobs, batch[k], id))
  }

  /** Rows locked by a concurrent statement are passed over (SKIP LOCKED). */
  function ClaimCandidates(jobs: map<JobId, JobRow>, q: ClaimRequest, locked: set<JobId>, now: Time): set<JobId> {
    set id | id in jobs && id !in locked && Named(jobs[id], q.queues, q.names) && Claimable(jobs[id], now)
  }

  function ClaimRow(row: JobRow, worker: string, leaseMs: int, now: Time): JobRow {
    row.(attempts := row.attempts + 1,
         generation := row.generation + 1,
         lease := Leased(worker, now, After(now, leaseMs)),
         availableAt := After(now, leaseMs),
         updatedAt := now)
  }

  function ClaimTables(t: Tables, q: ClaimRequest, batch: seq<JobId>, now: Time): Tables {
    t.(jobs := map id | id in t.jobs ::
      if id in batch then ClaimRow(t.jobs[id], q.worker, Millis(q.leaseNs), now) else t.jobs[id])
  }

  // ---- statements fenced by a lease -------------------------------------

  predicate ValidToken(token: LeaseToken) {
    0 < |token.worker| <= 128 && token.generation >= 1
  }

  /** WHERE id AND lease_owner AND lease_generation AND lease_expires_at > now */
  predicate Fenced(jobs: map<JobId, JobRow>, token: LeaseToken, now: Time) {
    && token.id in jobs
    && jobs[token.id].lease.Leased?
    && jobs[token.id].lease.owner == token.worker
    && jobs[token.id].generation == token.generation
    && jobs[token.id].lease.expiresAt > now
  }

  function HeartbeatTables(t: Tables, token: LeaseToken, durationNs: int, now: Time): Tables {
    if !ValidToken(token) || durationNs < NANOS_PER_MILLI || !Fenced(t.jobs, token, now) then t
    else
      var row := t.jobs[token.id];
      var until := After(now, Millis(durationNs));
      t.(jobs := t.jobs[token.id := row.(lease := row.lease.(expiresAt := until), availableAt := until, updatedAt := now)])
  }

  function AckTables(t: Tables, token: LeaseToken, now: Time): Tables {
    if !ValidToken(token) || !Fenced(t.jobs, token, now) then t
    else t.(jobs := t.jobs - {token.id})
  }

  predicate ValidKind(kind: string) { |kind| <= 64 }

  function RetryTables(t: Tables, token: LeaseToken, delayNs: int, kind: string, now: Time): Tables {
    if !ValidToken(token) || delayNs < 0 || !ValidKind(kind) || !Fenced(t.jobs, token, now) then t
    else
      var row := t.jobs[token.id];
      t.(jobs := t.jobs[token.id := row.(availableAt := After(now, Millis(delayNs)), lease := Unleased,
                                         lastErrorKind := Some(kind), updatedAt := now)])
  }

  function ReleaseTables(t: Tables, token: LeaseToken, now: Time): Tables {
    if !ValidToken(token) || !Fenced(t.jobs, token, now) then t
    else
      var row := t.jobs[token.id];
      t.(jobs := t.jobs[token.id := row.(availableAt := now, lease := Unleased, updatedAt := now)])
  }

  function ToFailed(row: JobRow, kind: string, now: Time): FailedRow {
    FailedRow(row.spec, row.attempts, kind, now)
  }

  /** The delete and the insert are one statement: a failed insert undoes the delete. */
  function FailTables(t: Tables, token: LeaseToken, kind: string, now: Time): Tables {
    if !ValidToken(token) || kind == "" || !ValidKind(kind) || !Fenced(t.jobs, token, now) || token.id in t.failed then t
    else Tables(t.jobs - {token.id}, t.failed[token.id := ToFailed(t.jobs[token.id], kind, now)])
  }

  // ---- exhausted leases --------------------------------------------------

  predicate ValidSweep(queues: seq<string>, names: seq<string>, limit: int) {
    queues != [] && names != [] && 1 <= limit <= 10000
  }

  predicate Exhausted(row: JobRow, now: Time) {
    row.lease.Leased? && row.availableAt <= now && row.attempts >= row.spec.maxAttempts
  }

  function SweepCandidates(jobs: map<JobId, JobRow>, queues: seq<string>, names: seq<string>, locked: set<JobId>, now: Time): set<JobId> {
    set id | id in jobs && id !in locked && Named(jobs[id], queues, names) && Exhausted(jobs[id], now)
  }

  function SweepTables(t: Tables, batch: seq<JobId>, now: Time): Tables {
    if exists id :: id in batch && id in t.failed then t
    else
      var gone := set id | id in batch && id in t.jobs;
      Tables(t.jobs - gone,
             map id | id in t.failed.Keys + gone ::
               if id in gone then ToFailed(t.jobs[id], "lease_exhausted", now) else t.failed[id])
  }

  // ---- administration ----------------------------------------------------

  predicate Restores(t: Tables, id: JobId) {
    id in t.failed && id !in t.jobs && !KeyTaken(t.jobs, t.failed[id].spec)
  }

  function RestoreTables(t: Tables, id: JobId, now: Time): Tables {
    if !Restores(t, id) then t
    else Tables(t.jobs[id := FreshRow(t.failed[id].spec, now, now)], t.failed - {id})
  }

  function ForgetTables(t: Tables, id: JobId): Tables {
    t.(failed := t.failed - {id})
  }
}
