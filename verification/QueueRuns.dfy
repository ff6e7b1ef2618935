/** Every interleaving of queue statements under a clock that never runs back.

    `World` adds to the tables what an omniscient observer would write down: which
    ids were accepted, how each left the queue, what was first dispatched under an
    id, how often it was claimed in its present life, and which life that is. */
module QueueRuns {
  import opened QueueTables

  datatype World = World(tables: Tables, clock: Time,
                         accepted: map<JobId, JobSpec>,
                         acknowledged: set<JobId>, forgotten: set<JobId>,
                         claims: map<JobId, int>, lives: map<JobId, nat>)

  datatype Action =
    | Enqueue(request: EnqueueRequest)
    | Claim(claim: ClaimRequest, locked: set<JobId>, batch: seq<JobId>)
    | Heartbeat(token: LeaseToken, durationNs: int)
    | Ack(token: LeaseToken)
    | Retry(token: LeaseToken, delayNs: int, kind: string)
    | Release(token: LeaseToken)
    | Fail(token: LeaseToken, kind: string)
    | Sweep(queues: seq<string>, names: seq<string>, limit: int, locked: set<JobId>, batch: seq<JobId>)
    | Restore(id: JobId)
    | Forget(id: JobId)

  datatype Event = Event(action: Action, now: Time)

  const EMPTY := World(Tables(map[], map[]), 0, map[], {}, {}, map[], map[])

  /** A fresh id for every dispatch, and a batch the database could really pick. */
  ghost predicate Possible(w: World, e: Event) {
    && w.clock <= e.now
    && match e.action
       case Enqueue(r) => r.id !in w.accepted
       case Claim(q, locked, batch) =>
         ValidClaim(q) ==> IsBatch(ByPriority, w.tables.jobs, ClaimCandidates(w.tables.jobs, q, locked, e.now), q.limit, batch)
       case Sweep(queues, names, limit, locked, batch) =>
         ValidSweep(queues, names, limit) ==>
           IsBatch(ByAge, w.tables.jobs, SweepCandidates(w.tables.jobs, queues, names, locked, e.now), limit, batch)
       case _ => true
  }

  /** What the statement does to the two tables. */
  function Next(t: Tables, a: Action, now: Time): Tables {
    match a
    case Enqueue(r) => EnqueueTables(t, r, now)
    case Claim(q, locked, batch) => if ValidClaim(q) then ClaimTables(t, q, batch, now) else t
    case Heartbeat(token, duration) => HeartbeatTables(t, token, duration, now)
    case Ack(token) => AckTables(t, token, now)
    case Retry(token, delay, kind) => RetryTables(t, token, delay, kind, now)
    case Release(token) => ReleaseTables(t, token, now)
    case Fail(token, kind) => FailTables(t, token, kind, now)
    case Sweep(queues, names, limit, locked, batch) =>
      if ValidSweep(queues, names, limit) then SweepTables(t, batch, now) else t
    case Restore(id) => RestoreTables(t, id, now)
    case Forget(id) => ForgetTables(t, id)
  }

  /** The id this event brings into the queue for the first time, if any. */
  function Begun(w: World, e: Event): set<JobId> {
    if e.action.Enqueue? && Inserts(w.tables, e.action.request, e.now) then {e.action.request.id} else {}
  }

  function Revived(w: World, e: Event): set<JobId> {
    if e.action.Restore? && Restores(w.tables, e.action.id) then {e.action.id} else {}
  }

  function Acked(w: World, e: Event): set<JobId> {
    if e.action.Ack? && ValidToken(e.action.token) && Fenced(w.tables.jobs, e.action.token, e.now)
    then {e.action.token.id} else {}
  }

  predicate Claims(e: Event, id: JobId) {
    e.action.Claim? && ValidClaim(e.action.claim) && id in e.action.batch
  }

  function Apply(w: World, e: Event): World {
    World(
      Next(w.tables, e.action, e.now),
      e.now,
      map id | id in w.accepted.Keys + Begun(w, e) ::
        if id in Begun(w, e) then SpecOf(e.action.request, e.now) else w.accepted[id],
      w.acknowledged + Acked(w, e),
      w.forgotten + (if e.action.Forget? then {e.action.id} * w.tables.failed.Keys else {}),
      map id | id in w.claims.Keys + Begun(w, e) ::
        if id in Begun(w, e) + Revived(w, e) then 0 else w.claims[id] + (if Claims(e, id) then 1 else 0),
      map id | id in w.lives.Keys + Begun(w, e) ::
        if id in Begun(w, e) then 0 else w.lives[id] + (if id in Revived(w, e) then 1 else 0))
  }

  function Run(w: World, events: seq<Event>): World
    decreases |events|
  {
    if events == [] then w else Run(Apply(w, events[0]), events[1..])
  }

  ghost predicate PossibleRun(w: World, events: seq<Event>)
    decreases |events|
  {
    events == [] || (Possible(w, events[0]) && PossibleRun(Apply(w, events[0]), events[1..]))
  }

  // ---- the invariant -----------------------------------------------------

  predicate RowInv(row: JobRow) {
    && 0 <= row.attempts <= row.spec.maxAttempts
    && row.generation == row.attempts
    && (row.lease.Leased? ==>
          row.availableAt == row.lease.expiresAt && 1 <= row.attempts && row.lease.leasedAt < row.lease.expiresAt)
  }

  /** Where an accepted id is; an id is always in exactly one of these places. */
  function Places(w: World, id: JobId): nat {
    (if id in w.tables.jobs then 1 else 0) + (if id in w.tables.failed then 1 else 0)
    + (if id in w.acknowledged then 1 else 0) + (if id in w.forgotten then 1 else 0)
  }

  predicate IdInv(w: World, id: JobId) {
    if id in w.accepted then
      && Places(w, id) == 1
      && id in w.claims && id in w.lives
      && 1 <= w.accepted[id].maxAttempts <= 1000
      && (id in w.tables.jobs ==>
            && RowInv(w.tables.jobs[id])
            && (w.tables.jobs[id].lease.Leased? ==> w.tables.jobs[id].lease.leasedAt <= w.clock)
            && w.tables.jobs[id].spec == w.accepted[id]
            && w.tables.jobs[id].attempts == w.claims[id])
      && (id in w.tables.failed ==>
            && w.tables.failed[id].spec == w.accepted[id]
            && w.tables.failed[id].attempts == w.claims[id]
            && 1 <= w.claims[id] <= w.accepted[id].maxAttempts)
    else
      Places(w, id) == 0 && id !in w.claims && id !in w.lives
  }

  ghost predicate Inv(w: World) {
    UniqueKeys(w.tables.jobs) && forall id :: IdInv(w, id)
  }

  lemma BatchIsClaimable(w: World, e: Event, id: JobId)
    requires Possible(w, e) && e.action.Claim? && ValidClaim(e.action.claim) && id in e.action.batch
    ensures id in w.tables.jobs && Claimable(w.tables.jobs[id], e.now)
  {
  }

  lemma BatchIsExhausted(w: World, e: Event, id: JobId)
    requires Possible(w, e) && e.action.Sweep? && id in e.action.batch
    requires ValidSweep(e.action.queues, e.action.names, e.action.limit)
    ensures id in w.tables.jobs && Exhausted(w.tables.jobs[id], e.now)
  {
  }

  lemma ClaimKeepsId(w: World, e: Event, id: JobId)
    requires IdInv(w, id) && Possible(w, e) && e.action.Claim?
    ensures IdInv(Apply(w, e), id)
  {
    if ValidClaim(e.action.claim) && id in e.action.batch {
      BatchIsClaimable(w, e, id);
    }
  }

  lemma SweepKeepsId(w: World, e: Event, id: JobId)
    requires IdInv(w, id) && Possible(w, e) && e.action.Sweep?
    ensures IdInv(Apply(w, e), id)
  {
    if ValidSweep(e.action.queues, e.action.names, e.action.limit) && id in e.action.batch {
      BatchIsExhausted(w, e, id);
    }
  }

  lemma FencedKeepsId(w: World, e: Event, id: JobId)
    requires IdInv(w, id) && Possible(w, e)
    requires e.action.Heartbeat? || e.action.Ack? || e.action.Retry? || e.action.Release? || e.action.Fail?
    ensures IdInv(Apply(w, e), id)
  {
  }

  lemma InsertKeepsId(w: World, e: Event, id: JobId)
    requires IdInv(w, id) && Possible(w, e)
    requires e.action.Enqueue? || e.action.Restore? || e.action.Forget?
    ensures IdInv(Apply(w, e), id)
  {
  }

  lemma StepKeepsId(w: World, e: Event, id: JobId)
    requires IdInv(w, id) && Possible(w, e)
    ensures IdInv(Apply(w, e), id)
  {
    match e.action
    case Claim(_, _, _) => ClaimKeepsId(w, e, id);
    case Sweep(_, _, _, _, _) => SweepKeepsId(w, e, id);
    case Enqueue(_) => InsertKeepsId(w, e, id);
    case Restore(_) => InsertKeepsId(w, e, id);
    case Forget(_) => InsertKeepsId(w, e, id);
    case _ => FencedKeepsId(w, e, id);
  }

  lemma OthersKeepSpecs(w: World, e: Event, id: JobId)
    requires id !in Begun(w, e) + Revived(w, e) && id in Apply(w, e).tables.jobs
    ensures id in w.tables.jobs && Apply(w, e).tables.jobs[id].spec == w.tables.jobs[id].spec
  {
  }

  /** Only an insert can clash, and both inserts look for a clash first. */
  lemma StepKeepsUniqueKeys(w: World, e: Event)
    requires Inv(w) && Possible(w, e)
    ensures UniqueKeys(Apply(w, e).tables.jobs)
  {
    var jobs, jobs', newcomers := w.tables.jobs, Apply(w, e).tables.jobs, Begun(w, e) + Revived(w, e);
    if id :| id in newcomers {
      NewKeyStaysUnique(jobs, id, jobs'[id]);
    } else {
      forall i, j | i in jobs' && j in jobs' && SameActiveKey(jobs'[i].spec, jobs'[j].spec) ensures i == j {
        OthersKeepSpecs(w, e, i);
        OthersKeepSpecs(w, e, j);
      }
    }
  }

  lemma NewKeyStaysUnique(jobs: map<JobId, JobRow>, id: JobId, row: JobRow)
    requires UniqueKeys(jobs) && id !in jobs && !KeyTaken(jobs, row.spec)
    ensures UniqueKeys(jobs[id := row])
  {
    forall j | j in jobs ensures !SameActiveKey(jobs[j].spec, row.spec) && !SameActiveKey(row.spec, jobs[j].spec) { }
  }

  lemma StepKeepsInv(w: World, e: Event)
    requires Inv(w) && Possible(w, e)
    ensures Inv(Apply(w, e)) && Apply(w, e).clock == e.now
  {
    StepKeepsUniqueKeys(w, e);
    forall id ensures IdInv(Apply(w, e), id) {
      StepKeepsId(w, e, id);
    }
  }

  /** Whatever the interleaving, the invariant holds at the end of the run. */
  lemma {:induction false} RunKeepsInv(w: World, events: seq<Event>)
    requires Inv(w) && PossibleRun(w, events)
    ensures Inv(Run(w, events)) && w.clock <= Run(w, events).clock
    decreases |events|
  {
    if events != [] {
      StepKeepsInv(w, events[0]);
      RunKeepsInv(Apply(w, events[0]), events[1..]);
    }
  }

  /** What the invariant says of every run from empty tables. */
  lemma EveryRun(events: seq<Event>)
    requires PossibleRun(EMPTY, events)
    ensures var w := Run(EMPTY, events);
            && w.claims.Keys == w.accepted.Keys
            && (forall id :: Places(w, id) == if id in w.accepted then 1 else 0)
            && (forall id :: id in w.tables.jobs ==>
                  && id in w.accepted && w.tables.jobs[id].spec == w.accepted[id]
                  && w.tables.jobs[id].generation == w.tables.jobs[id].attempts == w.claims[id]
                  && w.claims[id] <= w.accepted[id].maxAttempts
                  && (w.tables.jobs[id].lease.Leased? ==>
                        w.tables.jobs[id].availableAt == w.tables.jobs[id].lease.expiresAt))
            && (forall id :: id in w.tables.failed ==> id in w.accepted && w.tables.failed[id].spec == w.accepted[id])
            && UniqueKeys(w.tables.jobs)
  {
    RunKeepsInv(EMPTY, events);
    var w := Run(EMPTY, events);
    forall id ensures IdInv(w, id) && (id in w.claims <==> id in w.accepted) { }
  }

  /** A restore changes nothing exactly when another queued job holds the key. */
  lemma RestoreBlockedIff(w: World, id: JobId, now: Time)
    requires Inv(w) && id in w.tables.failed
    ensures Next(w.tables, Restore(id), now) == w.tables <==> KeyTaken(w.tables.jobs, w.tables.failed[id].spec)
  {
    assert IdInv(w, id);
  }

  /** A constraint violation never happens while ids are fresh: the only statement
      of a possible run that PostgreSQL refuses is the blocked restore. */
  lemma InsertsNeverCollide(w: World, e: Event, id: JobId)
    requires Inv(w) && Possible(w, e)
    ensures e.action.Enqueue? ==> e.action.request.id !in w.tables.jobs
    ensures e.action.Fail? && Fenced(w.tables.jobs, e.action.token, e.now) ==> e.action.token.id !in w.tables.failed
    ensures e.action.Sweep? && ValidSweep(e.action.queues, e.action.names, e.action.limit) && id in e.action.batch ==>
              id !in w.tables.failed
    ensures e.action.Restore? && e.action.id in w.tables.failed ==> e.action.id !in w.tables.jobs
  {
    assert IdInv(w, id);
    if e.action.Enqueue? {
      assert IdInv(w, e.action.request.id);
    } else if e.action.Fail? {
      assert IdInv(w, e.action.token.id);
    } else if e.action.Restore? {
      assert IdInv(w, e.action.id);
    }
  }
}
