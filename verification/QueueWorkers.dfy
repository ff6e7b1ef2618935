/** Runs of the queue that only workers drive, beside dispatch and administration.

    A worker claims under the handler names it saw when it started, and what it
    does with a delivery afterwards follows from the handler's result. */
module QueueWorkers {
  import opened Basics
  import opened QueueTables
  import opened QueueRuns
  import opened QueueFences

  datatype Delivery = Delivery(token: LeaseToken, name: string, attempt: int, maxAttempts: int, backoffMs: seq<int>)

  /** How a handler can fail, as the worker's error classification sees it. */
  datatype HandlerError = HandlerError(panicked: bool, permanent: bool, retryAfterNs: Option<nat>, deadline: bool)

  datatype HandlerResult =
    | Undecodable
    | Returned
    | Errored(error: HandlerError)
    | Abandoned  // lost lease, forced shutdown, or a handler that would not stop

  datatype Classified = Classified(kind: string, delayNs: Option<nat>, permanent: bool)

  function Classify(e: HandlerError): Classified {
    var c := if e.panicked then Classified("panic", None, false)
             else if e.permanent then Classified("permanent", None, true)
             else Classified("error", e.retryAfterNs, false);
    if e.deadline then c.(kind := "timeout") else c
  }

  const DEFAULT_BACKOFF_MS := [1_000, 5_000, 30_000]

  function BackoffOf(backoff: seq<int>): seq<int> {
    if backoff == [] then DEFAULT_BACKOFF_MS else backoff
  }

  function RetryDelayMs(backoff: seq<int>, attempt: int): (ms: int)
    ensures attempt <= 1 ==> ms == BackoffOf(backoff)[0]
    ensures 1 <= attempt <= |BackoffOf(backoff)| ==> ms == BackoffOf(backoff)[attempt - 1]
    ensures attempt > |BackoffOf(backoff)| ==> ms == BackoffOf(backoff)[|BackoffOf(backoff)| - 1]
  {
    var b := BackoffOf(backoff);
    var i := if attempt - 1 < 0 then 0 else attempt - 1;
    if i >= |b| then b[|b| - 1] else b[i]
  }

  /** The store call that follows a handler's result; None when the lease is left to expire. */
  function StoreCall(registered: set<string>, d: Delivery, result: HandlerResult): Option<Action> {
    if d.name !in registered then Some(Release(d.token))
    else match result
      case Undecodable => Some(Fail(d.token, "malformed_payload"))
      case Returned => Some(Ack(d.token))
      case Abandoned => None
      case Errored(error) =>
        var c := Classify(error);
        if c.permanent || d.attempt >= d.maxAttempts then Some(Fail(d.token, c.kind))
        else
          var delay := if c.delayNs.Some? then c.delayNs.value
                       else RetryDelayMs(d.backoffMs, d.attempt) * NANOS_PER_MILLI;
          Some(Retry(d.token, delay, c.kind))
  }

  /** Every worker has a registry of its own, and takes a snapshot of its names when it starts.
      `deliveries` is never emptied: a worker may finish as late as it likes. */
  datatype Fleet = Fleet(world: World, registered: map<string, set<string>>, snapshots: map<string, set<string>>, deliveries: set<Delivery>)

  datatype FleetEvent =
    | Outside(event: Event)
    | Registers(worker: string, name: string)
    | Starts(worker: string)
    | Polls(worker: string, event: Event)
    | Sweeps(worker: string, event: Event)
    | Beats(delivery: Delivery, durationNs: int, now: Time)
    | Finishes(delivery: Delivery, result: HandlerResult, now: Time)

  function Registered(f: Fleet, worker: string): set<string> {
    if worker in f.registered then f.registered[worker] else {}
  }

  ghost predicate FleetPossible(f: Fleet, e: FleetEvent) {
    match e
    case Outside(event) =>
      (event.action.Enqueue? || event.action.Restore? || event.action.Forget?) && Possible(f.world, event)
    case Registers(worker, name) => true
    case Starts(worker) => true
    case Polls(worker, event) =>
      && worker in f.snapshots && Possible(f.world, event)
      && event.action.Claim? && ValidClaim(event.action.claim) && event.action.claim.worker == worker
      && (forall n :: n in event.action.claim.names ==> n in f.snapshots[worker])
    case Sweeps(worker, event) =>
      && worker in f.snapshots && Possible(f.world, event)
      && event.action.Sweep? && (forall n :: n in event.action.names ==> n in f.snapshots[worker])
    case Beats(d, duration, now) => d in f.deliveries && f.world.clock <= now
    case Finishes(d, result, now) => d in f.deliveries && f.world.clock <= now
  }

  /** What Claim returns for one row of its batch. */
  function DeliveryOf(row: JobRow, worker: string, id: JobId): Delivery {
    Delivery(LeaseToken(id, worker, row.generation), row.spec.name, row.attempts, row.spec.maxAttempts, row.spec.backoffMs)
  }

  function FleetApply(f: Fleet, e: FleetEvent): Fleet {
    match e
    case Outside(event) => f.(world := Apply(f.world, event))
    case Registers(worker, name) => f.(registered := f.registered[worker := Registered(f, worker) + {name}])
    case Starts(worker) => f.(snapshots := f.snapshots[worker := Registered(f, worker)])
    case Polls(worker, event) =>
      var w := Apply(f.world, event);
      var batch := if event.action.Claim? then event.action.batch else [];
      f.(world := w, deliveries := f.deliveries + set id | id in batch && id in w.tables.jobs :: DeliveryOf(w.tables.jobs[id], worker, id))
    case Sweeps(worker, event) => f.(world := Apply(f.world, event))
    case Beats(d, duration, now) => f.(world := Apply(f.world, Event(Heartbeat(d.token, duration), now)))
    case Finishes(d, result, now) =>
      var call := StoreCall(Registered(f, d.token.worker), d, result);
      if call.Some? then f.(world := Apply(f.world, Event(call.value, now))) else f
  }

  function FleetRun(f: Fleet, events: seq<FleetEvent>): Fleet
    decreases |events|
  {
    if events == [] then f else FleetRun(FleetApply(f, events[0]), events[1..])
  }

  ghost predicate FleetPossibleRun(f: Fleet, events: seq<FleetEvent>)
    decreases |events|
  {
    events == [] || (FleetPossible(f, events[0]) && FleetPossibleRun(FleetApply(f, events[0]), events[1..]))
  }

  // ---- the invariant -------------------------------------------------------

  predicate DeliveryInv(f: Fleet, d: Delivery) {
    && d.name in Registered(f, d.token.worker)
    && d.token.id in f.world.accepted && ValidToken(d.token)
    && d.name == f.world.accepted[d.token.id].name
    && d.attempt == d.token.generation
    && d.maxAttempts == f.world.accepted[d.token.id].maxAttempts
    && d.backoffMs == f.world.accepted[d.token.id].backoffMs
  }

  /** No backoff is negative. */
  predicate SpecsOk(w: World) {
    forall id, k :: id in w.accepted && 0 <= k < |w.accepted[id].backoffMs| ==> w.accepted[id].backoffMs[k] >= 0
  }

  lemma StepKeepsSpecs(w: World, e: Event)
    requires SpecsOk(w) && Possible(w, e)
    ensures SpecsOk(Apply(w, e))
  {
    if e.action.Enqueue? && Inserts(w.tables, e.action.request, e.now) {
      var r := e.action.request;
      forall k | 0 <= k < |r.backoffNs|
        ensures SpecOf(r, e.now).backoffMs[k] >= 0
      {
        assert r.backoffNs[k] in r.backoffNs;
      }
    }
  }

  predicate NoneStranded(w: World) {
    forall id :: id in w.tables.jobs ==> !Stranded(w.tables.jobs[id])
  }

  ghost predicate FleetInv(f: Fleet) {
    && Inv(f.world) && SpecsOk(f.world)
    && NoneStranded(f.world)
    && (forall worker :: worker in f.snapshots ==> f.snapshots[worker] <= Registered(f, worker))
    && (forall d :: d in f.deliveries ==> DeliveryInv(f, d))
  }

  /** Retry and Release take a lease away; this one does so on the last attempt. */
  predicate GivesBackTheLast(w: World, e: Event) {
    && (e.action.Release? || e.action.Retry?)
    && e.action.token.id in w.tables.jobs
    && e.action.token.generation == w.tables.jobs[e.action.token.id].generation
    && w.tables.jobs[e.action.token.id].attempts == w.tables.jobs[e.action.token.id].spec.maxAttempts
  }

  lemma RowStaysUnstranded(w: World, e: Event, id: JobId)
    requires Inv(w) && Possible(w, e) && id in Apply(w, e).tables.jobs && !GivesBackTheLast(w, e)
    requires id in w.tables.jobs ==> !Stranded(w.tables.jobs[id])
    ensures !Stranded(Apply(w, e).tables.jobs[id])
  {
    assert IdInv(w, id);
  }

  lemma StrandingNeedsGivingBack(w: World, e: Event)
    requires Inv(w) && Possible(w, e) && NoneStranded(w) && !GivesBackTheLast(w, e)
    ensures NoneStranded(Apply(w, e))
  {
    var w' := Apply(w, e);
    forall id | id in w'.tables.jobs ensures !Stranded(w'.tables.jobs[id]) {
      RowStaysUnstranded(w, e, id);
    }
  }

  /** Handlers only ever get added, so a claimed name always has its handler:
      a worker never releases, and never retries a final attempt. */
  lemma WorkersNeverGiveBackTheLastAttempt(f: Fleet, d: Delivery, result: HandlerResult)
    requires FleetInv(f) && d in f.deliveries
    ensures var call := StoreCall(Registered(f, d.token.worker), d, result);
            call.Some? ==> Uses(call.value, d.token) && !call.value.Release?
                           && (call.value.Retry? ==> d.token.generation < f.world.accepted[d.token.id].maxAttempts)
  {
    assert DeliveryInv(f, d);
  }

  lemma AcceptedStays(w: World, e: Event, id: JobId)
    requires Inv(w) && Possible(w, e) && id in w.accepted
    ensures id in Apply(w, e).accepted && Apply(w, e).accepted[id] == w.accepted[id]
  {
  }

  lemma WorldMoves(f: Fleet, e: Event, f': Fleet)
    requires FleetInv(f) && Possible(f.world, e) && NoneStranded(Apply(f.world, e))
    requires f' == f.(world := Apply(f.world, e))
    ensures FleetInv(f')
  {
    StepKeepsInv(f.world, e);
    StepKeepsSpecs(f.world, e);
    forall d | d in f'.deliveries ensures DeliveryInv(f', d) {
      assert DeliveryInv(f, d);
      AcceptedStays(f.world, e, d.token.id);
    }
  }

  lemma PollKeepsInv(f: Fleet, e: FleetEvent)
    requires FleetInv(f) && FleetPossible(f, e) && e.Polls?
    ensures FleetInv(FleetApply(f, e))
  {
    var w, w' := f.world, Apply(f.world, e.event);
    StrandingNeedsGivingBack(w, e.event);
    WorldMoves(f, e.event, f.(world := w'));
    forall id | id in e.event.action.batch && id in w'.tables.jobs
      ensures DeliveryInv(FleetApply(f, e), DeliveryOf(w'.tables.jobs[id], e.worker, id))
    {
      BatchIsClaimable(w, e.event, id);
      assert IdInv(w', id) && IdInv(w, id);
      assert Named(w.tables.jobs[id], e.event.action.claim.queues, e.event.action.claim.names);
    }
    assert forall d :: d in f.deliveries ==> DeliveryInv(f.(world := w'), d);
  }

  lemma FinishKeepsInv(f: Fleet, e: FleetEvent)
    requires FleetInv(f) && FleetPossible(f, e) && e.Finishes?
    ensures FleetInv(FleetApply(f, e))
  {
    var call := StoreCall(Registered(f, e.delivery.token.worker), e.delivery, e.result);
    if call.Some? {
      var event := Event(call.value, e.now);
      WorkersNeverGiveBackTheLastAttempt(f, e.delivery, e.result);
      assert IdInv(f.world, e.delivery.token.id);
      StrandingNeedsGivingBack(f.world, event);
      WorldMoves(f, event, FleetApply(f, e));
    }
  }

  lemma FleetStepKeepsInv(f: Fleet, e: FleetEvent)
    requires FleetInv(f) && FleetPossible(f, e)
    ensures FleetInv(FleetApply(f, e))
  {
    match e
    case Polls(_, _) => PollKeepsInv(f, e);
    case Finishes(_, _, _) => FinishKeepsInv(f, e);
    case Beats(d, duration, now) =>
      var event := Event(Heartbeat(d.token, duration), now);
      StrandingNeedsGivingBack(f.world, event);
      WorldMoves(f, event, FleetApply(f, e));
    case Outside(event) =>
      StrandingNeedsGivingBack(f.world, event);
      WorldMoves(f, event, FleetApply(f, e));
    case Sweeps(_, event) =>
      StrandingNeedsGivingBack(f.world, event);
      WorldMoves(f, event, FleetApply(f, e));
    case Registers(_, _) =>
      assert forall d :: d in f.deliveries ==> DeliveryInv(f, d);
    case Starts(worker) =>
      assert forall d :: d in f.deliveries ==> DeliveryInv(f, d);
  }

  lemma {:induction false} FleetRunKeepsInv(f: Fleet, events: seq<FleetEvent>)
    requires FleetInv(f) && FleetPossibleRun(f, events)
    ensures FleetInv(FleetRun(f, events))
    decreases |events|
  {
    if events != [] {
      FleetStepKeepsInv(f, events[0]);
      FleetRunKeepsInv(FleetApply(f, events[0]), events[1..]);
    }
  }

  /** In every run that workers drive, each queued job, from the moment its time
      has come, can be taken by exactly one of a claim and a sweep. */
  lemma NoJobIsStranded(events: seq<FleetEvent>, id: JobId, t: Time)
    requires FleetPossibleRun(Fleet(EMPTY, map[], map[], {}), events)
    requires id in FleetRun(Fleet(EMPTY, map[], map[], {}), events).world.tables.jobs
    requires FleetRun(Fleet(EMPTY, map[], map[], {}), events).world.tables.jobs[id].availableAt <= t
    ensures var row := FleetRun(Fleet(EMPTY, map[], map[], {}), events).world.tables.jobs[id];
            Claimable(row, t) <==> !Exhausted(row, t)
  {
    FleetRunKeepsInv(Fleet(EMPTY, map[], map[], {}), events);
  }
}
