/** The PostgreSQL job store: a mutable object whose methods are the statements of
    `QueueTables`, and the worker that calls them. */
module JobStore {
  import opened Basics
  import opened QueueTables
  import opened QueueRuns
  import opened QueueWorkers
  import opened QueueOutcomes

  /** The CHECK constraints on the policy columns. */
  predicate SpecOk(spec: JobSpec) {
    && 1 <= spec.maxAttempts <= 1000
    && 1 <= spec.timeoutMs <= 86_400_000
    && 0 < |spec.backoffMs| <= 1000
    && (forall k :: 0 <= k < |spec.backoffMs| ==> 0 <= spec.backoffMs[k] <= 2_592_000_000)
  }

  predicate CountsOk(row: JobRow) {
    0 <= row.generation && 0 <= row.attempts <= row.spec.maxAttempts
  }

  predicate StoredOk(t: Tables) {
    && UniqueKeys(t.jobs)
    && (forall id :: id in t.jobs ==> SpecOk(t.jobs[id].spec) && CountsOk(t.jobs[id]))
    && (forall id :: id in t.failed ==> SpecOk(t.failed[id].spec))
  }

  lemma DispatchedSpecOk(r: EnqueueRequest, now: Time)
    requires ValidEnqueue(r)
    ensures SpecOk(SpecOf(r, now))
  {
    forall k | 0 <= k < |r.backoffNs| ensures 0 <= Millis(r.backoffNs[k]) <= 2_592_000_000 {
      assert r.backoffNs[k] in r.backoffNs;
    }
  }

  /** What the scan of a claimed row checks before handing it to the worker. */
  predicate ValidDelivery(row: JobRow) {
    && 1 <= row.attempts <= row.spec.maxAttempts <= 1000
    && SpecOk(row.spec)
    && row.lease.Leased? && row.lease.leasedAt < row.lease.expiresAt
    && row.generation >= 1
  }

  lemma BeforeIsTotalOrder(order: Order, jobs: map<JobId, JobRow>, i: JobId, j: JobId, k: JobId)
    requires i in jobs && j in jobs && k in jobs
    ensures Before(order, jobs, i, j) && Before(order, jobs, j, k) ==> Before(order, jobs, i, k)
    ensures i != j ==> Before(order, jobs, i, j) || Before(order, jobs, j, i)
  {
  }

  ghost predicate IsFirst(order: Order, jobs: map<JobId, JobRow>, ids: set<JobId>, first: JobId)
    requires ids <= jobs.Keys
  {
    first in ids && forall id :: id in ids && id != first ==> Before(order, jobs, first, id)
  }

  lemma FirstExists(order: Order, jobs: map<JobId, JobRow>, ids: set<JobId>)
    requires ids != {} && ids <= jobs.Keys
    ensures exists first :: IsFirst(order, jobs, ids, first)
  {
    var x :| x in ids;
    var rest := ids - {x};
    if rest == {} {
      assert forall id :: id in ids && id != x ==> id in rest;
      assert IsFirst(order, jobs, ids, x);
    } else {
      FirstExists(order, jobs, rest);
      var y :| IsFirst(order, jobs, rest, y);
      var first := if Before(order, jobs, x, y) then x else y;
      forall id | id in ids && id != first ensures Before(order, jobs, first, id) {
        BeforeIsTotalOrder(order, jobs, x, y, id);
      }
      assert IsFirst(order, jobs, ids, first);
    }
  }

  /** ORDER BY ... LIMIT: take the first of what remains until there is enough. */
  method PickBatch(order: Order, jobs: map<JobId, JobRow>, candidates: set<JobId>, limit: int) returns (batch: seq<JobId>)
    requires candidates <= jobs.Keys && limit >= 1
    ensures IsBatch(order, jobs, candidates, limit, batch)
  {
    batch := [];
    var remaining := candidates;
    while |batch| < limit && remaining != {}
      invariant remaining <= candidates && |batch| <= limit
      invariant forall k :: 0 <= k < |batch| ==> batch[k] in candidates && batch[k] !in remaining
      invariant forall id :: id in candidates ==> id in remaining || id in batch
      invariant forall k, l :: 0 <= k < l < |batch| ==> Before(order, jobs, batch[k], batch[l])
      invariant forall k, id :: 0 <= k < |batch| && id in remaining ==> Before(order, jobs, batch[k], id)
      decreases remaining
    {
      FirstExists(order, jobs, remaining);
      ghost var earliest :| IsFirst(order, jobs, remaining, earliest);
      var first :| first in remaining && forall id :: id in remaining && id != first ==> Before(order, jobs, first, id);
      batch, remaining := batch + [first], remaining - {first};
    }
  }

  lemma ClaimedRows(t: Tables, q: ClaimRequest, locked: set<JobId>, batch: seq<JobId>, now: Time)
    requires StoredOk(t) && ValidClaim(q)
    requires forall k :: 0 <= k < |batch| ==> batch[k] in ClaimCandidates(t.jobs, q, locked, now)
    ensures StoredOk(ClaimTables(t, q, batch, now))
    ensures forall k :: 0 <= k < |batch| ==>
              batch[k] in t.jobs && ValidDelivery(ClaimTables(t, q, batch, now).jobs[batch[k]])
  {
  }

  /** The Go loop over the rows a claim returned. */
  method ScanDeliveries(jobs: map<JobId, JobRow>, batch: seq<JobId>, worker: string) returns (scan: Option<seq<Delivery>>)
    requires forall k :: 0 <= k < |batch| ==> batch[k] in jobs
    ensures scan.Some? <==> forall k :: 0 <= k < |batch| ==> ValidDelivery(jobs[batch[k]])
    ensures scan.Some? ==> |scan.value| == |batch|
    ensures scan.Some? ==> forall k :: 0 <= k < |batch| ==> scan.value[k] == DeliveryOf(jobs[batch[k]], worker, batch[k])
  {
    var deliveries := [];
    for k := 0 to |batch|
      invariant |deliveries| == k
      invariant forall l :: 0 <= l < k ==> ValidDelivery(jobs[batch[l]]) && deliveries[l] == DeliveryOf(jobs[batch[l]], worker, batch[l])
    {
      if !ValidDelivery(jobs[batch[k]]) {
        return None;
      }
      deliveries := deliveries + [DeliveryOf(jobs[batch[k]], worker, batch[k])];
    }
    scan := Some(deliveries);
  }

  /** What a sweep reports of a job it moved to the failures. */
  datatype Exhaustion = Exhaustion(id: JobId, queue: string, name: string, attempts: int, kind: string)

  function ReportOf(id: JobId, row: FailedRow): Exhaustion {
    Exhaustion(id, row.spec.queue, row.spec.name, row.attempts, row.kind)
  }

  /** The Go loop over the rows a sweep returned, which fills in the failure kind itself. */
  method ScanExhausted(failed: map<JobId, FailedRow>, batch: seq<JobId>) returns (reported: seq<Exhaustion>)
    requires forall k :: 0 <= k < |batch| ==> batch[k] in failed && failed[batch[k]].kind == "lease_exhausted"
    ensures |reported| == |batch|
    ensures forall k :: 0 <= k < |batch| ==> reported[k] == ReportOf(batch[k], failed[batch[k]])
  {
    reported := [];
    for k := 0 to |batch|
      invariant |reported| == k
      invariant forall l :: 0 <= l < k ==> reported[l] == ReportOf(batch[l], failed[batch[l]])
    {
      var row := failed[batch[k]];
      reported := reported + [Exhaustion(batch[k], row.spec.queue, row.spec.name, row.attempts, "lease_exhausted")];
    }
  }

  class Store {
    var jobs: map<JobId, JobRow>
    var failed: map<JobId, FailedRow>

    function State(): Tables
      reads this
    {
      Tables(jobs, failed)
    }

    ghost predicate Valid()
      reads this
    {
      StoredOk(State())
    }

    constructor ()
      ensures Valid() && State() == Tables(map[], map[])
    {
      jobs, failed := map[], map[];
    }

    /** What a committed statement leaves. */
    method Write(t: Tables)
      modifies this
      ensures State() == t
    {
      jobs, failed := t.jobs, t.failed;
    }

    method Enqueue(r: EnqueueRequest, now: Time) returns (d: Dispatch)
      requires Valid()
      modifies this
      ensures Valid() && State() == EnqueueTables(old(State()), r, now)
      ensures EnqueueAnswer(old(State()), r, now, d)
    {
      if !ValidEnqueue(r) {
        return DispatchRejected;
      }
      var spec := SpecOf(r, now);
      DispatchedSpecOk(r, now);
      if KeyTaken(jobs, spec) {
        var holder :| holder in jobs && SameActiveKey(jobs[holder].spec, spec);
        return Dispatched(holder, holder == r.id);
      }
      if r.id in jobs {
        return DispatchConflict;
      }
      NewKeyStaysUnique(jobs, r.id, FreshRow(spec, 0, now));
      Write(EnqueueTables(State(), r, now));
      d := Dispatched(r.id, true);
    }

    /** The batch is leased in one statement; the scan of the returned rows never
        refuses what the statement has just written. */
    method Claim(q: ClaimRequest, locked: set<JobId>, now: Time) returns (batch: seq<JobId>, scan: Option<seq<Delivery>>)
      requires Valid()
      modifies this
      ensures Valid() && (scan.Some? <==> ValidClaim(q))
      ensures scan.None? ==> State() == old(State())
      ensures scan.Some? ==>
                && IsBatch(ByPriority, old(jobs), ClaimCandidates(old(jobs), q, locked, now), q.limit, batch)
                && State() == ClaimTables(old(State()), q, batch, now)
                && |scan.value| == |batch|
                && forall k :: 0 <= k < |batch| ==>
                     batch[k] in jobs && scan.value[k] == DeliveryOf(jobs[batch[k]], q.worker, batch[k])
    {
      if !ValidClaim(q) {
        return [], None;
      }
      batch := PickBatch(ByPriority, jobs, ClaimCandidates(jobs, q, locked, now), q.limit);
      ClaimedRows(State(), q, locked, batch, now);
      Write(ClaimTables(State(), q, batch, now));
      scan := ScanDeliveries(jobs, batch, q.worker);
    }

    method Heartbeat(token: LeaseToken, durationNs: int, now: Time) returns (answer: Answer)
      requires Valid()
      modifies this
      ensures Valid() && State() == HeartbeatTables(old(State()), token, durationNs, now)
      ensures answer == if ValidToken(token) && durationNs >= NANOS_PER_MILLI
                        then Done(Fenced(old(jobs), token, now)) else Rejected
    {
      if !ValidToken(token) || durationNs < NANOS_PER_MILLI {
        return Rejected;
      }
      answer := Done(Fenced(jobs, token, now));
      Write(HeartbeatTables(State(), token, durationNs, now));
    }

    method Ack(token: LeaseToken, now: Time) returns (answer: Answer)
      requires Valid()
      modifies this
      ensures Valid() && State() == AckTables(old(State()), token, now)
      ensures answer == if ValidToken(token) then Done(Fenced(old(jobs), token, now)) else Rejected
    {
      if !ValidToken(token) {
        return Rejected;
      }
      answer := Done(Fenced(jobs, token, now));
      Write(AckTables(State(), token, now));
    }

    method Retry(token: LeaseToken, delayNs: int, kind: string, now: Time) returns (answer: Answer)
      requires Valid()
      modifies this
      ensures Valid() && State() == RetryTables(old(State()), token, delayNs, kind, now)
      ensures answer == if ValidToken(token) && delayNs >= 0 && ValidKind(kind)
                        then Done(Fenced(old(jobs), token, now)) else Rejected
    {
      if !ValidToken(token) || delayNs < 0 || !ValidKind(kind) {
        return Rejected;
      }
      answer := Done(Fenced(jobs, token, now));
      Write(RetryTables(State(), token, delayNs, kind, now));
    }

    method Release(token: LeaseToken, now: Time) returns (answer: Answer)
      requires Valid()
      modifies this
      ensures Valid() && State() == ReleaseTables(old(State()), token, now)
      ensures answer == if ValidToken(token) then Done(Fenced(old(jobs), token, now)) else Rejected
    {
      if !ValidToken(token) {
        return Rejected;
      }
      answer := Done(Fenced(jobs, token, now));
      Write(ReleaseTables(State(), token, now));
    }

    method Fail(token: LeaseToken, kind: string, now: Time) returns (answer: Answer)
      requires Valid()
      modifies this
      ensures Valid() && State() == FailTables(old(State()), token, kind, now)
      ensures answer == if !ValidToken(token) || kind == "" || !ValidKind(kind) then Rejected
                        else if !Fenced(old(jobs), token, now) then Done(false)
                        else if token.id in old(failed) then Conflict else Done(true)
    {
      if !ValidToken(token) || kind == "" || !ValidKind(kind) {
        return Rejected;
      }
      if Fenced(jobs, token, now) && token.id in failed {
        return Conflict;
      }
      answer := Done(Fenced(jobs, token, now));
      Write(FailTables(State(), token, kind, now));
    }

    method FailExhausted(queues: seq<string>, names: seq<string>, limit: int, locked: set<JobId>, now: Time)
      returns (answer: Answer, batch: seq<JobId>, reported: seq<Exhaustion>)
      requires Valid()
      modifies this
      ensures Valid()
      ensures answer.Rejected? <==> !ValidSweep(queues, names, limit)
      ensures answer.Rejected? ==> State() == old(State())
      ensures !answer.Rejected? ==>
                && IsBatch(ByAge, old(jobs), SweepCandidates(old(jobs), queues, names, locked, now), limit, batch)
                && State() == SweepTables(old(State()), batch, now)
                && (answer.Conflict? <==> exists id :: id in batch && id in old(failed))
      ensures !answer.Done? ==> reported == []
      ensures answer.Done? ==> |reported| == |batch| && forall k :: 0 <= k < |batch| ==>
                batch[k] in failed && reported[k] == ReportOf(batch[k], failed[batch[k]])
    {
      if !ValidSweep(queues, names, limit) {
        return Rejected, [], [];
      }
      batch := PickBatch(ByAge, jobs, SweepCandidates(jobs, queues, names, locked, now), limit);
      if exists id :: id in batch && id in failed {
        return Conflict, batch, [];
      }
      Write(SweepTables(State(), batch, now));
      reported := ScanExhausted(failed, batch);
      answer := Done(|batch| > 0);
    }

    method RetryFailed(id: JobId, now: Time) returns (answer: Answer)
      requires Valid()
      modifies this
      ensures Valid() && State() == RestoreTables(old(State()), id, now)
      ensures answer == if id !in old(failed) then Done(false) else if Restores(old(State()), id) then Done(true) else Conflict
    {
      if id !in failed {
        return Done(false);
      }
      if id in jobs || KeyTaken(jobs, failed[id].spec) {
        return Conflict;
      }
      NewKeyStaysUnique(jobs, id, FreshRow(failed[id].spec, now, now));
      Write(RestoreTables(State(), id, now));
      answer := Done(true);
    }

    method ForgetFailed(id: JobId) returns (answer: Answer)
      requires Valid()
      modifies this
      ensures Valid() && State() == ForgetTables(old(State()), id)
      ensures answer == Done(id in old(failed))
    {
      answer := Done(id in failed);
      Write(ForgetTables(State(), id));
    }
  }

  /** Handlers by job name; registration never replaces or removes one. */
  class Registry {
    var names: set<string>

    constructor ()
      ensures names == {}
    {
      names := {};
    }

    method Register(name: string) returns (ok: bool)
      modifies this
      ensures old(names) <= names <= old(names) + {name}
      ensures ok <==> name != "" && name !in old(names)
      ensures name != "" ==> name in names
    {
      if name == "" || name in names {
        return false;
      }
      names := names + {name};
      ok := true;
    }
  }

  /** The one store call that a handler's result stands for. */
  method Complete(store: Store, registry: Registry, d: Delivery, result: HandlerResult, now: Time) returns (answer: Option<Answer>)
    requires store.Valid()
    modifies store
    ensures store.Valid()
    ensures var call := StoreCall(registry.names, d, result);
            && answer.Some? == call.Some?
            && store.State() == if call.Some? then Next(old(store.State()), call.value, now) else old(store.State())
  {
    if d.name !in registry.names {
      var a := store.Release(d.token, now);
      return Some(a);
    }
    match result
    case Abandoned =>
      answer := None;
    case Undecodable =>
      var a := store.Fail(d.token, "malformed_payload", now);
      answer := Some(a);
    case Returned =>
      var a := store.Ack(d.token, now);
      answer := Some(a);
    case Errored(error) =>
      var c := Classify(error);
      if c.permanent || d.attempt >= d.maxAttempts {
        var a := store.Fail(d.token, c.kind, now);
        return Some(a);
      }
      var delay := RetryDelayMs(d.backoffMs, d.attempt) * NANOS_PER_MILLI;
      if c.delayNs.Some? {
        delay := c.delayNs.value;
      }
      var a := store.Retry(d.token, delay, c.kind, now);
      answer := Some(a);
  }

  /** The delivery is of a row that stands in the queue under a live lease, and its name has a handler. */
  predicate IsLive(t: Tables, names: set<string>, d: Delivery, now: Time) {
    Fenced(t.jobs, d.token, now) && IsOf(d, t.jobs[d.token.id]) && d.name in names && d.token.id !in t.failed
  }

  /** The end of one delivery: a live job ends as its result says, and without a live lease nothing changes. */
  method Finish(store: Store, registry: Registry, d: Delivery, result: HandlerResult, now: Time) returns (answer: Option<Answer>)
    requires store.Valid()
    modifies store
    ensures store.Valid()
    ensures IsLive(old(store.State()), registry.names, d, now) ==>
              Ends(old(store.State()), store.State(), d.token.id, result, now)
    ensures !Fenced(old(store.jobs), d.token, now) ==> store.State() == old(store.State())
    ensures answer.None? <==> d.name in registry.names && result.Abandoned?
  {
    ghost var t := store.State();
    answer := Complete(store, registry, d, result, now);
    if !Fenced(t.jobs, d.token, now) {
      LostEnds(registry.names, t, d, result, now);
    } else if IsLive(t, registry.names, d, now) {
      CallEnds(registry.names, t, d, result, now);
    }
  }
}
