/** What a dispatched job is and when it is taken: the columns of its request, not before its time, and in the order that
    claims promise. */
module QueueDispatch {
  import opened Basics
  import opened QueueTables
  import opened QueueRuns

  // ---- the columns of the request ---------------------------------------------------------------------------

  /** The spec is the request, durations in whole milliseconds. */
  predicate AsRequested(spec: JobSpec, r: EnqueueRequest, now: Time) {
    && spec.queue == r.queue && spec.name == r.name && spec.payload == r.payload && spec.priority == r.priority
    && spec.maxAttempts == r.maxAttempts && spec.timeoutMs == r.timeoutNs / 1_000_000
    && |spec.backoffMs| == |r.backoffNs|
    && (forall k :: 0 <= k < |r.backoffNs| ==> spec.backoffMs[k] == r.backoffNs[k] / 1_000_000)
    && spec.dedupKey == (if r.dedupKey == "" then None else Some(r.dedupKey))
    && spec.createdAt == now
  }

  predicate DispatchedBy(e: Event, id: JobId, spec: JobSpec) {
    e.action.Enqueue? && e.action.request.id == id && ValidEnqueue(e.action.request) && AsRequested(spec, e.action.request, e.now)
  }

  lemma {:induction false} AcceptedForever(w: World, events: seq<Event>, id: JobId)
    requires PossibleRun(w, events) && id in w.accepted
    ensures id in Run(w, events).accepted && Run(w, events).accepted[id] == w.accepted[id]
    decreases |events|
  {
    if events != [] {
      AcceptedForever(Apply(w, events[0]), events[1..], id);
    }
  }

  lemma {:induction false} AcceptedAsDispatched(w: World, events: seq<Event>, id: JobId) returns (k: nat)
    requires PossibleRun(w, events) && id !in w.accepted && id in Run(w, events).accepted
    ensures k < |events| && DispatchedBy(events[k], id, Run(w, events).accepted[id])
    decreases |events|
  {
    var v := Apply(w, events[0]);
    if id in v.accepted {
      AcceptedForever(v, events[1..], id);
      k := 0;
    } else {
      var rest := AcceptedAsDispatched(v, events[1..], id);
      k := rest + 1;
    }
  }

  /** After every run, each queued and each failed job holds what some dispatch under its id asked for. */
  lemma RowsAreAsDispatched(events: seq<Event>, id: JobId) returns (k: nat)
    requires PossibleRun(EMPTY, events)
    requires id in Run(EMPTY, events).tables.jobs || id in Run(EMPTY, events).tables.failed
    ensures k < |events|
    ensures var t := Run(EMPTY, events).tables;
      && (id in t.jobs ==> DispatchedBy(events[k], id, t.jobs[id].spec))
      && (id in t.failed ==> DispatchedBy(events[k], id, t.failed[id].spec))
  {
    EveryRun(events);
    k := AcceptedAsDispatched(EMPTY, events, id);
  }

  // ---- one active job per key ---------------------------------------------------------------------------------

  /** The job is of the queue and the name that the request asks for, and has its key. */
  predicate HoldsKey(row: JobRow, r: EnqueueRequest) {
    r.dedupKey != "" && row.spec.queue == r.queue && row.spec.name == r.name && row.spec.dedupKey == Some(r.dedupKey)
  }

  /** A dispatch is always answered with a job that is queued. It is a new one exactly when no queued job holds the key;
      otherwise it is the job that does, and nothing is changed. Either way that job is the only one to hold the key. */
  lemma DispatchDeduplicates(w: World, e: Event, d: Dispatch)
    requires Inv(w) && Possible(w, e) && e.action.Enqueue? && ValidEnqueue(e.action.request)
    requires EnqueueAnswer(w.tables, e.action.request, e.now, d)
    ensures var r, jobs, after := e.action.request, w.tables.jobs, Apply(w, e).tables.jobs;
      && d.Dispatched? && d.id in after
      && (d.enqueued <==> d.id == r.id) && (d.enqueued <==> forall i :: i in jobs ==> !HoldsKey(jobs[i], r))
      && (!d.enqueued ==> d.id in jobs && Apply(w, e).tables == w.tables)
      && (r.dedupKey != "" ==> HoldsKey(after[d.id], r) && forall i :: i in after && HoldsKey(after[i], r) ==> i == d.id)
  {
    var r, jobs := e.action.request, w.tables.jobs;
    assert IdInv(w, r.id);
    assert forall i :: i in jobs ==> (SameActiveKey(jobs[i].spec, SpecOf(r, e.now)) <==> HoldsKey(jobs[i], r));
  }

  /** Dispatching the same request again, while its job is queued, changes nothing and is answered as the first time. */
  lemma DispatchAgain(t: Tables, r: EnqueueRequest, now: Time, later: Time, d: Dispatch)
    requires UniqueKeys(t.jobs) && Inserts(t, r, now) && r.dedupKey != ""
    requires EnqueueAnswer(EnqueueTables(t, r, now), r, later, d)
    ensures d == Dispatched(r.id, true) && EnqueueTables(EnqueueTables(t, r, now), r, later) == EnqueueTables(t, r, now)
  {
    var jobs := EnqueueTables(t, r, now).jobs;
    assert SameActiveKey(jobs[r.id].spec, SpecOf(r, later));
    assert forall i :: i in t.jobs ==> !SameActiveKey(t.jobs[i].spec, SpecOf(r, now));
  }

  // ---- not before its time --------------------------------------------------------------------------------------

  lemma {:induction false} ClockOnlyGrows(w: World, events: seq<Event>, k: nat)
    requires PossibleRun(w, events) && k < |events|
    ensures w.clock <= events[k].now
    decreases |events|
  {
    if k > 0 {
      ClockOnlyGrows(Apply(w, events[0]), events[1..], k - 1);
    }
  }

  /** Only a claim touches a job without a lease. */
  lemma UnleasedIsLeftAlone(w: World, e: Event, id: JobId)
    requires Inv(w) && Possible(w, e) && id in w.tables.jobs && w.tables.jobs[id].lease.Unleased? && !Claims(e, id)
    ensures id in Apply(w, e).tables.jobs && Apply(w, e).tables.jobs[id] == w.tables.jobs[id]
  {
    assert IdInv(w, id);
    if e.action.Sweep? && ValidSweep(e.action.queues, e.action.names, e.action.limit) && id in e.action.batch {
      BatchIsExhausted(w, e, id);
    }
  }

  /** A job without a lease is not claimed before its time, whatever happens until then. */
  lemma {:induction false} NotClaimedEarly(w: World, events: seq<Event>, id: JobId, k: nat)
    requires Inv(w) && PossibleRun(w, events) && k < |events| && Claims(events[k], id)
    requires id in w.tables.jobs && w.tables.jobs[id].lease.Unleased?
    ensures w.tables.jobs[id].availableAt <= events[k].now
    decreases |events|
  {
    if Claims(events[0], id) {
      BatchIsClaimable(w, events[0], id);
      if k > 0 {
        ClockOnlyGrows(Apply(w, events[0]), events[1..], k - 1);
      }
    } else {
      UnleasedIsLeftAlone(w, events[0], id);
      StepKeepsInv(w, events[0]);
      NotClaimedEarly(Apply(w, events[0]), events[1..], id, k - 1);
    }
  }

  /** When a dispatched job may first be taken: at the time it asks for, or after its delay. */
  function DueAt(r: EnqueueRequest, now: Time): Time {
    if r.at.Some? then r.at.value else now + r.delayNs / 1_000_000 * 1_000
  }

  /** A dispatched job is queued once, without a lease or an attempt, and not claimed before it is due. */
  lemma DispatchedWaits(w: World, e: Event, events: seq<Event>, k: nat)
    requires Inv(w) && Possible(w, e) && e.action.Enqueue? && Inserts(w.tables, e.action.request, e.now)
    requires PossibleRun(Apply(w, e), events)
    ensures var t, id := Apply(w, e).tables, e.action.request.id;
      && id in t.jobs && t.jobs[id].attempts == 0 && t.jobs[id].lease == Unleased
      && t.jobs[id].availableAt == DueAt(e.action.request, e.now)
      && t.jobs.Keys == w.tables.jobs.Keys + {id} && t.failed == w.tables.failed
      && forall i :: i in w.tables.jobs ==> t.jobs[i] == w.tables.jobs[i]
    ensures k < |events| && Claims(events[k], e.action.request.id) ==> DueAt(e.action.request, e.now) <= events[k].now
  {
    assert IdInv(w, e.action.request.id);
    StepKeepsInv(w, e);
    if k < |events| && Claims(events[k], e.action.request.id) {
      NotClaimedEarly(Apply(w, e), events, e.action.request.id, k);
    }
  }

  /** A retried job is not claimed before its delay has passed. */
  lemma RetriedWaits(w: World, e: Event, events: seq<Event>, k: nat)
    requires Inv(w) && Possible(w, e) && e.action.Retry? && e.action.delayNs >= 0 && ValidKind(e.action.kind)
    requires ValidToken(e.action.token) && Fenced(w.tables.jobs, e.action.token, e.now)
    requires PossibleRun(Apply(w, e), events) && k < |events| && Claims(events[k], e.action.token.id)
    ensures e.now + e.action.delayNs / 1_000_000 * 1_000 <= events[k].now
  {
    StepKeepsInv(w, e);
    NotClaimedEarly(Apply(w, e), events, e.action.token.id, k);
  }

  /** A released and a restored job may be taken at once; a restored one has all its attempts again. */
  lemma AtOnce(w: World, e: Event, id: JobId)
    requires Inv(w) && Possible(w, e)
    requires
      || (e.action.Release? && ValidToken(e.action.token) && Fenced(w.tables.jobs, e.action.token, e.now) && id == e.action.token.id)
      || (e.action.Restore? && Restores(w.tables, e.action.id) && id == e.action.id)
    ensures id in Apply(w, e).tables.jobs && Apply(w, e).tables.jobs[id].availableAt == e.now
    ensures Apply(w, e).tables.jobs[id].lease == Unleased
    ensures e.action.Restore? ==>
      && Apply(w, e).tables.jobs[id].attempts == 0 && Apply(w, e).tables.jobs[id].spec == w.tables.failed[id].spec
      && id !in Apply(w, e).tables.failed
    ensures e.action.Release? ==> Apply(w, e).tables.jobs[id].attempts == w.tables.jobs[id].attempts
  {
  }

  // ---- in the promised order ------------------------------------------------------------------------------------

  /** The claim asks for jobs like this one, and it is due with an attempt left. */
  predicate MayTake(q: ClaimRequest, row: JobRow, now: Time) {
    row.spec.queue in q.queues && row.spec.name in q.names && row.availableAt <= now && row.attempts < row.spec.maxAttempts
  }

  /** Higher priority first; then the one that was due earlier; then the lower id. */
  predicate Precedes(a: JobRow, i: JobId, b: JobRow, j: JobId) {
    || a.spec.priority > b.spec.priority
    || (a.spec.priority == b.spec.priority && Older(a, i, b, j))
  }

  predicate Older(a: JobRow, i: JobId, b: JobRow, j: JobId) {
    a.availableAt < b.availableAt || (a.availableAt == b.availableAt && i < j)
  }

  /** A claim takes only jobs it asks for, in order and none twice. What it passes over although it might take it is locked,
      or comes after everything taken and the claim is full. */
  lemma ClaimTakesTheFirst(w: World, e: Event)
    requires Possible(w, e) && e.action.Claim? && ValidClaim(e.action.claim)
    ensures var jobs, q, batch := w.tables.jobs, e.action.claim, e.action.batch;
      && (forall k :: 0 <= k < |batch| ==>
            batch[k] in jobs && batch[k] !in e.action.locked && MayTake(q, jobs[batch[k]], e.now))
      && (forall k, l :: 0 <= k < l < |batch| ==> Precedes(jobs[batch[k]], batch[k], jobs[batch[l]], batch[l]))
      && |batch| <= q.limit
      && (forall j :: j in jobs && j !in e.action.locked && MayTake(q, jobs[j], e.now) && j !in batch ==>
            |batch| == q.limit && forall k :: 0 <= k < |batch| ==> Precedes(jobs[batch[k]], batch[k], jobs[j], j))
  {
  }

  predicate MaySweep(queues: seq<string>, names: seq<string>, row: JobRow, now: Time) {
    && row.spec.queue in queues && row.spec.name in names
    && row.lease.Leased? && row.availableAt <= now && row.attempts >= row.spec.maxAttempts
  }

  /** A sweep takes only jobs whose last lease has run out, the oldest first, in the same way. */
  lemma SweepTakesTheOldest(w: World, e: Event)
    requires Possible(w, e) && e.action.Sweep? && ValidSweep(e.action.queues, e.action.names, e.action.limit)
    ensures var jobs, batch := w.tables.jobs, e.action.batch;
      && (forall k :: 0 <= k < |batch| ==>
            batch[k] in jobs && batch[k] !in e.action.locked && MaySweep(e.action.queues, e.action.names, jobs[batch[k]], e.now))
      && (forall k, l :: 0 <= k < l < |batch| ==> Older(jobs[batch[k]], batch[k], jobs[batch[l]], batch[l]))
      && |batch| <= e.action.limit
      && (forall j :: j in jobs && j !in e.action.locked && MaySweep(e.action.queues, e.action.names, jobs[j], e.now) && j !in batch ==>
            |batch| == e.action.limit && forall k :: 0 <= k < |batch| ==> Older(jobs[batch[k]], batch[k], jobs[j], j))
  {
  }

  /** What a sweep takes goes to the failures with its attempts, and nothing else changes. */
  lemma SweptToFailures(w: World, e: Event, id: JobId)
    requires Inv(w) && Possible(w, e) && e.action.Sweep? && ValidSweep(e.action.queues, e.action.names, e.action.limit)
    ensures var t, t' := w.tables, Apply(w, e).tables;
      if id in e.action.batch then
        && id in t.jobs && id !in t'.jobs && id in t'.failed
        && t'.failed[id] == FailedRow(t.jobs[id].spec, t.jobs[id].attempts, "lease_exhausted", e.now)
      else
        && (id in t.jobs <==> id in t'.jobs) && (id in t.jobs ==> t'.jobs[id] == t.jobs[id])
        && (id in t.failed <==> id in t'.failed) && (id in t.failed ==> t'.failed[id] == t.failed[id])
  {
    forall i | i in e.action.batch
      ensures i in w.tables.jobs && i !in w.tables.failed
    {
      BatchIsExhausted(w, e, i);
      assert IdInv(w, i);
    }
  }

  /** A claim leases what it takes to its worker, for the time asked for, and uses up an attempt; nothing else changes. */
  lemma ClaimLeases(w: World, e: Event, id: JobId)
    requires Inv(w) && Possible(w, e) && e.action.Claim? && ValidClaim(e.action.claim)
    ensures var t, t', q := w.tables, Apply(w, e).tables, e.action.claim;
      && t'.failed == t.failed && t'.jobs.Keys == t.jobs.Keys
      && (id in t.jobs && id !in e.action.batch ==> t'.jobs[id] == t.jobs[id])
      && (id in e.action.batch ==>
            && id in t.jobs
            && var end := e.now + q.leaseNs / 1_000_000 * 1_000;
            t'.jobs[id] == JobRow(t.jobs[id].spec, end, t.jobs[id].attempts + 1, t.jobs[id].generation + 1,
                                  Leased(q.worker, e.now, end), t.jobs[id].lastErrorKind, e.now))
  {
    if id in e.action.batch {
      BatchIsClaimable(w, e, id);
    }
  }

  /** A heartbeat moves the end of a live lease, and changes nothing else of any job. */
  lemma HeartbeatExtends(w: World, e: Event, id: JobId)
    requires Possible(w, e) && e.action.Heartbeat? && ValidToken(e.action.token) && e.action.durationNs >= 1_000_000
    requires id in w.tables.jobs
    ensures var t, t' := w.tables, Apply(w, e).tables;
      && t'.failed == t.failed && t'.jobs.Keys == t.jobs.Keys
      && var end := e.now + e.action.durationNs / 1_000_000 * 1_000;
      t'.jobs[id] == if id == e.action.token.id && Fenced(t.jobs, e.action.token, e.now) then
          t.jobs[id].(availableAt := end, lease := t.jobs[id].lease.(expiresAt := end), updatedAt := e.now)
        else t.jobs[id]
  {
  }
}
