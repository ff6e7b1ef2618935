/** What the end of a delivery leaves in the tables, and which jobs are acknowledged over whole runs of workers. */
module QueueOutcomes {
  import opened Basics
  import opened QueueTables
  import opened QueueRuns
  import opened QueueWorkers

  // ---- in the tables ------------------------------------------------------------------------------------------

  ghost predicate OthersStay(t: Tables, t': Tables, id: JobId) {
    && (forall i :: i != id ==> (i in t.jobs <==> i in t'.jobs) && (i in t.jobs ==> t'.jobs[i] == t.jobs[i]))
    && (forall i :: i != id ==> (i in t.failed <==> i in t'.failed) && (i in t.failed ==> t'.failed[i] == t.failed[i]))
  }

  /** The job has left the queue for the failures. */
  predicate MovedToFailures(t: Tables, t': Tables, id: JobId, kind: string, now: Time)
    requires id in t.jobs
  {
    && id !in t'.jobs && id in t'.failed
    && t'.failed[id] == FailedRow(t.jobs[id].spec, t.jobs[id].attempts, kind, now)
  }

  /** The job is queued again, without a lease and with the attempts it had, to be taken `wait` microseconds later. */
  predicate QueuedAgain(t: Tables, t': Tables, id: JobId, wait: int, kind: string, now: Time)
    requires id in t.jobs
  {
    && id in t'.jobs && id !in t'.failed
    && t'.jobs[id] == JobRow(t.jobs[id].spec, now + wait, t.jobs[id].attempts, t.jobs[id].generation, Unleased, Some(kind), now)
  }

  function ErrorKind(e: HandlerError): string {
    if e.deadline then "timeout" else if e.panicked then "panic" else if e.permanent then "permanent" else "error"
  }

  /** The milliseconds are the entry of the backoff list for the attempt: the last one beyond the list, and three default
      entries when the list is empty. */
  predicate IsBackoff(backoff: seq<int>, attempt: int, ms: int) {
    var list := if backoff == [] then [1_000, 5_000, 30_000] else backoff;
    if attempt <= 1 then ms == list[0] else if attempt <= |list| then ms == list[attempt - 1] else ms == list[|list| - 1]
  }

  /** How long the job waits after an error: what the error asks for, in whole milliseconds, or the backoff. */
  ghost predicate Waits(e: HandlerError, backoff: seq<int>, attempt: int, wait: int) {
    if e.retryAfterNs.Some? && !e.panicked && !e.permanent then wait == e.retryAfterNs.value / 1_000_000 * 1_000
    else exists ms :: IsBackoff(backoff, attempt, ms) && wait == ms * 1_000
  }

  /** What a delivery under a live lease ends in. */
  ghost predicate Ends(t: Tables, t': Tables, id: JobId, result: HandlerResult, now: Time)
    requires id in t.jobs
  {
    var row := t.jobs[id];
    && OthersStay(t, t', id)
    && match result
       case Returned => id !in t'.jobs && id !in t'.failed
       case Undecodable => MovedToFailures(t, t', id, "malformed_payload", now)
       case Abandoned => t' == t
       case Errored(e) =>
         if (e.permanent && !e.panicked) || row.attempts >= row.spec.maxAttempts then
           MovedToFailures(t, t', id, ErrorKind(e), now)
         else
           exists wait :: Waits(e, row.spec.backoffMs, row.attempts, wait) && QueuedAgain(t, t', id, wait, ErrorKind(e), now)
  }

  /** The delivery is of the row as it stands. */
  predicate IsOf(d: Delivery, row: JobRow) {
    && d.name == row.spec.name && d.attempt == row.attempts && d.maxAttempts == row.spec.maxAttempts
    && d.backoffMs == row.spec.backoffMs && ValidToken(d.token)
  }

  lemma CallEnds(registered: set<string>, t: Tables, d: Delivery, result: HandlerResult, now: Time)
    requires Fenced(t.jobs, d.token, now) && IsOf(d, t.jobs[d.token.id]) && d.token.id !in t.failed && d.name in registered
    requires forall k :: 0 <= k < |d.backoffMs| ==> d.backoffMs[k] >= 0
    ensures var call := StoreCall(registered, d, result);
      Ends(t, if call.Some? then Next(t, call.value, now) else t, d.token.id, result, now)
  {
    if result.Errored? {
      ErrorEnds(registered, t, d, result.error, now);
    }
  }

  lemma ErrorEnds(registered: set<string>, t: Tables, d: Delivery, e: HandlerError, now: Time)
    requires Fenced(t.jobs, d.token, now) && IsOf(d, t.jobs[d.token.id]) && d.token.id !in t.failed && d.name in registered
    requires forall k :: 0 <= k < |d.backoffMs| ==> d.backoffMs[k] >= 0
    ensures var call := StoreCall(registered, d, Errored(e));
      Ends(t, if call.Some? then Next(t, call.value, now) else t, d.token.id, Errored(e), now)
  {
    var call := StoreCall(registered, d, Errored(e)).value;
    if !((e.permanent && !e.panicked) || d.attempt >= d.maxAttempts) {
      var row := t.jobs[d.token.id];
      var ms := RetryDelayMs(d.backoffMs, d.attempt);
      assert IsBackoff(d.backoffMs, d.attempt, ms);
      var wait := if e.retryAfterNs.Some? && !e.panicked && !e.permanent then e.retryAfterNs.value / 1_000_000 * 1_000 else ms * 1_000;
      assert Waits(e, row.spec.backoffMs, row.attempts, wait);
      assert ms * NANOS_PER_MILLI / NANOS_PER_MILLI == ms;
      assert QueuedAgain(t, Next(t, call, now), d.token.id, wait, ErrorKind(e), now);
    }
  }

  /** Without a live lease the end of a delivery changes nothing. */
  lemma LostEnds(registered: set<string>, t: Tables, d: Delivery, result: HandlerResult, now: Time)
    requires !Fenced(t.jobs, d.token, now)
    ensures var call := StoreCall(registered, d, result); call.Some? ==> Next(t, call.value, now) == t
  {
  }

  // ---- over runs of workers -------------------------------------------------------------------------------------

  /** However the run came here: the end of a delivery leaves its job where the result says, if its lease is live, and
      changes nothing otherwise. */
  lemma FinishEnds(f: Fleet, d: Delivery, result: HandlerResult, now: Time)
    requires FleetInv(f) && d in f.deliveries
    ensures var t, t' := f.world.tables, FleetApply(f, Finishes(d, result, now)).world.tables;
      if Fenced(t.jobs, d.token, now) then Ends(t, t', d.token.id, result, now) else t' == t
  {
    assert DeliveryInv(f, d) && IdInv(f.world, d.token.id);
    var registered := Registered(f, d.token.worker);
    if Fenced(f.world.tables.jobs, d.token, now) {
      CallEnds(registered, f.world.tables, d, result, now);
    } else {
      LostEnds(registered, f.world.tables, d, result, now);
    }
  }

  /** A delivery of the job that finishes without an error, under a live lease. */
  predicate Acknowledges(f: Fleet, e: FleetEvent, id: JobId) {
    && e.Finishes? && e.result.Returned? && e.delivery.token.id == id
    && Fenced(f.world.tables.jobs, e.delivery.token, e.now)
  }

  lemma StepAcknowledges(f: Fleet, e: FleetEvent, id: JobId)
    requires FleetInv(f) && FleetPossible(f, e)
    ensures id in FleetApply(f, e).world.acknowledged <==> id in f.world.acknowledged || Acknowledges(f, e, id)
  {
    if e.Finishes? {
      assert DeliveryInv(f, e.delivery);
    }
  }

  lemma {:induction false} LastStep(f: Fleet, events: seq<FleetEvent>)
    requires events != []
    ensures var n := |events| - 1;
      && FleetRun(f, events) == FleetApply(FleetRun(f, events[..n]), events[n])
      && (FleetPossibleRun(f, events) ==> FleetPossibleRun(f, events[..n]) && FleetPossible(FleetRun(f, events[..n]), events[n]))
    decreases |events|
  {
    var n := |events| - 1;
    if n > 0 {
      LastStep(FleetApply(f, events[0]), events[1..]);
      assert events[1..][..n - 1] == events[..n][1..] && events[1..][n - 1] == events[n] && events[..n][0] == events[0];
    } else {
      assert events[1..] == [] && events[..0] == [];
    }
  }

  /** The k-th event of the run acknowledges the job. */
  predicate AcknowledgedAt(f: Fleet, events: seq<FleetEvent>, k: nat, id: JobId) {
    k < |events| && Acknowledges(FleetRun(f, events[..k]), events[k], id)
  }

  lemma SameBefore(f: Fleet, events: seq<FleetEvent>, n: nat, k: nat, id: JobId)
    requires k < n <= |events|
    ensures AcknowledgedAt(f, events[..n], k, id) <==> AcknowledgedAt(f, events, k, id)
  {
    assert events[..n][..k] == events[..k];
  }

  /** Over every run of workers: a job is acknowledged exactly when some delivery of it finished without an error under a
      lease that was live. */
  lemma {:induction false} AcknowledgedIff(f: Fleet, events: seq<FleetEvent>, id: JobId)
    requires FleetInv(f) && FleetPossibleRun(f, events) && id !in f.world.acknowledged
    ensures id in FleetRun(f, events).world.acknowledged <==> exists k: nat :: AcknowledgedAt(f, events, k, id)
    decreases |events|
  {
    if events != [] {
      var n := |events| - 1;
      LastStep(f, events);
      AcknowledgedIff(f, events[..n], id);
      FleetRunKeepsInv(f, events[..n]);
      StepAcknowledges(FleetRun(f, events[..n]), events[n], id);
      if k: nat :| AcknowledgedAt(f, events[..n], k, id) {
        SameBefore(f, events, n, k, id);
      }
      if k: nat :| AcknowledgedAt(f, events, k, id) && k < n {
        SameBefore(f, events, n, k, id);
      }
      assert AcknowledgedAt(f, events, n, id) <==> Acknowledges(FleetRun(f, events[..n]), events[n], id);
    }
  }

  /** What a poll hands to its worker: for each row of the batch, and no other, a delivery of the row as it stands, under a
      lease that is live for as long as the worker asked for. */
  lemma PollDelivers(f: Fleet, worker: string, e: Event, d: Delivery)
    requires FleetInv(f) && FleetPossible(f, Polls(worker, e)) && d !in f.deliveries
    ensures var f' := FleetApply(f, Polls(worker, e));
      d in f'.deliveries ==>
        && d.token.id in e.action.batch && d.token.id in f'.world.tables.jobs
        && d.token.worker == worker && IsOf(d, f'.world.tables.jobs[d.token.id])
        && Fenced(f'.world.tables.jobs, d.token, e.now)
        && f'.world.tables.jobs[d.token.id].lease.expiresAt == e.now + e.action.claim.leaseNs / 1_000_000 * 1_000
    ensures forall id :: id in e.action.batch ==> exists d :: d in FleetApply(f, Polls(worker, e)).deliveries && d.token.id == id
  {
    var f' := FleetApply(f, Polls(worker, e));
    FleetStepKeepsInv(f, Polls(worker, e));
    forall id | id in e.action.batch
      ensures id in f'.world.tables.jobs && DeliveryOf(f'.world.tables.jobs[id], worker, id) in f'.deliveries
    {
      BatchIsClaimable(f.world, e, id);
    }
    if d in f'.deliveries {
      assert DeliveryInv(f', d) && IdInv(f'.world, d.token.id);
      BatchIsClaimable(f.world, e, d.token.id);
    }
  }
}
