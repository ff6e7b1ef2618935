/** What a lease protects, over whole runs of the queue. */
module QueueFences {
  import opened QueueTables
  import opened QueueRuns

  predicate Uses(a: Action, token: LeaseToken) {
    (a.Heartbeat? || a.Ack? || a.Retry? || a.Release? || a.Fail?) && a.token == token
  }

  /** The lease was lost: taken over by a newer generation, given up, or expired. */
  predicate Spent(w: World, token: LeaseToken) {
    && token.id in w.accepted
    && (token.id in w.tables.jobs ==>
          var row := w.tables.jobs[token.id];
          || token.generation < row.generation
          || (token.generation == row.generation
              && !(row.lease.Leased? && row.lease.owner == token.worker && w.clock < row.lease.expiresAt)))
  }

  /** Among the leases issued in the present life, `Spent` is exactly "refused now". */
  lemma SpentIffRefused(w: World, token: LeaseToken)
    requires Inv(w) && token.id in w.tables.jobs && token.generation <= w.tables.jobs[token.id].generation
    ensures Spent(w, token) <==> !Fenced(w.tables.jobs, token, w.clock)
  {
    assert IdInv(w, token.id);
  }

  lemma SpentIsPowerless(w: World, token: LeaseToken, a: Action, now: Time)
    requires Spent(w, token) && w.clock <= now && Uses(a, token)
    ensures Next(w.tables, a, now) == w.tables
  {
    assert !Fenced(w.tables.jobs, token, now);
  }

  lemma LivesOnlyGrow(w: World, e: Event, id: JobId)
    requires Inv(w) && Possible(w, e) && id in w.accepted
    ensures id in Apply(w, e).lives && id in Apply(w, e).accepted && w.lives[id] <= Apply(w, e).lives[id]
  {
    assert IdInv(w, id);
  }

  lemma {:induction false} RunLivesOnlyGrow(w: World, events: seq<Event>, id: JobId)
    requires Inv(w) && PossibleRun(w, events) && id in w.accepted
    ensures Inv(Run(w, events))
    ensures id in Run(w, events).lives && id in w.lives && w.lives[id] <= Run(w, events).lives[id]
    decreases |events|
  {
    assert IdInv(w, id);
    if events != [] {
      StepKeepsInv(w, events[0]);
      LivesOnlyGrow(w, events[0], id);
      RunLivesOnlyGrow(Apply(w, events[0]), events[1..], id);
    }
  }

  /** How one row may change in one step, in the present life of the job. */
  lemma RowMoves(w: World, e: Event, id: JobId)
    requires Inv(w) && Possible(w, e) && id in w.accepted
    requires id in Apply(w, e).lives && id in w.lives && Apply(w, e).lives[id] == w.lives[id]
    ensures id in Apply(w, e).tables.jobs ==>
              && id in w.tables.jobs
              && var row, row' := w.tables.jobs[id], Apply(w, e).tables.jobs[id];
                 || row' == row
                 || (row'.generation == row.generation + 1)
                 || (row'.generation == row.generation && !row'.lease.Leased?)
                 || (row'.generation == row.generation && row.lease.Leased? && row'.lease.Leased?
                     && row'.lease.owner == row.lease.owner && e.now < row.lease.expiresAt)
  {
    assert IdInv(w, id);
  }

  lemma SpentStaysOneStep(w: World, e: Event, token: LeaseToken)
    requires Inv(w) && Possible(w, e) && Spent(w, token)
    requires token.id in Apply(w, e).lives && token.id in w.lives && Apply(w, e).lives[token.id] == w.lives[token.id]
    ensures Spent(Apply(w, e), token)
  {
    RowMoves(w, e, token.id);
    LivesOnlyGrow(w, e, token.id);
  }

  lemma {:induction false} SpentStays(w: World, events: seq<Event>, token: LeaseToken)
    requires Inv(w) && PossibleRun(w, events) && Spent(w, token)
    requires token.id in Run(w, events).lives && token.id in w.lives
    requires Run(w, events).lives[token.id] == w.lives[token.id]
    ensures Spent(Run(w, events), token)
    decreases |events|
  {
    if events != [] {
      var w1 := Apply(w, events[0]);
      StepKeepsInv(w, events[0]);
      LivesOnlyGrow(w, events[0], token.id);
      RunLivesOnlyGrow(w1, events[1..], token.id);
      SpentStaysOneStep(w, events[0], token);
      SpentStays(w1, events[1..], token);
    }
  }

  /** A lost lease is never honoured again while the job lives its present life:
      after any further run, every statement that carries it changes nothing. */
  lemma LostLeaseChangesNothing(w: World, events: seq<Event>, token: LeaseToken, a: Action, now: Time)
    requires Inv(w) && PossibleRun(w, events) && Spent(w, token)
    requires token.id in Run(w, events).lives && token.id in w.lives
    requires Run(w, events).lives[token.id] == w.lives[token.id]
    requires Run(w, events).clock <= now && Uses(a, token)
    ensures Next(Run(w, events).tables, a, now) == Run(w, events).tables
  {
    SpentStays(w, events, token);
    SpentIsPowerless(Run(w, events), token, a, now);
  }

  // ---- a live lease -------------------------------------------------------

  /** Nobody but the holder can move a row whose lease is still live. */
  lemma LiveRowIsHeld(w: World, e: Event, token: LeaseToken)
    requires Inv(w) && Possible(w, e) && Fenced(w.tables.jobs, token, e.now) && !Uses(e.action, token)
    ensures token.id in Apply(w, e).tables.jobs && Apply(w, e).tables.jobs[token.id] == w.tables.jobs[token.id]
  {
    assert IdInv(w, token.id);
    if e.action.Claim? && Claims(e, token.id) {
      BatchIsClaimable(w, e, token.id);
    } else if e.action.Sweep? && ValidSweep(e.action.queues, e.action.names, e.action.limit) && token.id in e.action.batch {
      BatchIsExhausted(w, e, token.id);
    }
  }

  /** Over any run that ends before the lease does, in which the holder is silent,
      the leased row is exactly what it was: no claim and no sweep took it. */
  lemma {:induction false} LiveLeaseSurvives(w: World, events: seq<Event>, token: LeaseToken)
    requires Inv(w) && PossibleRun(w, events)
    requires Fenced(w.tables.jobs, token, Run(w, events).clock)
    requires forall k :: 0 <= k < |events| ==> !Uses(events[k].action, token)
    ensures token.id in Run(w, events).tables.jobs
    ensures Run(w, events).tables.jobs[token.id] == w.tables.jobs[token.id]
    decreases |events|
  {
    if events != [] {
      StepKeepsInv(w, events[0]);
      RunKeepsInv(Apply(w, events[0]), events[1..]);
      LiveRowIsHeld(w, events[0], token);
      LiveLeaseSurvives(Apply(w, events[0]), events[1..], token);
    }
  }

  // ---- stranded rows --------------------------------------------------------

  predicate Stranded(row: JobRow) {
    !row.lease.Leased? && row.attempts >= row.spec.maxAttempts
  }

  /** A row is out of reach of every claim and every sweep, at all times, exactly
      when it has no lease and no attempt left. */
  lemma StrandedIffNeverPicked(row: JobRow)
    ensures Stranded(row) <==> forall t :: !Claimable(row, t) && !Exhausted(row, t)
  {
    if !Stranded(row) {
      var t := row.availableAt;
      assert Claimable(row, t) || Exhausted(row, t);
    }
  }

  /** Giving a live lease back strands the job exactly on its final attempt. */
  lemma GivingBackStrandsIff(w: World, e: Event)
    requires Inv(w) && (e.action.Release? || e.action.Retry?)
    requires Next(w.tables, e.action, e.now) != w.tables
    ensures e.action.token.id in w.tables.jobs && e.action.token.id in Apply(w, e).tables.jobs
    ensures Stranded(Apply(w, e).tables.jobs[e.action.token.id]) <==>
              w.tables.jobs[e.action.token.id].attempts == w.tables.jobs[e.action.token.id].spec.maxAttempts
  {
    assert IdInv(w, e.action.token.id);
  }

  lemma StrandedStaysOneStep(w: World, e: Event, id: JobId)
    requires Inv(w) && Possible(w, e) && id in w.tables.jobs && Stranded(w.tables.jobs[id])
    ensures id in Apply(w, e).tables.jobs && Apply(w, e).tables.jobs[id] == w.tables.jobs[id]
  {
    assert IdInv(w, id);
    if e.action.Claim? && Claims(e, id) {
      BatchIsClaimable(w, e, id);
    } else if e.action.Sweep? && ValidSweep(e.action.queues, e.action.names, e.action.limit) && id in e.action.batch {
      BatchIsExhausted(w, e, id);
    }
  }

  /** ... and then nothing the store offers ever moves the row again. */
  lemma {:induction false} StrandedForever(w: World, events: seq<Event>, id: JobId)
    requires Inv(w) && PossibleRun(w, events) && id in w.tables.jobs && Stranded(w.tables.jobs[id])
    ensures id in Run(w, events).tables.jobs && Run(w, events).tables.jobs[id] == w.tables.jobs[id]
    decreases |events|
  {
    if events != [] {
      StepKeepsInv(w, events[0]);
      StrandedStaysOneStep(w, events[0], id);
      StrandedForever(Apply(w, events[0]), events[1..], id);
    }
  }
}
