/** Leases across a restore, which starts the generations of a job again. */
module QueueRestores {
  import opened Basics
  import opened QueueTables
  import opened QueueRuns
  import opened QueueFences

  // ---- runs in parts -----------------------------------------------------

  lemma {:induction false} RunJoins(w: World, a: seq<Event>, b: seq<Event>)
    ensures Run(w, a + b) == Run(Run(w, a), b)
    ensures PossibleRun(w, a + b) <==> PossibleRun(w, a) && PossibleRun(Run(w, a), b)
    decreases |a|
  {
    if a == [] {
      assert a + b == b;
    } else {
      assert (a + b)[0] == a[0] && (a + b)[1..] == a[1..] + b;
      RunJoins(Apply(w, a[0]), a[1..], b);
    }
  }

  /** The part of a run before its k-th event, and that event. */
  lemma RunSplits(w: World, events: seq<Event>, k: nat)
    requires Inv(w) && PossibleRun(w, events) && k < |events|
    ensures PossibleRun(w, events[..k]) && Inv(Run(w, events[..k])) && Possible(Run(w, events[..k]), events[k])
    ensures PossibleRun(Apply(Run(w, events[..k]), events[k]), events[k + 1..])
    ensures Run(w, events) == Run(Apply(Run(w, events[..k]), events[k]), events[k + 1..])
  {
    assert events == events[..k] + events[k..];
    RunJoins(w, events[..k], events[k..]);
    assert events[k..][1..] == events[k + 1..];
    RunKeepsInv(w, events[..k]);
  }

  // ---- how long one claim lasts ---------------------------------------------

  predicate ClaimedBy(e: Event, id: JobId, worker: string) {
    Claims(e, id) && e.action.claim.worker == worker
  }

  function LeaseEnd(e: Event): Time
    requires e.action.Claim?
  {
    After(e.now, Millis(e.action.claim.leaseNs))
  }

  /** The holder acknowledges, fails, retries or releases the job. */
  predicate GivesUp(a: Action, token: LeaseToken) {
    && Uses(a, token) && ValidToken(token)
    && match a
       case Retry(_, delay, kind) => delay >= 0 && ValidKind(kind)
       case Fail(_, kind) => kind != "" && ValidKind(kind)
       case _ => !a.Heartbeat?
  }

  predicate Extends(a: Action, token: LeaseToken) {
    a.Heartbeat? && a.token == token && ValidToken(token) && a.durationNs >= NANOS_PER_MILLI
  }

  /** When a lease that ends at `end` ends after one more event; None when it is then over. */
  function KeptBy(e: Event, token: LeaseToken, end: Time): Option<Time> {
    if e.now >= end || GivesUp(e.action, token) then None
    else if Extends(e.action, token) then Some(After(e.now, Millis(e.action.durationNs)))
    else Some(end)
  }

  /** The same for a run of events. */
  function Kept(events: seq<Event>, token: LeaseToken, end: Time): Option<Time>
    decreases |events|
  {
    if events == [] then Some(end)
    else
      var next := KeptBy(events[0], token, end);
      if next.None? then None else Kept(events[1..], token, next.value)
  }

  lemma {:induction false} KeptAppends(events: seq<Event>, e: Event, token: LeaseToken, end: Time)
    ensures var before := Kept(events, token, end);
      Kept(events + [e], token, end) == if before.None? then None else KeptBy(e, token, before.value)
    decreases |events|
  {
    var all := events + [e];
    if events == [] {
      assert all == [e] && all[1..] == [];
    } else {
      assert all[0] == events[0] && all[1..] == events[1..] + [e];
      var next := KeptBy(events[0], token, end);
      if next.Some? {
        KeptAppends(events[1..], e, token, next.value);
      }
    }
  }

  /** The row is leased to the token until `end`. */
  predicate Holds(w: World, token: LeaseToken, end: Time) {
    && token.id in w.tables.jobs
    && w.tables.jobs[token.id].generation == token.generation
    && w.tables.jobs[token.id].lease.Leased?
    && w.tables.jobs[token.id].lease.owner == token.worker
    && w.tables.jobs[token.id].lease.expiresAt == end
  }

  lemma ClaimHolds(w: World, e: Event, token: LeaseToken)
    requires Inv(w) && Possible(w, e) && ClaimedBy(e, token.id, token.worker)
    ensures token.id in w.claims
    ensures w.claims[token.id] + 1 == token.generation ==> Holds(Apply(w, e), token, LeaseEnd(e))
  {
    BatchIsClaimable(w, e, token.id);
    assert IdInv(w, token.id);
  }

  lemma HoldsOneStep(w: World, e: Event, token: LeaseToken, end: Time)
    requires Inv(w) && Possible(w, e) && Holds(w, token, end) && KeptBy(e, token, end).Some?
    ensures Holds(Apply(w, e), token, KeptBy(e, token, end).value)
  {
    if !Uses(e.action, token) {
      LiveRowIsHeld(w, e, token);
    }
  }

  lemma {:induction false} HoldsWhileKept(w: World, events: seq<Event>, token: LeaseToken, end: Time)
    requires Inv(w) && PossibleRun(w, events) && Holds(w, token, end) && Kept(events, token, end).Some?
    ensures Holds(Run(w, events), token, Kept(events, token, end).value)
    decreases |events|
  {
    if events != [] {
      StepKeepsInv(w, events[0]);
      HoldsOneStep(w, events[0], token, end);
      HoldsWhileKept(Apply(w, events[0]), events[1..], token, KeptBy(events[0], token, end).value);
    }
  }

  // ---- when a lease is honoured ------------------------------------------------

  /** The k-th event is the claim that gave out the token's generation in the life the job then had,
      and what followed has not ended that lease by `now`. */
  predicate Regained(w: World, events: seq<Event>, k: nat, token: LeaseToken, now: Time) {
    && k < |events| && ClaimedBy(events[k], token.id, token.worker)
    && token.id in Run(w, events[..k]).claims && Run(w, events[..k]).claims[token.id] + 1 == token.generation
    && var end := Kept(events[k + 1..], token, LeaseEnd(events[k]));
    end.Some? && now < end.value
  }

  lemma RegainedHolds(w: World, events: seq<Event>, k: nat, token: LeaseToken, now: Time)
    requires Inv(w) && PossibleRun(w, events) && Regained(w, events, k, token, now)
    ensures Holds(Run(w, events), token, Kept(events[k + 1..], token, LeaseEnd(events[k])).value)
  {
    RunSplits(w, events, k);
    var v := Run(w, events[..k]);
    ClaimHolds(v, events[k], token);
    StepKeepsInv(v, events[k]);
    HoldsWhileKept(Apply(v, events[k]), events[k + 1..], token, LeaseEnd(events[k]));
  }

  /** The event gives out the token's generation, for longer than until `now`. */
  predicate GivesOut(w: World, e: Event, token: LeaseToken, now: Time) {
    && ClaimedBy(e, token.id, token.worker) && now < LeaseEnd(e)
    && token.id in w.claims && w.claims[token.id] + 1 == token.generation
  }

  /** The lease was live and the event keeps it for longer than until `now`. */
  predicate Carries(w: World, e: Event, token: LeaseToken, now: Time) {
    && Fenced(w.tables.jobs, token, e.now)
    && var end := KeptBy(e, token, w.tables.jobs[token.id].lease.expiresAt);
    end.Some? && now < end.value
  }

  lemma FencedByClaim(w: World, e: Event, token: LeaseToken, now: Time)
    requires Inv(w) && Possible(w, e) && e.now <= now && Fenced(Apply(w, e).tables.jobs, token, now) && e.action.Claim?
    ensures GivesOut(w, e, token, now) || Carries(w, e, token, now)
  {
    assert IdInv(w, token.id);
    if Claims(e, token.id) {
      BatchIsClaimable(w, e, token.id);
    }
  }

  lemma FencedByHolder(w: World, e: Event, token: LeaseToken, now: Time)
    requires Inv(w) && Possible(w, e) && e.now <= now && Fenced(Apply(w, e).tables.jobs, token, now)
    requires e.action.Heartbeat? || e.action.Ack? || e.action.Retry? || e.action.Release? || e.action.Fail?
    ensures Carries(w, e, token, now)
  {
    assert IdInv(w, token.id);
  }

  /** A lease honoured after a step was given out by it, or was live and the step kept it. */
  lemma FencedOneStep(w: World, e: Event, token: LeaseToken, now: Time)
    requires Inv(w) && Possible(w, e) && e.now <= now && Fenced(Apply(w, e).tables.jobs, token, now)
    ensures GivesOut(w, e, token, now) || Carries(w, e, token, now)
  {
    match e.action
    case Claim(_, _, _) => FencedByClaim(w, e, token, now);
    case Enqueue(_) =>
    case Sweep(_, _, _, _, _) =>
    case Restore(_) =>
    case Forget(_) =>
    case _ => FencedByHolder(w, e, token, now);
  }

  lemma RunOneMore(w: World, front: seq<Event>, e: Event)
    requires Inv(w) && PossibleRun(w, front + [e])
    ensures PossibleRun(w, front) && Inv(Run(w, front)) && Possible(Run(w, front), e)
    ensures Run(w, front + [e]) == Apply(Run(w, front), e)
  {
    RunJoins(w, front, [e]);
    assert [e][1..] == [];
    RunKeepsInv(w, front);
  }

  lemma RegainedNow(w: World, front: seq<Event>, e: Event, token: LeaseToken, now: Time)
    requires ClaimedBy(e, token.id, token.worker) && now < LeaseEnd(e)
    requires token.id in Run(w, front).claims && Run(w, front).claims[token.id] + 1 == token.generation
    ensures Regained(w, front + [e], |front|, token, now)
  {
    var events := front + [e];
    assert events[..|front|] == front && events[|front| + 1..] == [];
  }

  lemma RegainedStays(w: World, front: seq<Event>, e: Event, k: nat, token: LeaseToken, now: Time)
    requires Regained(w, front, k, token, e.now)
    requires var end := KeptBy(e, token, Kept(front[k + 1..], token, LeaseEnd(front[k])).value); end.Some? && now < end.value
    ensures Regained(w, front + [e], k, token, now)
  {
    var events := front + [e];
    KeptAppends(front[k + 1..], e, token, LeaseEnd(front[k]));
    assert events[k + 1..] == front[k + 1..] + [e] && events[..k] == front[..k];
  }

  lemma {:induction false} FencedMeansRegained(w: World, events: seq<Event>, token: LeaseToken, now: Time) returns (k: nat)
    requires Inv(w) && PossibleRun(w, events) && Spent(w, token)
    requires Run(w, events).clock <= now && Fenced(Run(w, events).tables.jobs, token, now)
    ensures Regained(w, events, k, token, now)
    decreases |events|
  {
    var front, e := events[..|events| - 1], events[|events| - 1];
    assert events == front + [e];
    RunOneMore(w, front, e);
    var v := Run(w, front);
    FencedOneStep(v, e, token, now);
    if GivesOut(v, e, token, now) {
      RegainedNow(w, front, e, token, now);
      k := |front|;
    } else {
      k := FencedMeansRegained(w, front, token, e.now);
      RegainedHolds(w, front, k, token, e.now);
      RegainedStays(w, front, e, k, token, now);
    }
  }

  /** Some event before the k-th restores the job. */
  predicate RestoredBefore(w: World, events: seq<Event>, k: nat, id: JobId)
    requires k <= |events|
  {
    exists j :: 0 <= j < k && id in Revived(Run(w, events[..j]), events[j])
  }

  lemma LifeOneStep(w: World, e: Event, id: JobId)
    requires Inv(w) && Possible(w, e) && id in w.accepted && id !in Revived(w, e)
    ensures id in w.lives && id in Apply(w, e).lives && Apply(w, e).lives[id] == w.lives[id]
  {
    assert IdInv(w, id);
  }

  lemma {:induction false} NewLifeNeedsRestore(w: World, events: seq<Event>, id: JobId)
    requires Inv(w) && PossibleRun(w, events) && id in w.accepted
    requires id in w.lives && id in Run(w, events).lives && Run(w, events).lives[id] != w.lives[id]
    ensures RestoredBefore(w, events, |events|, id)
    decreases |events|
  {
    if events != [] {
      var front, e := events[..|events| - 1], events[|events| - 1];
      assert events == front + [e];
      RunOneMore(w, front, e);
      StillAccepted(w, front, id);
      if id !in Revived(Run(w, front), e) {
        LifeOneStep(Run(w, front), e, id);
        NewLifeNeedsRestore(w, front, id);
        RestoredEarlier(w, front, e, id);
      }
    }
  }

  lemma RestoredEarlier(w: World, front: seq<Event>, e: Event, id: JobId)
    requires RestoredBefore(w, front, |front|, id)
    ensures RestoredBefore(w, front + [e], |front| + 1, id)
  {
    var j :| 0 <= j < |front| && id in Revived(Run(w, front[..j]), front[j]);
    assert (front + [e])[..j] == front[..j] && (front + [e])[j] == front[j];
  }

  lemma {:induction false} StillAccepted(w: World, events: seq<Event>, id: JobId)
    requires Inv(w) && PossibleRun(w, events) && id in w.accepted
    ensures id in Run(w, events).accepted
    decreases |events|
  {
    if events != [] {
      StepKeepsInv(w, events[0]);
      StillAccepted(Apply(w, events[0]), events[1..], id);
    }
  }

  lemma NotSpentBeforeClaim(w: World, e: Event, token: LeaseToken)
    requires Inv(w) && Possible(w, e) && ClaimedBy(e, token.id, token.worker)
    requires token.id in w.claims && w.claims[token.id] + 1 == token.generation
    ensures !Spent(w, token)
  {
    BatchIsClaimable(w, e, token.id);
    assert IdInv(w, token.id);
  }

  lemma FoundMeansRestored(w: World, events: seq<Event>, token: LeaseToken)
    requires Inv(w) && PossibleRun(w, events) && Spent(w, token) && !Spent(Run(w, events), token)
    ensures RestoredBefore(w, events, |events|, token.id)
  {
    RunLivesOnlyGrow(w, events, token.id);
    if Run(w, events).lives[token.id] == w.lives[token.id] {
      SpentStays(w, events, token);
    }
    NewLifeNeedsRestore(w, events, token.id);
  }

  lemma RestoredInPart(w: World, events: seq<Event>, k: nat, id: JobId)
    requires k <= |events| && RestoredBefore(w, events[..k], k, id)
    ensures RestoredBefore(w, events, k, id)
  {
    var j :| 0 <= j < k && id in Revived(Run(w, events[..k][..j]), events[..k][j]);
    assert events[..k][..j] == events[..j] && events[..k][j] == events[j];
  }

  lemma RegainedAfterRestore(w: World, events: seq<Event>, k: nat, token: LeaseToken, now: Time)
    requires Inv(w) && PossibleRun(w, events) && Spent(w, token) && Regained(w, events, k, token, now)
    ensures RestoredBefore(w, events, k, token.id)
  {
    RunSplits(w, events, k);
    NotSpentBeforeClaim(Run(w, events[..k]), events[k], token);
    FoundMeansRestored(w, events[..k], token);
    RestoredInPart(w, events, k, token.id);
  }

  /** A lost lease is honoured again exactly when the run restores the job, the same worker then makes the claim that
      gives out the same generation again, and that claim has been neither given up nor outlived. */
  lemma HonouredAgainIff(w: World, events: seq<Event>, token: LeaseToken, now: Time)
    requires Inv(w) && PossibleRun(w, events) && Spent(w, token) && Run(w, events).clock <= now
    ensures Fenced(Run(w, events).tables.jobs, token, now) <==>
              exists k: nat :: Regained(w, events, k, token, now) && RestoredBefore(w, events, k, token.id)
  {
    if Fenced(Run(w, events).tables.jobs, token, now) {
      var k := FencedMeansRegained(w, events, token, now);
      RegainedAfterRestore(w, events, k, token, now);
    }
    if k: nat :| Regained(w, events, k, token, now) && RestoredBefore(w, events, k, token.id) {
      RegainedHolds(w, events, k, token, now);
    }
  }

  // ---- both from empty tables -----------------------------------------------------

  const ONE_SPEC := JobSpec("q", "n", "{}", 0, 1, 1, [0], None, 0)
  const ONE_TOKEN := LeaseToken(7, "w", 1)

  /** Job 7 may be attempted once; worker w claims it for a millisecond. */
  const DISPATCH := Event(Enqueue(EnqueueRequest(7, "q", "n", "{}", 0, 0, None, 1, NANOS_PER_MILLI, [0], "")), 0)
  const TAKE := Event(Claim(ClaimRequest(["q"], ["n"], 1, "w", NANOS_PER_MILLI), {}, [7]), 0)
  const FAIL := Event(Fail(ONE_TOKEN, "error"), 0)
  const BRING_BACK := Event(Restore(7), 0)
  const HAND_BACK := Event(Release(ONE_TOKEN), 0)

  lemma DispatchedOne()
    ensures Possible(EMPTY, DISPATCH)
    ensures var w := Apply(EMPTY, DISPATCH);
      w.clock == 0 && w.tables == Tables(map[7 := FreshRow(ONE_SPEC, 0, 0)], map[]) && 7 in w.accepted
  {
    assert SpecOf(DISPATCH.action.request, 0) == ONE_SPEC;
  }

  lemma TakenOne(w: World)
    requires w.clock == 0 && w.tables == Tables(map[7 := FreshRow(ONE_SPEC, 0, 0)], map[]) && 7 in w.accepted
    ensures Possible(w, TAKE)
    ensures var v := Apply(w, TAKE);
      v.clock == 0 && v.tables == Tables(map[7 := ClaimRow(FreshRow(ONE_SPEC, 0, 0), "w", 1, 0)], map[]) && 7 in v.accepted
  {
    assert ClaimCandidates(w.tables.jobs, TAKE.action.claim, {}, 0) == {7};
  }

  lemma FailedOne(w: World)
    requires w.clock == 0 && w.tables == Tables(map[7 := ClaimRow(FreshRow(ONE_SPEC, 0, 0), "w", 1, 0)], map[]) && 7 in w.accepted
    ensures Possible(w, FAIL)
    ensures var v := Apply(w, FAIL);
      v.clock == 0 && v.tables == Tables(map[], map[7 := FailedRow(ONE_SPEC, 1, "error", 0)]) && 7 in v.accepted
  {
    assert Fenced(w.tables.jobs, ONE_TOKEN, 0);
    assert w.tables.jobs - {7} == map[];
  }

  lemma RestoredOne(w: World)
    requires w.clock == 0 && w.tables == Tables(map[], map[7 := FailedRow(ONE_SPEC, 1, "error", 0)]) && 7 in w.accepted
    ensures Possible(w, BRING_BACK)
    ensures var v := Apply(w, BRING_BACK);
      v.clock == 0 && v.tables == Tables(map[7 := FreshRow(ONE_SPEC, 0, 0)], map[]) && 7 in v.accepted
  {
    assert w.tables.failed - {7} == map[];
  }

  lemma HandedBackOne(w: World)
    requires w.clock == 0 && w.tables == Tables(map[7 := ClaimRow(FreshRow(ONE_SPEC, 0, 0), "w", 1, 0)], map[])
    ensures Possible(w, HAND_BACK) && 7 in Apply(w, HAND_BACK).tables.jobs && Stranded(Apply(w, HAND_BACK).tables.jobs[7])
  {
    assert Fenced(w.tables.jobs, ONE_TOKEN, 0);
  }

  lemma TwoSteps(w: World, e: Event, f: Event)
    requires Possible(w, e) && Possible(Apply(w, e), f)
    ensures PossibleRun(w, [e, f]) && Run(w, [e, f]) == Apply(Apply(w, e), f)
  {
    assert [e, f][1..] == [f] && [f][1..] == [];
    assert PossibleRun(Apply(w, e), [f]);
    assert Run(w, [e, f]) == Run(Apply(w, e), [f]);
  }

  lemma ThreeSteps(w: World, e: Event, f: Event, g: Event)
    requires Possible(w, e) && Possible(Apply(w, e), f) && Possible(Apply(Apply(w, e), f), g)
    ensures PossibleRun(w, [e, f, g]) && Run(w, [e, f, g]) == Apply(Apply(Apply(w, e), f), g)
  {
    TwoSteps(Apply(w, e), f, g);
    assert [e, f, g][1..] == [f, g];
  }

  /** The fence does fail across a restore: a run from empty tables in which a lease is lost when its job fails,
      and a further run that restores the job and honours the lease again. */
  lemma OldLeaseHonouredAgain() returns (lost: seq<Event>, again: seq<Event>)
    ensures PossibleRun(EMPTY, lost) && Spent(Run(EMPTY, lost), ONE_TOKEN)
    ensures var w := Run(EMPTY, lost);
      && PossibleRun(w, again)
      && Fenced(Run(w, again).tables.jobs, ONE_TOKEN, Run(w, again).clock)
  {
    lost, again := [DISPATCH, TAKE, FAIL], [BRING_BACK, TAKE];
    var w1 := Apply(EMPTY, DISPATCH);
    DispatchedOne();
    var w2 := Apply(w1, TAKE);
    TakenOne(w1);
    var w3 := Apply(w2, FAIL);
    FailedOne(w2);
    ThreeSteps(EMPTY, DISPATCH, TAKE, FAIL);
    RestoredOne(w3);
    TakenOne(Apply(w3, BRING_BACK));
    TwoSteps(w3, BRING_BACK, TAKE);
  }

  /** Handing back the only attempt strands the job, in a run from empty tables. */
  lemma HandingBackStrands() returns (events: seq<Event>)
    ensures PossibleRun(EMPTY, events) && 7 in Run(EMPTY, events).tables.jobs
    ensures Stranded(Run(EMPTY, events).tables.jobs[7])
  {
    events := [DISPATCH, TAKE, HAND_BACK];
    var w1 := Apply(EMPTY, DISPATCH);
    DispatchedOne();
    var w2 := Apply(w1, TAKE);
    TakenOne(w1);
    HandedBackOne(w2);
    ThreeSteps(EMPTY, DISPATCH, TAKE, HAND_BACK);
  }
}
