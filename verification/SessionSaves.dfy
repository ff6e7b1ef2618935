/** What a saved session holds when it is loaded again, and for how long it can be. */
module SessionSaves {
  import opened Sessions
  import opened SessionRuns

  // ---- the store ---------------------------------------------------------------------------------------------------

  /** The entries that have not lapsed. */
  function Visible(entries: Entries, at: Time): Entries {
    map id | id in entries && at < entries[id].expiresAt :: entries[id]
  }

  /** A lapsed entry is as good as none: what a call answers, and what can be seen from then on, depends on the others only. */
  lemma OnlyVisibleMatters(a: Entries, b: Entries, call: Call, at: Time, later: Time)
    requires Visible(a, at) == Visible(b, at) && at <= later
    ensures ReplyTo(a, call, at) == ReplyTo(b, call, at)
    ensures Visible(After(a, call, at), later) == Visible(After(b, call, at), later)
  {
    var x, y := After(a, call, at), After(b, call, at);
    forall id
      ensures Alike(a, b, id, at)
    {
      assert id in Visible(a, at) <==> id in Visible(b, at);
      assert id in Visible(a, at) ==> Visible(a, at)[id] == a[id] && Visible(b, at)[id] == b[id];
    }
    StaysAlike(a, b, call, at, later, call.id);
    forall id
      ensures id in Visible(x, later) <==> id in Visible(y, later)
      ensures id in Visible(x, later) ==> Visible(x, later)[id] == Visible(y, later)[id]
    {
      StaysAlike(a, b, call, at, later, id);
    }
  }

  /** The id has the same live entry in both, or none. */
  predicate Alike(a: Entries, b: Entries, id: Id, at: Time) {
    (Live(a, id, at) <==> Live(b, id, at)) && (Live(a, id, at) ==> a[id] == b[id])
  }

  lemma StaysAlike(a: Entries, b: Entries, call: Call, at: Time, later: Time, id: Id)
    requires (forall i :: Alike(a, b, i, at)) && at <= later
    ensures ReplyTo(a, call, at) == ReplyTo(b, call, at) && Alike(After(a, call, at), After(b, call, at), id, later)
  {
    assert Alike(a, b, id, at) && Alike(a, b, call.id, at);
    if call.Rotate? {
      assert Alike(a, b, call.oldId, at);
    }
  }

  /** The id a call expects to be there. */
  function Expects(call: Call): Id
    requires call.Get? || call.Update? || call.Rotate?
  {
    if call.Rotate? then call.oldId else call.id
  }

  /** A call that expects an id is told when it is not there, and nothing lapsed is left behind under it; a live session is
      only changed by its own update, rotation or deletion, never by a creation or as the target of a rotation. */
  lemma StoreKeepsApart(entries: Entries, call: Call, at: Time, id: Id)
    ensures (call.Get? || call.Update? || call.Rotate?) && Expects(call) == id ==>
      (ReplyTo(entries, call, at) == NotFound <==> !Live(entries, id, at)) && (!Live(entries, id, at) ==> id !in After(entries, call, at))
    ensures (call.Create? || call.Rotate?) && call.id == id && Live(entries, id, at) ==>
      (call.Create? || call.oldId != id ==> id in After(entries, call, at) && After(entries, call, at)[id] == entries[id])
    ensures call.Create? && call.id == id ==> (ReplyTo(entries, call, at) == Ok <==> !Live(entries, id, at))
    ensures (call.Rotate? ==> id != call.oldId) && id != call.id ==>
      (id in After(entries, call, at) <==> id in entries) && (id in entries ==> After(entries, call, at)[id] == entries[id])
  {
  }

  // ---- what a save stores ------------------------------------------------------------------------------------------

  /** The issuance time a session has from its first save on. */
  function IssuedAt(s: Session, now: Time): Time {
    if s.issuedAt == 0 then now else s.issuedAt
  }

  /** The session of a request that may save it. */
  predicate Saving(w: World, a: Action) {
    Possible(w, a) && (a.Save? || a.Recreate?)
  }

  /** The session is past its absolute deadline, and saving it invalidates it. */
  predicate TooLate(policy: Policy, w: World, a: Action)
    requires Saving(w, a)
  {
    a.Save? && policy.absolute > 0 && a.now >= IssuedAt(w.requests[a.rid].session, a.now) + policy.absolute
  }

  /** The step has stored the request's session under its id. */
  predicate Succeeds(policy: Policy, w: World, a: Action)
    requires Saving(w, a)
  {
    var v := Next(policy, w, a);
    !TooLate(policy, w, a) && v.requests[a.rid].Holding? && w.requests[a.rid].session.id in v.entries
  }

  /** Saving succeeds exactly when the session was never stored, or the id it was stored under is still live; a creation
      after a missed rotation always does. */
  lemma SucceedsIff(policy: Policy, w: World, a: Action)
    requires Inv(policy, w) && Saving(w, a) && !TooLate(policy, w, a)
    ensures var s := w.requests[a.rid].session;
      Succeeds(policy, w, a) <==> a.Recreate? || s.persistedId == "" || Live(w.entries, s.persistedId, a.at)
  {
    var s := w.requests[a.rid].session;
    assert RequestInv(policy, w, w.requests[a.rid]);
    assert EntryInv(policy, w, s.id) && EntryInv(policy, w, s.persistedId);
  }

  /** A stored session holds the data and the issuance time of the request; what it was stored under before is gone, and no
      other entry has changed. */
  lemma StoresWhatIsHeld(policy: Policy, w: World, a: Action)
    requires Inv(policy, w) && Saving(w, a) && Succeeds(policy, w, a)
    ensures var s, v := w.requests[a.rid].session, Next(policy, w, a);
      && v.entries[s.id].payload.data == s.data
      && v.entries[s.id].payload.issuedAt == (if a.Save? then IssuedAt(s, a.now) else s.issuedAt)
      && (a.Save? && s.persistedId != "" && s.persistedId != s.id ==> s.persistedId !in v.entries)
      && (forall id :: id != s.id && id != s.persistedId ==>
            (id in v.entries <==> id in w.entries) && (id in w.entries ==> v.entries[id] == w.entries[id]))
      && v.requests[a.rid].session == Session(s.id, s.id, s.data, if a.Save? then IssuedAt(s, a.now) else s.issuedAt, false)
  {
    assert RequestInv(policy, w, w.requests[a.rid]);
    assert EntryInv(policy, w, w.requests[a.rid].session.id);
  }

  // ---- how long it is there ------------------------------------------------------------------------------------

  /** The entry lives for the idle time, or up to the deadline when that comes first, counted from `now`. */
  predicate LivesLongEnough(policy: Policy, entry: Entry, issuedAt: Time, now: Time) {
    entry.expiresAt >= now + policy.idle || (policy.absolute > 0 && entry.expiresAt >= issuedAt + policy.absolute)
  }

  /** A save stores the session for as long as the policy promises, and no longer. */
  lemma SavedForLongEnough(policy: Policy, w: World, a: Action)
    requires Inv(policy, w) && Saving(w, a) && a.Save? && Succeeds(policy, w, a)
    ensures var s, v := w.requests[a.rid].session, Next(policy, w, a);
      && LivesLongEnough(policy, v.entries[s.id], IssuedAt(s, a.now), a.now)
      && v.entries[s.id].expiresAt <= a.now + policy.idle
  {
    assert RequestInv(policy, w, w.requests[a.rid]);
    assert EntryInv(policy, w, w.requests[a.rid].session.id);
  }

  /** The steps of other requests. */
  predicate ByOthers(run: seq<Action>, rid: RequestId) {
    forall i :: 0 <= i < |run| ==> run[i].rid != rid
  }

  lemma {:induction false} OthersLeaveRequest(policy: Policy, w: World, run: seq<Action>, rid: RequestId)
    requires PossibleRun(policy, w, run) && ByOthers(run, rid) && rid in w.requests
    ensures rid in Run(policy, w, run).requests && Run(policy, w, run).requests[rid] == w.requests[rid]
    decreases |run|
  {
    if run != [] {
      OthersLeaveRequest(policy, Next(policy, w, run[0]), run[1..], rid);
    }
  }

  /** The rotation found the old id gone, and the session is to be created under the new one instead. */
  predicate Misses(policy: Policy, w: World, a: Action)
    requires Saving(w, a)
  {
    a.Save? && Next(policy, w, a).requests[a.rid].Recreating?
  }

  /** What a missed rotation leaves to be created: the data and the issuance time of the save, for as long as it promised. */
  lemma MissKeepsWhatIsHeld(policy: Policy, w: World, a: Action)
    requires Inv(policy, w) && Saving(w, a) && Misses(policy, w, a)
    ensures var s, t := w.requests[a.rid].session, Next(policy, w, a);
      var call := t.requests[a.rid].call;
      && call.Create? && call.id == s.id && call.payload == Payload(IssuedAt(s, a.now), s.data)
      && LivesLongEnough(policy, Entry(call.payload, call.expiresAt), IssuedAt(s, a.now), a.now)
      && Retired(t, s.persistedId) && t.requests[a.rid].session.id == s.id
  {
    assert RequestInv(policy, w, w.requests[a.rid]);
  }

  /** The creation stores what is left to be created. */
  lemma RecreateStores(policy: Policy, u: World, again: Action)
    requires Inv(policy, u) && Saving(u, again) && again.Recreate?
    ensures var call, v := u.requests[again.rid].call, Next(policy, u, again);
      && Succeeds(policy, u, again) && call.Create?
      && call.id in v.entries && v.entries[call.id] == Entry(call.payload, call.expiresAt)
      && forall id :: id in v.entries && id != call.id ==> id in u.entries
  {
    assert RequestInv(policy, u, u.requests[again.rid]);
    assert EntryInv(policy, u, u.requests[again.rid].session.id);
  }

  /** After a missed rotation, whatever other requests do in between, the creation that follows stores the data and the
      issuance time of the save, for as long as the save promised, and the old id stays gone. */
  lemma RecreatedAsSaved(policy: Policy, w: World, a: Action, run: seq<Action>, again: Action)
    requires Inv(policy, w) && Saving(w, a) && Misses(policy, w, a)
    requires PossibleRun(policy, Next(policy, w, a), run) && ByOthers(run, a.rid)
    requires again.Recreate? && again.rid == a.rid
    ensures var s := w.requests[a.rid].session;
      var u := Run(policy, Next(policy, w, a), run);
      && Possible(u, again) && Succeeds(policy, u, again)
      && var entries := Next(policy, u, again).entries;
      && s.id in entries && entries[s.id].payload == Payload(IssuedAt(s, a.now), s.data)
      && LivesLongEnough(policy, entries[s.id], IssuedAt(s, a.now), a.now)
      && s.persistedId !in entries
  {
    var s, t := w.requests[a.rid].session, Next(policy, w, a);
    MissKeepsWhatIsHeld(policy, w, a);
    StepKeepsInv(policy, w, a);
    OthersLeaveRequest(policy, t, run, a.rid);
    RunKeepsInv(policy, t, run);
    RetiredForever(policy, t, run, s.persistedId);
    RecreateStores(policy, Run(policy, t, run), again);
    assert RequestInv(policy, t, t.requests[a.rid]);
  }

  // ---- and what is loaded ----------------------------------------------------------------------------------------

  /** The request stores or removes the id at this step. */
  predicate Concerns(w: World, a: Action, id: Id) {
    && (a.Save? || a.Recreate? || a.Invalidate? || a.Drop?) && a.rid in w.requests
    && match w.requests[a.rid]
       case Dropping(dropped) => dropped == id
       case Holding(s) => s.id == id || s.persistedId == id
       case Recreating(s, _) => s.id == id || s.persistedId == id
  }

  /** No request stores or removes the id, and the store's clock stays before `expiry`. */
  predicate Undisturbed(policy: Policy, w: World, run: seq<Action>, id: Id, expiry: Time)
    decreases |run|
  {
    run == [] ||
    (&& Possible(w, run[0]) && !Concerns(w, run[0], id)
     && (run[0].Load? ==> run[0].at < expiry)
     && Undisturbed(policy, Next(policy, w, run[0]), run[1..], id, expiry))
  }

  lemma StepLeavesEntry(policy: Policy, w: World, a: Action, id: Id)
    requires Inv(policy, w) && Possible(w, a) && !Concerns(w, a, id) && id in w.entries && id != ""
    requires a.Load? ==> a.at < w.entries[id].expiresAt
    ensures id in Next(policy, w, a).entries && Next(policy, w, a).entries[id] == w.entries[id]
  {
    if a.rid in w.requests {
      assert RequestInv(policy, w, w.requests[a.rid]);
    }
  }

  lemma {:induction false} RunLeavesEntry(policy: Policy, w: World, run: seq<Action>, id: Id)
    requires Inv(policy, w) && id in w.entries && id != "" && Undisturbed(policy, w, run, id, w.entries[id].expiresAt)
    ensures PossibleRun(policy, w, run)
    ensures id in Run(policy, w, run).entries && Run(policy, w, run).entries[id] == w.entries[id]
    decreases |run|
  {
    if run != [] {
      StepLeavesEntry(policy, w, run[0], id);
      StepKeepsInv(policy, w, run[0]);
      RunLeavesEntry(policy, Next(policy, w, run[0]), run[1..], id);
    }
  }

  /** A load before the expiry, and before the deadline, gives the data and the issuance time that the saving request held:
      after any successful save, rotation or creation after a missed rotation, at any point of any run, and whatever happens
      in between as long as no request stores or removes the id. */
  lemma LoadGivesSaved(policy: Policy, w: World, a: Action, run: seq<Action>, load: Action)
    requires Inv(policy, w) && Saving(w, a) && Succeeds(policy, w, a) && w.requests[a.rid].session.id != ""
    requires var id, v := w.requests[a.rid].session.id, Next(policy, w, a);
      Undisturbed(policy, v, run + [load], id, v.entries[id].expiresAt) && load.Load? && load.id == id
    requires policy.absolute > 0 ==>
      load.now < (if a.Save? then IssuedAt(w.requests[a.rid].session, a.now) else w.requests[a.rid].session.issuedAt) + policy.absolute
    ensures var s := w.requests[a.rid].session;
      && PossibleRun(policy, Next(policy, w, a), run)
      && var u := Run(policy, Next(policy, w, a), run);
      && Possible(u, load)
      && Next(policy, u, load).requests[load.rid]
         == Holding(Session(s.id, s.id, s.data, if a.Save? then IssuedAt(s, a.now) else s.issuedAt, false))
  {
    var s, v := w.requests[a.rid].session, Next(policy, w, a);
    assert RequestInv(policy, w, w.requests[a.rid]);
    StoresWhatIsHeld(policy, w, a);
    StepKeepsInv(policy, w, a);
    UndisturbedParts(policy, v, run, load, s.id, v.entries[s.id].expiresAt);
    RunLeavesEntry(policy, v, run, s.id);
  }

  lemma {:induction false} UndisturbedParts(policy: Policy, w: World, run: seq<Action>, last: Action, id: Id, expiry: Time)
    requires Undisturbed(policy, w, run + [last], id, expiry)
    ensures Undisturbed(policy, w, run, id, expiry) && PossibleRun(policy, w, run)
    ensures Possible(Run(policy, w, run), last) && (last.Load? ==> last.at < expiry)
    decreases |run|
  {
    if run == [] {
      assert run + [last] == [last];
    } else {
      assert (run + [last])[0] == run[0] && (run + [last])[1..] == run[1..] + [last];
      UndisturbedParts(policy, Next(policy, w, run[0]), run[1..], last, id, expiry);
    }
  }

  // ---- what is not there any more -----------------------------------------------------------------------------------

  /** A stored session that may be used: answered by the store, and with a start before its deadline. */
  predicate Answers(policy: Policy, w: World, a: Action)
    requires a.Load?
  {
    && a.id != "" && a.id in w.entries && a.at < w.entries[a.id].expiresAt
    && (w.entries[a.id].payload.issuedAt == 0 ==> policy.absolute == 0)
    && (policy.absolute > 0 ==> a.now < w.entries[a.id].payload.issuedAt + policy.absolute)
  }

  /** A request gets the stored session if it may be used, and otherwise, at once or after the unusable one was removed, an
      empty one under a new id that was never stored; other entries are left alone. */
  lemma LoadedOrFresh(policy: Policy, w: World, a: Action)
    requires Inv(policy, w) && Possible(w, a) && a.Load?
    ensures Answers(policy, w, a) ==>
      var v := Next(policy, w, a);
      && v.entries == w.entries
      && v.requests[a.rid].Holding? && v.requests[a.rid].session.id == a.id == v.requests[a.rid].session.persistedId
      && v.requests[a.rid].session.data == w.entries[a.id].payload.data
    ensures !Answers(policy, w, a) ==>
      var v := Next(policy, w, a);
      if a.id != "" && Live(w.entries, a.id, a.at) then v.requests[a.rid] == Dropping(a.id)
      else v.requests[a.rid] == Holding(Session(a.freshId, "", "", a.now, false))
    ensures forall id :: id in w.entries && id != a.id ==>
      id in Next(policy, w, a).entries && Next(policy, w, a).entries[id] == w.entries[id]
    ensures forall id :: id in Next(policy, w, a).entries ==>
      id in w.entries && Next(policy, w, a).entries[id] == w.entries[id]
    ensures a.freshId !in Next(policy, w, a).entries
    ensures a.id != "" && a.id in Next(policy, w, a).entries ==> Live(w.entries, a.id, a.at)
  {
    assert EntryInv(policy, w, a.freshId);
  }

  /** The id under which the step removes a session: an unusable one, one that is invalidated, one saved past its deadline,
      or the old id of a rotation. */
  function Removes(policy: Policy, w: World, a: Action): Id
    requires Possible(w, a)
  {
    if a.Drop? then w.requests[a.rid].id
    else if a.Invalidate? || (a.Save? && TooLate(policy, w, a)) then w.requests[a.rid].session.persistedId
    else if a.Save? && Succeeds(policy, w, a) && w.requests[a.rid].session.persistedId != w.requests[a.rid].session.id then
      w.requests[a.rid].session.persistedId
    else ""
  }

  /** It is gone at once and for good: no later load, whatever happens in between, is answered with it. */
  lemma RemovedForever(policy: Policy, w: World, a: Action, run: seq<Action>, at: Time)
    requires Inv(policy, w) && Possible(w, a) && PossibleRun(policy, Next(policy, w, a), run)
    requires Removes(policy, w, a) != "" && Removes(policy, w, a) in w.entries
    ensures var v := Run(policy, Next(policy, w, a), run);
      Removes(policy, w, a) !in v.entries && ReplyTo(v.entries, Get(Removes(policy, w, a)), at) == NotFound
  {
    var id := Removes(policy, w, a);
    assert EntryInv(policy, w, id);
    if a.Save? && Succeeds(policy, w, a) {
      StoresWhatIsHeld(policy, w, a);
    }
    StepKeepsInv(policy, w, a);
    StepStores(policy, w, a, id);
    RetiredForever(policy, Next(policy, w, a), run, id);
  }

  /** Invalidating a session, or saving it past its deadline, leaves the request without one: no data, no id and no start. */
  lemma InvalidatedIsEmpty(policy: Policy, w: World, a: Action)
    requires Inv(policy, w) && Possible(w, a) && (a.Invalidate? || (a.Save? && TooLate(policy, w, a)))
    ensures var s, v := w.requests[a.rid].session, Next(policy, w, a);
      && v.requests[a.rid] == Holding(Session("", "", "", 0, false))
      && (s.persistedId != "" ==> s.persistedId !in v.entries)
      && forall id :: id != s.persistedId || id == "" ==>
           (id in v.entries <==> id in w.entries) && (id in w.entries ==> v.entries[id] == w.entries[id])
  {
    assert RequestInv(policy, w, w.requests[a.rid]);
  }

  /** Staging a new id changes nothing but the id: the data, the issuance time and the id it is stored under stay. */
  lemma RegeneratedKeeps(policy: Policy, w: World, a: Action)
    requires Inv(policy, w) && Possible(w, a) && a.Regenerate?
    ensures var s, v := w.requests[a.rid].session, Next(policy, w, a);
      && v.entries == w.entries
      && v.requests[a.rid] == Holding(Session(a.freshId, s.persistedId, s.data, s.issuedAt, a.createOnMissing))
      && a.freshId !in w.entries
  {
    assert EntryInv(policy, w, a.freshId);
  }
}
