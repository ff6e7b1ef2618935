/** All interleavings of requests over one session store. A step is one call of the store with what the manager
    does around it; every step reads its own clocks. */
module SessionRuns {
  import opened Sessions

  /** Where a request is: it holds a session, is about to remove an unusable one it was given,
      or is about to create what it could not rotate to. */
  datatype Request =
    | Holding(session: Session)
    | Dropping(id: Id)
    | Recreating(session: Session, call: Call)

  type RequestId = nat

  /** `minted` are the ids ever drawn; `born` says with which issuance time each id was first stored. */
  datatype World = World(entries: Entries, requests: map<RequestId, Request>, minted: set<Id>, born: map<Id, Time>)

  /** `now` is the manager's clock and `at` the store's; `fresh` is the id drawn, if one is needed. */
  datatype Action =
    | Load(rid: RequestId, id: Id, freshId: Id, now: Time, at: Time)
    | Drop(rid: RequestId, freshId: Id, now: Time, at: Time)
    | Put(rid: RequestId, data: string)
    | Regenerate(rid: RequestId, freshId: Id, createOnMissing: bool)
    | Save(rid: RequestId, now: Time, at: Time)
    | Recreate(rid: RequestId, at: Time)
    | Invalidate(rid: RequestId, at: Time)

  predicate Holds(w: World, rid: RequestId) {
    rid in w.requests && w.requests[rid].Holding?
  }

  /** A new id is neither empty nor drawn before; a clock never reads the zero time. */
  predicate Possible(w: World, a: Action) {
    match a
    case Load(rid, _, freshId, now, _) => rid !in w.requests && freshId != "" && freshId !in w.minted && now > 0
    case Drop(rid, freshId, now, _) =>
      rid in w.requests && w.requests[rid].Dropping? && freshId != "" && freshId !in w.minted && now > 0
    case Put(rid, _) => Holds(w, rid)
    case Regenerate(rid, freshId, _) => Holds(w, rid) && freshId != "" && freshId !in w.minted
    case Save(rid, now, _) => Holds(w, rid) && w.requests[rid].session.id != "" && now > 0
    case Recreate(rid, _) => rid in w.requests && w.requests[rid].Recreating?
    case Invalidate(rid, _) => Holds(w, rid) && w.requests[rid].session.id != ""
  }

  function Birth(born: map<Id, Time>, entries: Entries): map<Id, Time> {
    map id | id in born.Keys + entries.Keys :: if id in born then born[id] else entries[id].payload.issuedAt
  }

  function Moved(w: World, rid: RequestId, request: Request, entries: Entries): World {
    w.(entries := entries, requests := w.requests[rid := request], born := Birth(w.born, entries))
  }

  function Minted(w: World, id: Id): World {
    w.(minted := w.minted + {id})
  }

  /** What a request is left with after trying to save a stamped session. */
  function Saved(s: Session, call: Call, reply: Reply): Request {
    if reply.Ok? then Holding(Persisted(s))
    else if reply.NotFound? && call.Rotate? && s.createOnMissing then
      Recreating(s, Create(call.id, call.payload, call.expiresAt))
    else Holding(s)
  }

  function Next(policy: Policy, w: World, a: Action): World
    requires Possible(w, a)
  {
    match a
    case Load(rid, id, freshId, now, at) =>
      if id == "" then Moved(Minted(w, freshId), rid, Holding(Fresh(freshId, now)), w.entries)
      else
        var reply := ReplyTo(w.entries, Get(id), at);
        var entries := After(w.entries, Get(id), at);
        if reply.NotFound? then Moved(Minted(w, freshId), rid, Holding(Fresh(freshId, now)), entries)
        else if Usable(policy, reply.payload, now) then Moved(w, rid, Holding(Loaded(id, reply.payload, now)), entries)
        else Moved(w, rid, Dropping(id), entries)
    case Drop(rid, freshId, now, at) =>
      Moved(Minted(w, freshId), rid, Holding(Fresh(freshId, now)), After(w.entries, Delete(w.requests[rid].id), at))
    case Put(rid, data) => Moved(w, rid, Holding(w.requests[rid].session.(data := data)), w.entries)
    case Regenerate(rid, freshId, createOnMissing) =>
      Moved(Minted(w, freshId), rid, Holding(Regenerated(w.requests[rid].session, freshId, createOnMissing)), w.entries)
    case Save(rid, now, at) =>
      var s := Stamped(w.requests[rid].session, now);
      if AbsoluteExpired(policy, s.issuedAt, now) then Moved(w, rid, Holding(CLEARED), Invalidated(w.entries, s, at))
      else
        var call := SaveCall(policy, s, now);
        Moved(w, rid, Saved(s, call, ReplyTo(w.entries, call, at)), After(w.entries, call, at))
    case Recreate(rid, at) =>
      var s, call := w.requests[rid].session, w.requests[rid].call;
      Moved(w, rid, Saved(s, call, ReplyTo(w.entries, call, at)), After(w.entries, call, at))
    case Invalidate(rid, at) =>
      Moved(w, rid, Holding(CLEARED), Invalidated(w.entries, w.requests[rid].session, at))
  }

  function Invalidated(entries: Entries, s: Session, at: Time): Entries {
    if s.persistedId == "" then entries else After(entries, Delete(s.persistedId), at)
  }

  predicate PossibleRun(policy: Policy, w: World, run: seq<Action>)
    decreases |run|
  {
    run == [] || (Possible(w, run[0]) && PossibleRun(policy, Next(policy, w, run[0]), run[1..]))
  }

  function Run(policy: Policy, w: World, run: seq<Action>): World
    requires PossibleRun(policy, w, run)
    decreases |run|
  {
    if run == [] then w else Run(policy, Next(policy, w, run[0]), run[1..])
  }

  /** No request yet, and any entries: their ids count as drawn. */
  function Start(entries: Entries): World {
    World(entries, map[], entries.Keys, Birth(map[], entries))
  }

  /** No entry lacks its issuance time, unless the policy has a deadline and so refuses such entries. */
  predicate Dated(policy: Policy, entries: Entries) {
    policy.absolute > 0 || forall id :: id in entries ==> entries[id].payload.issuedAt != 0
  }

  /** The expiry is not after the absolute deadline. */
  predicate Within(policy: Policy, payload: Payload, expiresAt: Time) {
    policy.absolute > 0 ==> expiresAt <= payload.issuedAt + policy.absolute
  }

  // ---- the invariant -----------------------------------------------------------------------------

  /** The stored entries: each has the issuance time its id was born with. */
  predicate EntryInv(policy: Policy, w: World, id: Id) {
    && (id in w.entries ==>
          && id in w.born && w.entries[id].payload.issuedAt == w.born[id]
          && (policy.absolute > 0 || w.born[id] != 0))
    && (id in w.born ==> id in w.minted)
  }

  /** The session of a request: what it would store under a new id was never stored, and what it has stored
      was born with its issuance time. */
  predicate SessionInv(w: World, s: Session) {
    && (s.id != "" ==> s.id in w.minted)
    && (s.id == "" ==> s.persistedId == "")
    && (s.id != s.persistedId ==> s.id !in w.born)
    && (s.persistedId != "" ==> s.persistedId in w.born && s.issuedAt == w.born[s.persistedId] != 0)
  }

  predicate RequestInv(policy: Policy, w: World, request: Request) {
    match request
    case Holding(s) => SessionInv(w, s)
    case Dropping(_) => true
    case Recreating(s, call) =>
      && SessionInv(w, s) && s.persistedId != "" && s.id != "" && s.id != s.persistedId
      && call.Create? && call.id == s.id && call.payload == Payload(s.issuedAt, s.data)
      && Within(policy, call.payload, call.expiresAt)
  }

  /** The id a request may still bring into the store. */
  predicate Stages(request: Request, id: Id) {
    !request.Dropping? && request.session.id == id && id != "" && id != request.session.persistedId
  }

  predicate StagedBy(w: World, rid: RequestId, id: Id) {
    rid in w.requests && Stages(w.requests[rid], id)
  }

  ghost predicate Inv(policy: Policy, w: World) {
    && (forall id :: EntryInv(policy, w, id))
    && (forall rid :: rid in w.requests ==> RequestInv(policy, w, w.requests[rid]))
    && (forall r, q, id :: StagedBy(w, r, id) && StagedBy(w, q, id) ==> r == q)
  }

  /** An entry after a step of `rid`: one that was there, with the same issuance time, or one it had staged. */
  predicate Kept(w: World, rid: RequestId, entries: Entries, id: Id)
    requires id in entries
  {
    || (id in w.entries && entries[id].payload.issuedAt == w.entries[id].payload.issuedAt)
    || (StagedBy(w, rid, id) && entries[id].payload.issuedAt != 0)
  }

  lemma MoveKeepsInv(policy: Policy, w: World, minted: set<Id>, rid: RequestId, request: Request, entries: Entries)
    requires Inv(policy, w) && w.minted <= minted
    requires forall id :: id in entries ==> Kept(w, rid, entries, id)
    requires RequestInv(policy, Moved(w.(minted := minted), rid, request, entries), request)
    requires forall id :: Stages(request, id) ==> id !in w.minted || StagedBy(w, rid, id)
    ensures Inv(policy, Moved(w.(minted := minted), rid, request, entries))
  {
    var v := Moved(w.(minted := minted), rid, request, entries);
    forall id
      ensures EntryInv(policy, v, id)
    {
      assert EntryInv(policy, w, id);
      if StagedBy(w, rid, id) {
        assert RequestInv(policy, w, w.requests[rid]);
      }
    }
    forall q | q in v.requests
      ensures RequestInv(policy, v, v.requests[q])
    {
      if q != rid {
        OthersKeep(policy, w, v, rid, q);
      }
    }
    forall r, q, id | StagedBy(v, r, id) && StagedBy(v, q, id)
      ensures r == q
    {
      assert r != rid ==> StagedBy(w, r, id) && RequestInv(policy, w, w.requests[r]);
      assert q != rid ==> StagedBy(w, q, id) && RequestInv(policy, w, w.requests[q]);
    }
  }

  lemma OthersKeep(policy: Policy, w: World, v: World, rid: RequestId, q: RequestId)
    requires Inv(policy, w) && q in w.requests && q != rid && w.minted <= v.minted
    requires v.born == Birth(w.born, v.entries)
    requires forall id :: id in v.entries ==> Kept(w, rid, v.entries, id)
    ensures RequestInv(policy, v, w.requests[q])
  {
    assert RequestInv(policy, w, w.requests[q]);
    if !w.requests[q].Dropping? {
      var s := w.requests[q].session;
      assert EntryInv(policy, w, s.id);
      if s.id != s.persistedId {
        assert StagedBy(w, q, s.id);
        assert s.id !in v.entries;
      }
    }
  }

  // ---- every step keeps it -------------------------------------------------------------------------

  predicate Fewer(entries: Entries, w: World) {
    forall id :: id in entries ==> id in w.entries && entries[id] == w.entries[id]
  }

  lemma FreshKeepsInv(policy: Policy, w: World, rid: RequestId, freshId: Id, now: Time, entries: Entries)
    requires Inv(policy, w) && freshId != "" && freshId !in w.minted && Fewer(entries, w)
    ensures Inv(policy, Moved(Minted(w, freshId), rid, Holding(Fresh(freshId, now)), entries))
  {
    assert EntryInv(policy, w, freshId);
    MoveKeepsInv(policy, w, w.minted + {freshId}, rid, Holding(Fresh(freshId, now)), entries);
  }

  lemma FoundKeepsInv(policy: Policy, w: World, rid: RequestId, id: Id, now: Time)
    requires Inv(policy, w) && id in w.entries && id != "" && now > 0
    ensures Inv(policy, Moved(w, rid, Dropping(id), w.entries))
    ensures var payload := w.entries[id].payload;
      Usable(policy, payload, now) ==> Inv(policy, Moved(w, rid, Holding(Loaded(id, payload, now)), w.entries))
  {
    assert EntryInv(policy, w, id);
    assert w.(minted := w.minted) == w;
    MoveKeepsInv(policy, w, w.minted, rid, Dropping(id), w.entries);
    if Usable(policy, w.entries[id].payload, now) {
      MoveKeepsInv(policy, w, w.minted, rid, Holding(Loaded(id, w.entries[id].payload, now)), w.entries);
    }
  }

  lemma LoadKeepsInv(policy: Policy, w: World, a: Action)
    requires Inv(policy, w) && Possible(w, a) && a.Load?
    ensures Inv(policy, Next(policy, w, a))
  {
    if a.id == "" || ReplyTo(w.entries, Get(a.id), a.at).NotFound? {
      FreshKeepsInv(policy, w, a.rid, a.freshId, a.now, Next(policy, w, a).entries);
    } else {
      FoundKeepsInv(policy, w, a.rid, a.id, a.now);
    }
  }

  lemma DropKeepsInv(policy: Policy, w: World, a: Action)
    requires Inv(policy, w) && Possible(w, a) && a.Drop?
    ensures Inv(policy, Next(policy, w, a))
  {
    FreshKeepsInv(policy, w, a.rid, a.freshId, a.now, Next(policy, w, a).entries);
  }

  lemma PutKeepsInv(policy: Policy, w: World, a: Action)
    requires Inv(policy, w) && Possible(w, a) && (a.Put? || a.Regenerate?)
    ensures Inv(policy, Next(policy, w, a))
  {
    var v := Next(policy, w, a);
    assert RequestInv(policy, w, w.requests[a.rid]);
    assert EntryInv(policy, w, w.requests[a.rid].session.id);
    assert a.Regenerate? ==> EntryInv(policy, w, a.freshId);
    MoveKeepsInv(policy, w, v.minted, a.rid, v.requests[a.rid], v.entries);
  }

  lemma InvalidateKeepsInv(policy: Policy, w: World, a: Action)
    requires Inv(policy, w) && Possible(w, a) && a.Invalidate?
    ensures Inv(policy, Next(policy, w, a))
  {
    var v := Next(policy, w, a);
    MoveKeepsInv(policy, w, v.minted, a.rid, v.requests[a.rid], v.entries);
  }

  /** What a saving call stores was staged by the request or is an update of what it stored before. */
  lemma CallKeepsInv(policy: Policy, w: World, rid: RequestId, s: Session, call: Call, at: Time)
    requires Inv(policy, w) && rid in w.requests && !w.requests[rid].Dropping?
    requires s.id == w.requests[rid].session.id != "" && s.persistedId == w.requests[rid].session.persistedId
    requires SessionInv(w, s) && s.issuedAt != 0
    requires call.Create? || call.Update? || call.Rotate?
    requires call.id == s.id && call.payload == Payload(s.issuedAt, s.data) && Within(policy, call.payload, call.expiresAt)
    requires call.Update? <==> s.id == s.persistedId
    requires call.Rotate? ==> s.persistedId != ""
    ensures Inv(policy, Moved(w, rid, Saved(s, call, ReplyTo(w.entries, call, at)), After(w.entries, call, at)))
  {
    var entries := After(w.entries, call, at);
    var request := Saved(s, call, ReplyTo(w.entries, call, at));
    assert EntryInv(policy, w, s.id) && EntryInv(policy, w, s.persistedId);
    assert w.(minted := w.minted) == w;
    MoveKeepsInv(policy, w, w.minted, rid, request, entries);
  }

  lemma SaveKeepsInv(policy: Policy, w: World, a: Action)
    requires Inv(policy, w) && Possible(w, a) && a.Save?
    ensures Inv(policy, Next(policy, w, a))
  {
    assert RequestInv(policy, w, w.requests[a.rid]);
    var s := Stamped(w.requests[a.rid].session, a.now);
    if AbsoluteExpired(policy, s.issuedAt, a.now) {
      var v := Next(policy, w, a);
      MoveKeepsInv(policy, w, v.minted, a.rid, v.requests[a.rid], v.entries);
    } else {
      CallKeepsInv(policy, w, a.rid, s, SaveCall(policy, s, a.now), a.at);
    }
  }

  lemma RecreateKeepsInv(policy: Policy, w: World, a: Action)
    requires Inv(policy, w) && Possible(w, a) && a.Recreate?
    ensures Inv(policy, Next(policy, w, a))
  {
    assert RequestInv(policy, w, w.requests[a.rid]);
    CallKeepsInv(policy, w, a.rid, w.requests[a.rid].session, w.requests[a.rid].call, a.at);
  }

  lemma StepKeepsInv(policy: Policy, w: World, a: Action)
    requires Inv(policy, w) && Possible(w, a)
    ensures Inv(policy, Next(policy, w, a))
  {
    match a
    case Load(_, _, _, _, _) => LoadKeepsInv(policy, w, a);
    case Drop(_, _, _, _) => DropKeepsInv(policy, w, a);
    case Put(_, _) => PutKeepsInv(policy, w, a);
    case Regenerate(_, _, _) => PutKeepsInv(policy, w, a);
    case Save(_, _, _) => SaveKeepsInv(policy, w, a);
    case Recreate(_, _) => RecreateKeepsInv(policy, w, a);
    case Invalidate(_, _) => InvalidateKeepsInv(policy, w, a);
  }

  // ---- over whole runs -------------------------------------------------------------------------------

  lemma StartInv(policy: Policy, entries: Entries)
    requires Dated(policy, entries)
    ensures Inv(policy, Start(entries))
  {
    forall id
      ensures EntryInv(policy, Start(entries), id)
    {
    }
  }

  lemma {:induction false} RunKeepsInv(policy: Policy, w: World, run: seq<Action>)
    requires Inv(policy, w) && PossibleRun(policy, w, run)
    ensures Inv(policy, Run(policy, w, run))
    decreases |run|
  {
    if run != [] {
      StepKeepsInv(policy, w, run[0]);
      RunKeepsInv(policy, Next(policy, w, run[0]), run[1..]);
    }
  }

  /** An entry after a step: unchanged, or saved within the deadline, either over a live one
      or under an id that was never stored before. */
  predicate Stored(policy: Policy, w: World, a: Action, entry: Entry, id: Id) {
    || (id in w.entries && entry == w.entries[id])
    || (&& (a.Save? || a.Recreate?)
        && Within(policy, entry.payload, entry.expiresAt)
        && (Live(w.entries, id, a.at) || id !in w.born))
  }

  lemma StepStores(policy: Policy, w: World, a: Action, id: Id)
    requires Inv(policy, w) && Possible(w, a)
    ensures var v := Next(policy, w, a);
      && (id in v.entries ==> Stored(policy, w, a, v.entries[id], id))
      && (id in w.born ==> id in v.born && v.born[id] == w.born[id])
  {
    if a.Recreate? || (a.Save? && !AbsoluteExpired(policy, Stamped(w.requests[a.rid].session, a.now).issuedAt, a.now)) {
      assert RequestInv(policy, w, w.requests[a.rid]);
      var s := w.requests[a.rid].session;
      var call := if a.Save? then SaveCall(policy, Stamped(s, a.now), a.now) else w.requests[a.rid].call;
      var entries := After(w.entries, call, a.at);
      assert id in entries && id != call.id ==> id in w.entries && entries[id] == w.entries[id];
      assert Next(policy, w, a).entries == entries;
    }
  }

  /** An id that was stored and is gone. */
  predicate Retired(w: World, id: Id) {
    id in w.born && id !in w.entries
  }

  /** No run brings a retired id back. */
  lemma {:induction false} RetiredForever(policy: Policy, w: World, run: seq<Action>, id: Id)
    requires Inv(policy, w) && PossibleRun(policy, w, run) && Retired(w, id)
    ensures Retired(Run(policy, w, run), id)
    decreases |run|
  {
    if run != [] {
      StepStores(policy, w, run[0], id);
      StepKeepsInv(policy, w, run[0]);
      RetiredForever(policy, Next(policy, w, run[0]), run[1..], id);
    }
  }

  /** An id that was stored and has expired by `t`, or is gone. */
  predicate Lapsed(w: World, id: Id, t: Time) {
    id in w.born && (id in w.entries ==> w.entries[id].expiresAt <= t)
  }

  predicate ReadsFrom(a: Action, t: Time) {
    a.Put? || a.Regenerate? || a.at >= t
  }

  /** While the store's clock does not go back, a lapsed id is never answered again. */
  lemma {:induction false} LapsedForever(policy: Policy, w: World, run: seq<Action>, id: Id, t: Time)
    requires Inv(policy, w) && PossibleRun(policy, w, run) && Lapsed(w, id, t)
    requires forall i :: 0 <= i < |run| ==> ReadsFrom(run[i], t)
    ensures Lapsed(Run(policy, w, run), id, t)
    ensures forall at :: at >= t ==> ReplyTo(Run(policy, w, run).entries, Get(id), at) == NotFound
    decreases |run|
  {
    if run != [] {
      StepStores(policy, w, run[0], id);
      StepKeepsInv(policy, w, run[0]);
      LapsedForever(policy, Next(policy, w, run[0]), run[1..], id, t);
    }
  }

  lemma {:induction false} BornForever(policy: Policy, w: World, run: seq<Action>, id: Id)
    requires Inv(policy, w) && PossibleRun(policy, w, run) && id in w.born
    ensures var v := Run(policy, w, run); id in v.born && v.born[id] == w.born[id]
    decreases |run|
  {
    if run != [] {
      StepStores(policy, w, run[0], id);
      StepKeepsInv(policy, w, run[0]);
      BornForever(policy, Next(policy, w, run[0]), run[1..], id);
    }
  }

  /** As long as an id is stored, its issuance time is the one it had. */
  lemma IssuedOnce(policy: Policy, w: World, run: seq<Action>, id: Id)
    requires Inv(policy, w) && PossibleRun(policy, w, run)
    requires id in w.entries && id in Run(policy, w, run).entries
    ensures Run(policy, w, run).entries[id].payload.issuedAt == w.entries[id].payload.issuedAt
  {
    assert EntryInv(policy, w, id);
    RunKeepsInv(policy, w, run);
    BornForever(policy, w, run, id);
    assert EntryInv(policy, Run(policy, w, run), id);
  }

  /** Whatever a run leaves stored is as it was or expires by its absolute deadline. */
  lemma {:induction false} ExpiryWithinDeadline(policy: Policy, w: World, run: seq<Action>, id: Id)
    requires Inv(policy, w) && PossibleRun(policy, w, run) && id in Run(policy, w, run).entries
    ensures var entry := Run(policy, w, run).entries[id];
      (id in w.entries && entry == w.entries[id]) || Within(policy, entry.payload, entry.expiresAt)
    decreases |run|
  {
    if run != [] {
      var v := Next(policy, w, run[0]);
      StepKeepsInv(policy, w, run[0]);
      ExpiryWithinDeadline(policy, v, run[1..], id);
      if id in v.entries {
        StepStores(policy, w, run[0], id);
      }
    }
  }

  /** From any dated entries, after every run: each stored session has the issuance time it was born with, and is an
      entry of the start or expires by its deadline. */
  lemma EveryRun(policy: Policy, entries: Entries, run: seq<Action>)
    requires Dated(policy, entries) && PossibleRun(policy, Start(entries), run)
    ensures var w := Run(policy, Start(entries), run);
      && Inv(policy, w)
      && forall id :: id in w.entries ==>
           && id in w.born && w.entries[id].payload.issuedAt == w.born[id]
           && ((id in entries && w.entries[id] == entries[id]) || Within(policy, w.entries[id].payload, w.entries[id].expiresAt))
  {
    StartInv(policy, entries);
    RunKeepsInv(policy, Start(entries), run);
    var w := Run(policy, Start(entries), run);
    forall id | id in w.entries
      ensures id in w.born && w.entries[id].payload.issuedAt == w.born[id]
      ensures (id in entries && w.entries[id] == entries[id]) || Within(policy, w.entries[id].payload, w.entries[id].expiresAt)
    {
      assert EntryInv(policy, w, id);
      ExpiryWithinDeadline(policy, Start(entries), run, id);
    }
  }

  // ---- lines of rotations ---------------------------------------------------------------------------

  lemma {:induction false} RunJoins(policy: Policy, w: World, a: seq<Action>, b: seq<Action>)
    ensures PossibleRun(policy, w, a + b) <==> PossibleRun(policy, w, a) && PossibleRun(policy, Run(policy, w, a), b)
    ensures PossibleRun(policy, w, a + b) ==> Run(policy, w, a + b) == Run(policy, Run(policy, w, a), b)
    decreases |a|
  {
    if a == [] {
      assert a + b == b;
    } else {
      assert (a + b)[0] == a[0] && (a + b)[1..] == a[1..] + b;
      if Possible(w, a[0]) {
        RunJoins(policy, Next(policy, w, a[0]), a[1..], b);
      }
    }
  }

  /** The id under which a request's session was last stored; empty when it never was. */
  function StoredId(w: World, rid: RequestId): Id {
    if rid !in w.requests || w.requests[rid].Dropping? then "" else w.requests[rid].session.persistedId
  }

  /** The step moves some request's session from one stored id to another, by rotation or by creation after one. */
  predicate Rotates(policy: Policy, w: World, a: Action, from: Id, to: Id)
    requires Possible(w, a)
  {
    StoredId(w, a.rid) == from != "" && StoredId(Next(policy, w, a), a.rid) == to != "" && from != to
  }

  lemma RotationKeepsIssuance(policy: Policy, w: World, a: Action, from: Id, to: Id)
    requires Inv(policy, w) && Possible(w, a) && Rotates(policy, w, a, from, to)
    ensures from in w.born && to in Next(policy, w, a).born && Next(policy, w, a).born[to] == w.born[from] != 0
  {
    StepKeepsInv(policy, w, a);
    var v := Next(policy, w, a);
    assert RequestInv(policy, w, w.requests[a.rid]) && RequestInv(policy, v, v.requests[a.rid]);
  }

  /** Some step of the run makes the move. */
  ghost predicate Rotated(policy: Policy, w: World, run: seq<Action>, from: Id, to: Id)
    requires PossibleRun(policy, w, run)
  {
    exists k :: 0 <= k < |run| && RotatedAt(policy, w, run, k, from, to)
  }

  ghost predicate RotatedAt(policy: Policy, w: World, run: seq<Action>, k: nat, from: Id, to: Id)
    requires k < |run|
  {
    && PossibleRun(policy, w, run[..k]) && Possible(Run(policy, w, run[..k]), run[k])
    && Rotates(policy, Run(policy, w, run[..k]), run[k], from, to)
  }

  lemma RotatedKeepsIssuance(policy: Policy, w: World, run: seq<Action>, from: Id, to: Id)
    requires Inv(policy, w) && PossibleRun(policy, w, run) && Rotated(policy, w, run, from, to)
    ensures var v := Run(policy, w, run); from in v.born && to in v.born && v.born[to] == v.born[from] != 0
  {
    var k :| 0 <= k < |run| && RotatedAt(policy, w, run, k, from, to);
    var v, a := Run(policy, w, run[..k]), run[k];
    assert run == run[..k] + run[k..] && run[k..][1..] == run[k + 1..];
    RunJoins(policy, w, run[..k], run[k..]);
    RunKeepsInv(policy, w, run[..k]);
    RotationKeepsIssuance(policy, v, a, from, to);
    StepKeepsInv(policy, v, a);
    StepStores(policy, v, a, from);
    BornForever(policy, Next(policy, v, a), run[k + 1..], from);
    BornForever(policy, Next(policy, v, a), run[k + 1..], to);
  }

  /** Ids each moved from to the next, by whatever requests. */
  ghost predicate Lineage(policy: Policy, w: World, run: seq<Action>, ids: seq<Id>)
    requires PossibleRun(policy, w, run)
  {
    forall i :: 0 < i < |ids| ==> MovedOn(policy, w, run, ids, i)
  }

  ghost predicate MovedOn(policy: Policy, w: World, run: seq<Action>, ids: seq<Id>, i: nat)
    requires PossibleRun(policy, w, run) && 0 < i < |ids|
  {
    Rotated(policy, w, run, ids[i - 1], ids[i])
  }

  /** Along a line of rotations, made by any requests in any interleaving, every id is issued at the same time. */
  lemma {:induction false} RotationsKeepIssuance(policy: Policy, w: World, run: seq<Action>, ids: seq<Id>, i: nat)
    requires Inv(policy, w) && PossibleRun(policy, w, run) && Lineage(policy, w, run, ids) && 1 <= i < |ids|
    ensures var v := Run(policy, w, run); ids[0] in v.born && ids[i] in v.born && v.born[ids[i]] == v.born[ids[0]] != 0
    decreases i
  {
    assert MovedOn(policy, w, run, ids, i);
    RotatedKeepsIssuance(policy, w, run, ids[i - 1], ids[i]);
    if i > 1 {
      RotationsKeepIssuance(policy, w, run, ids, i - 1);
    }
  }

  /** Rotating does not extend the deadline: from the absolute deadline of the first id of the line on, no id of the line
      is answered. */
  lemma RotationCannotExtend(policy: Policy, w: World, run: seq<Action>, ids: seq<Id>, i: nat, at: Time)
    requires Inv(policy, w) && PossibleRun(policy, w, run) && Lineage(policy, w, run, ids) && i < |ids| && 1 < |ids|
    requires forall id :: id in w.entries ==> Within(policy, w.entries[id].payload, w.entries[id].expiresAt)
    requires policy.absolute > 0
    ensures var v := Run(policy, w, run);
      ids[0] in v.born && (at >= v.born[ids[0]] + policy.absolute ==> ReplyTo(v.entries, Get(ids[i]), at) == NotFound)
  {
    var v := Run(policy, w, run);
    RotationsKeepIssuance(policy, w, run, ids, if i == 0 then 1 else i);
    if ids[i] in v.entries {
      ExpiryWithinDeadline(policy, w, run, ids[i]);
      RunKeepsInv(policy, w, run);
      assert EntryInv(policy, v, ids[i]);
    }
  }

  /** `Dated` is needed: from an entry without issuance time, and with no deadline, some run dates the session
      and a further step dates it again. */
  lemma UndatedChanges(policy: Policy, entries: Entries, id: Id, freshId: Id) returns (run: seq<Action>, again: Action)
    requires ValidPolicy(policy) && policy.absolute == 0
    requires id in entries && id != "" && entries[id].payload.issuedAt == 0
    requires freshId != "" && freshId !in entries
    ensures PossibleRun(policy, Start(entries), run)
    ensures var w := Run(policy, Start(entries), run);
      && Possible(w, again) && id in w.entries && id in Next(policy, w, again).entries
      && w.entries[id].payload.issuedAt != 0
      && Next(policy, w, again).entries[id].payload.issuedAt != w.entries[id].payload.issuedAt
  {
    var at := entries[id].expiresAt - 1;
    var now := if at > 0 then at else 1;
    var first, second, third := Load(0, id, freshId, now, at), Load(1, id, freshId, now + 1, at), Save(0, now, at);
    run := [first, second, third];
    again := Save(1, now, at);
    var w0 := Start(entries);
    var w1 := Next(policy, w0, first);
    assert w1.requests == map[0 := Holding(Loaded(id, entries[id].payload, now))];
    var w2 := Next(policy, w1, second);
    assert w2.requests[0] == w1.requests[0] && w2.requests[1] == Holding(Loaded(id, entries[id].payload, now + 1));
    var w3 := Next(policy, w2, third);
    assert w3.entries[id].payload.issuedAt == now && Live(w3.entries, id, at);
    ThreeSteps(policy, w0, first, second, third);
  }

  lemma OneStep(policy: Policy, w: World, a: Action, rest: seq<Action>)
    requires Possible(w, a) && PossibleRun(policy, Next(policy, w, a), rest)
    ensures PossibleRun(policy, w, [a] + rest) && Run(policy, w, [a] + rest) == Run(policy, Next(policy, w, a), rest)
  {
    assert ([a] + rest)[1..] == rest;
  }

  lemma ThreeSteps(policy: Policy, w: World, a: Action, b: Action, c: Action)
    requires Possible(w, a) && Possible(Next(policy, w, a), b) && Possible(Next(policy, Next(policy, w, a), b), c)
    ensures PossibleRun(policy, w, [a, b, c])
    ensures Run(policy, w, [a, b, c]) == Next(policy, Next(policy, Next(policy, w, a), b), c)
  {
    var w1 := Next(policy, w, a);
    var w2 := Next(policy, w1, b);
    OneStep(policy, w2, c, []);
    OneStep(policy, w1, b, [c]);
    OneStep(policy, w, a, [b, c]);
    assert [c] + [] == [c] && [b] + [c] == [b, c] && [a] + [b, c] == [a, b, c];
  }
}
