/** The in-memory session store and the session manager, as objects. */
module SessionManager {
  import opened Sessions

  class MemoryStore {
    var entries: Entries

    constructor ()
      ensures entries == map[]
    {
      entries := map[];
    }

    method Get(id: Id, at: Time) returns (reply: Reply)
      modifies this
      ensures reply == ReplyTo(old(entries), Call.Get(id), at)
      ensures entries == After(old(entries), Call.Get(id), at)
    {
      if id !in entries {
        assert entries - {id} == entries;
        return NotFound;
      }
      if at >= entries[id].expiresAt {
        entries := entries - {id};
        return NotFound;
      }
      reply := Found(entries[id].payload);
    }

    method Create(id: Id, payload: Payload, expiresAt: Time, at: Time) returns (reply: Reply)
      modifies this
      ensures reply == ReplyTo(old(entries), Call.Create(id, payload, expiresAt), at)
      ensures entries == After(old(entries), Call.Create(id, payload, expiresAt), at)
    {
      if id in entries {
        if at < entries[id].expiresAt {
          return Exists;
        }
        entries := entries - {id};
      }
      entries := entries[id := Entry(payload, expiresAt)];
      reply := Ok;
    }

    method Update(id: Id, payload: Payload, expiresAt: Time, at: Time) returns (reply: Reply)
      modifies this
      ensures reply == ReplyTo(old(entries), Call.Update(id, payload, expiresAt), at)
      ensures entries == After(old(entries), Call.Update(id, payload, expiresAt), at)
    {
      if id !in entries || at >= entries[id].expiresAt {
        entries := entries - {id};
        return NotFound;
      }
      entries := entries[id := Entry(payload, expiresAt)];
      reply := Ok;
    }

    method Rotate(oldId: Id, newId: Id, payload: Payload, expiresAt: Time, at: Time) returns (reply: Reply)
      modifies this
      ensures reply == ReplyTo(old(entries), Call.Rotate(oldId, newId, payload, expiresAt), at)
      ensures entries == After(old(entries), Call.Rotate(oldId, newId, payload, expiresAt), at)
    {
      if oldId !in entries || at >= entries[oldId].expiresAt {
        entries := entries - {oldId};
        return NotFound;
      }
      if newId in entries {
        if at < entries[newId].expiresAt {
          return Exists;
        }
        entries := entries - {newId};
      }
      entries := entries[newId := Entry(payload, expiresAt)];
      entries := entries - {oldId};
      reply := Ok;
    }

    method Delete(id: Id, at: Time)
      modifies this
      ensures entries == After(old(entries), Call.Delete(id), at)
    {
      entries := entries - {id};
    }
  }

  /** One request's mutable session. */
  class RequestSession {
    var id: Id
    var persistedId: Id
    var data: string
    var issuedAt: Time
    var createOnMissing: bool

    constructor (s: Session)
      ensures Value() == s
    {
      id, persistedId, data, issuedAt, createOnMissing := s.id, s.persistedId, s.data, s.issuedAt, s.createOnMissing;
    }

    function Value(): Session
      reads this
    {
      Session(id, persistedId, data, issuedAt, createOnMissing)
    }
  }

  datatype Outcome = Done | Uninitialized | Refused(reply: Reply)

  class Manager {
    const policy: Policy
    const store: MemoryStore

    constructor (store: MemoryStore, policy: Policy)
      requires ValidPolicy(policy)
      ensures this.store == store && this.policy == policy && Valid()
    {
      this.store, this.policy := store, policy;
    }

    predicate Valid() {
      ValidPolicy(policy)
    }

    /** Loads the session with the given id, or starts one under `freshId`; unusable sessions are removed.
        `at` and `later` are the store's readings at the first and second call. */
    method Load(id: Id, freshId: Id, now: Time, at: Time, later: Time) returns (session: RequestSession)
      requires Valid()
      modifies store
      ensures fresh(session)
      ensures id == "" ==> session.Value() == Fresh(freshId, now) && store.entries == old(store.entries)
      ensures id != "" ==>
          var reply := ReplyTo(old(store.entries), Get(id), at);
          var entries := After(old(store.entries), Get(id), at);
          if reply.NotFound? then session.Value() == Fresh(freshId, now) && store.entries == entries
          else if Usable(policy, reply.payload, now) then
            session.Value() == Loaded(id, reply.payload, now) && store.entries == entries
          else session.Value() == Fresh(freshId, now) && store.entries == After(entries, Delete(id), later)
    {
      if id == "" {
        session := new RequestSession(Fresh(freshId, now));
        return;
      }
      var reply := store.Get(id, at);
      if reply.NotFound? {
        session := new RequestSession(Fresh(freshId, now));
        return;
      }
      var payload := reply.payload;
      if payload.issuedAt == 0 {
        if policy.absolute > 0 {
          store.Delete(id, later);
          session := new RequestSession(Fresh(freshId, now));
          return;
        }
        payload := payload.(issuedAt := now);
      }
      if AbsoluteExpired(policy, payload.issuedAt, now) {
        store.Delete(id, later);
        session := new RequestSession(Fresh(freshId, now));
        return;
      }
      session := new RequestSession(Session(id, id, payload.data, payload.issuedAt, false));
    }

    /** Saves the session; a rotation that finds the old id gone may create the new one instead. */
    method Save(session: RequestSession, now: Time, at: Time, later: Time) returns (outcome: Outcome)
      modifies session, store
      ensures old(session.id) == "" ==>
          outcome == Uninitialized && session.Value() == old(session.Value()) && store.entries == old(store.entries)
      ensures outcome == Done && session.id != "" ==>
          && session.id == old(session.id) && session.id in store.entries && session.data == old(session.data)
          && store.entries[session.id].payload.data == session.data
          && store.entries[session.id].payload.issuedAt == session.issuedAt
      ensures old(session.id) != "" ==>
          var s := Stamped(old(session.Value()), now);
          if AbsoluteExpired(policy, s.issuedAt, now) then
            && outcome == Done && session.Value() == CLEARED
            && store.entries == if s.persistedId == "" then old(store.entries)
                                else After(old(store.entries), Delete(s.persistedId), at)
          else
            var call := SaveCall(policy, s, now);
            var reply := ReplyTo(old(store.entries), call, at);
            var entries := After(old(store.entries), call, at);
            if reply.Ok? then outcome == Done && session.Value() == Persisted(s) && store.entries == entries
            else if reply.NotFound? && call.Rotate? && s.createOnMissing then
              var create := Create(call.id, call.payload, call.expiresAt);
              && store.entries == After(entries, create, later)
              && if ReplyTo(entries, create, later).Ok? then outcome == Done && session.Value() == Persisted(s)
                 else outcome == Refused(ReplyTo(entries, create, later)) && session.Value() == s
            else outcome == Refused(reply) && session.Value() == s && store.entries == entries
    {
      if session.id == "" {
        return Uninitialized;
      }
      if session.issuedAt == 0 {
        session.issuedAt := now;
      }
      if AbsoluteExpired(policy, session.issuedAt, now) {
        Invalidate(session, at);
        return Done;
      }
      var expiresAt := now + policy.idle;
      if policy.absolute > 0 {
        var deadline := session.issuedAt + policy.absolute;
        if deadline < expiresAt {
          expiresAt := deadline;
        }
      }
      var payload := Payload(session.issuedAt, session.data);
      var reply;
      if session.persistedId == "" {
        reply := store.Create(session.id, payload, expiresAt, at);
      } else if session.persistedId == session.id {
        reply := store.Update(session.id, payload, expiresAt, at);
      } else {
        reply := store.Rotate(session.persistedId, session.id, payload, expiresAt, at);
        if session.createOnMissing && reply.NotFound? {
          reply := store.Create(session.id, payload, expiresAt, later);
        }
      }
      if reply != Ok {
        return Refused(reply);
      }
      session.persistedId := session.id;
      session.createOnMissing := false;
      outcome := Done;
    }

    /** Stages a new id; nothing is stored until the session is saved. */
    method Regenerate(session: RequestSession, freshId: Id, createOnMissing: bool)
      modifies session
      ensures session.Value() == Regenerated(old(session.Value()), freshId, createOnMissing)
    {
      session.id := freshId;
      session.createOnMissing := createOnMissing;
    }

    /** Removes what was stored of the session and empties it. */
    method Invalidate(session: RequestSession, at: Time)
      modifies session, store
      ensures old(session.id) == "" ==> session.Value() == old(session.Value()) && store.entries == old(store.entries)
      ensures old(session.id) != "" ==> session.Value() == CLEARED
      ensures old(session.id) != "" ==>
          store.entries == if old(session.persistedId) == "" then old(store.entries)
                           else After(old(store.entries), Delete(old(session.persistedId)), at)
    {
      if session.id != "" {
        if session.persistedId != "" {
          store.Delete(session.persistedId, at);
        }
        session.id, session.persistedId, session.data, session.issuedAt, session.createOnMissing := "", "", "", 0, false;
      }
    }
  }
}
