/** The session store and the decisions the session manager takes around it. */
module Sessions {

  type Id = string

  /** An instant; 0 is the zero time, which no clock reads. */
  type Time = int

  /** What is kept for a session: when it was issued and its values, before encoding. */
  datatype Payload = Payload(issuedAt: Time, data: string)

  datatype Entry = Entry(payload: Payload, expiresAt: Time)

  type Entries = map<Id, Entry>

  /** `absolute` is 0 when there is no absolute deadline. */
  datatype Policy = Policy(idle: int, absolute: int)

  predicate ValidPolicy(policy: Policy) {
    policy.idle > 0 && (policy.absolute == 0 || policy.absolute >= policy.idle)
  }

  // ---- the store ---------------------------------------------------------------------------------

  datatype Call =
    | Get(id: Id)
    | Create(id: Id, payload: Payload, expiresAt: Time)
    | Update(id: Id, payload: Payload, expiresAt: Time)
    | Rotate(oldId: Id, id: Id, payload: Payload, expiresAt: Time)
    | Delete(id: Id)

  datatype Reply = Ok | NotFound | Exists | Found(payload: Payload)

  predicate Live(entries: Entries, id: Id, at: Time) {
    id in entries && at < entries[id].expiresAt
  }

  function ReplyTo(entries: Entries, call: Call, at: Time): Reply {
    match call
    case Get(id) => if Live(entries, id, at) then Found(entries[id].payload) else NotFound
    case Create(id, _, _) => if Live(entries, id, at) then Exists else Ok
    case Update(id, _, _) => if Live(entries, id, at) then Ok else NotFound
    case Rotate(oldId, id, _, _) =>
      if !Live(entries, oldId, at) then NotFound else if Live(entries, id, at) then Exists else Ok
    case Delete(_) => Ok
  }

  /** The entries after the call. */
  function After(entries: Entries, call: Call, at: Time): Entries {
    var reply := ReplyTo(entries, call, at);
    match call
    case Get(id) => if reply.Found? then entries else entries - {id}
    case Create(id, payload, expiresAt) => if reply.Ok? then entries[id := Entry(payload, expiresAt)] else entries
    case Update(id, payload, expiresAt) => if reply.Ok? then entries[id := Entry(payload, expiresAt)] else entries - {id}
    case Rotate(oldId, id, payload, expiresAt) =>
      if reply.Ok? then entries[id := Entry(payload, expiresAt)] - {oldId}
      else if reply.NotFound? then entries - {oldId}
      else entries
    case Delete(id) => entries - {id}
  }

  // ---- the manager -------------------------------------------------------------------------------

  /** A request's session; `persistedId` is empty while it was never stored, `id` once it was invalidated. */
  datatype Session = Session(id: Id, persistedId: Id, data: string, issuedAt: Time, createOnMissing: bool)

  const CLEARED := Session("", "", "", 0, false)

  function Fresh(id: Id, now: Time): Session {
    Session(id, "", "", now, false)
  }

  predicate AbsoluteExpired(policy: Policy, issuedAt: Time, now: Time) {
    policy.absolute > 0 && now >= issuedAt + policy.absolute
  }

  /** Whether a stored payload may be used: not past its deadline, and with a known start if there is one. */
  predicate Usable(policy: Policy, payload: Payload, now: Time) {
    if payload.issuedAt == 0 then policy.absolute == 0 else !AbsoluteExpired(policy, payload.issuedAt, now)
  }

  function Loaded(id: Id, payload: Payload, now: Time): Session {
    Session(id, id, payload.data, if payload.issuedAt == 0 then now else payload.issuedAt, false)
  }

  function Stamped(s: Session, now: Time): Session {
    if s.issuedAt == 0 then s.(issuedAt := now) else s
  }

  function ExpiryOf(policy: Policy, issuedAt: Time, now: Time): Time {
    if policy.absolute > 0 && issuedAt + policy.absolute < now + policy.idle then issuedAt + policy.absolute
    else now + policy.idle
  }

  /** The call that saves a stamped session. */
  function SaveCall(policy: Policy, s: Session, now: Time): Call {
    var payload, expiresAt := Payload(s.issuedAt, s.data), ExpiryOf(policy, s.issuedAt, now);
    if s.persistedId == "" then Create(s.id, payload, expiresAt)
    else if s.persistedId == s.id then Update(s.id, payload, expiresAt)
    else Rotate(s.persistedId, s.id, payload, expiresAt)
  }

  function Persisted(s: Session): Session {
    s.(persistedId := s.id, createOnMissing := false)
  }

  function Regenerated(s: Session, id: Id, createOnMissing: bool): Session {
    s.(id := id, createOnMissing := createOnMissing)
  }
}
