/**
 The shared table of UDP sessions (src/udp/mod.rs).

 Every access to the table happens inside a critical section of one mutex. Each critical
 section is a function on tables here. `UdpProtocol` interleaves them with the rest of the
 protocol, and `UdpCode` has the code of each section and what it means for its caller.

 A creation notice is named by the call that created it, since a call creates at most one.
 */
module UdpTable {
  import opened Common

  type Key = nat
  type CallId = nat
  type SessionId = nat

  datatype Entry = Creating(notice: CallId) | Ready(session: SessionId)

  type Table = map<Key, Entry>

  /** What a call of `get_or_create_udp_session` learns at the head of its loop. */
  datatype Lookup = ShuttingDown | Reuse(session: SessionId) | Await(notice: CallId) | Reserved

  /** What a creator learns when it comes back with its result. */
  datatype Registration = Refused | Failed | ExitedEarly | Registered(session: SessionId)

  function Look(table: Table, closed: bool, key: Key, me: CallId): (r: (Table, Lookup)) {
    if closed then (table, ShuttingDown)
    else if key !in table then (table[key := Creating(me)], Reserved)
    else match table[key]
      case Ready(session) => (table, Reuse(session))
      case Creating(notice) => (table, Await(notice))
  }

  function Register(table: Table, closed: bool, key: Key, created: Option<SessionId>, cancelled: bool)
    : (r: (Table, Registration))
  {
    if closed then (table - {key}, Refused)
    else match created
      case None => (table - {key}, Failed)
      case Some(session) =>
        if cancelled then (table - {key}, ExitedEarly)
        else (table[key := Ready(session)], Registered(session))
  }

  /** The session has been silent for the whole timeout at time `now`. */
  predicate Idle(lastSeen: map<SessionId, nat>, session: SessionId, now: nat, timeout: nat) {
    session in lastSeen && SaturatingSub(now, lastSeen[session]) >= timeout
  }

  /** The entry of `key` is one that a sweep of `expired` must delete. */
  predicate Doomed(table: Table, key: Key, expired: seq<(Key, SessionId)>,
                   lastSeen: map<SessionId, nat>, now: nat, timeout: nat)
  {
    && key in table
    && table[key].Ready?
    && (key, table[key].session) in expired
    && Idle(lastSeen, table[key].session, now, timeout)
  }

  function Sweep(table: Table, expired: seq<(Key, SessionId)>,
                 lastSeen: map<SessionId, nat>, now: nat, timeout: nat): (r: (Table, set<SessionId>))
  {
    (map k | k in table && !Doomed(table, k, expired, lastSeen, now, timeout) :: table[k],
     set k | k in table && Doomed(table, k, expired, lastSeen, now, timeout) :: table[k].session)
  }

  /** What a finished receive task does to the table. */
  function Leave(table: Table, key: Key, session: SessionId): (r: Table) {
    if key in table && table[key] == Ready(session) then table - {key} else table
  }

  function ReadySessions(table: Table): (r: set<SessionId>) {
    set k | k in table && table[k].Ready? :: table[k].session
  }

  function Notices(table: Table): (r: set<CallId>) {
    set k | k in table && table[k].Creating? :: table[k].notice
  }
}
