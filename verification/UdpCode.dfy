/**
 The code of the critical sections of the `sessions` mutex (src/udp/mod.rs). The table lives
 inside the protocol: a ghost field holds the state of all calls, tasks and sessions, every
 section is one of its steps, and the contracts say what a caller may rely on because of the
 invariant of the protocol.
 */
module UdpCode {
  import opened Common
  import opened UdpTable
  import opened UdpProtocol
  import opened UdpSafety

  /** The entry of no other key changes. */
  ghost predicate OnlyAt(key: Key, before: Table, after: Table) {
    forall k | k != key :: (k in before <==> k in after) && (k in before ==> after[k] == before[k])
  }

  class UdpRuntime {
    var sessions: Table
    var closed: bool
    const timeout: nat
    ghost var state: State

    ghost predicate Valid()
      reads this
    {
      Inv(state) && state.sessions == sessions && state.closed == closed && state.timeout == timeout
    }

    constructor (timeout: nat)
      ensures Valid() && state == Init(timeout)
    {
      this.timeout := timeout;
      sessions, closed := map[], false;
      state := Init(timeout);
    }

    /** One turn of the loop of `get_or_create_udp_session`. */
    method LookOrReserve(key: Key, me: CallId) returns (r: Lookup)
      requires Valid() && Enabled(state, LookUp(me)) && state.calls[me].key == key
      modifies this`sessions, this`state
      ensures Valid() && state == Step(old(state), LookUp(me))
      ensures r.ShuttingDown? <==> closed
      // whoever reserves is the only creator of the key
      ensures r.Reserved? <==> !closed && key !in old(sessions)
      ensures r.Reserved? ==> forall u | CreatorOf(state, u, key) :: u == me
      // a session that is handed out belongs to the key and its task has not finished
      ensures r.Reuse? ==> Serves(state, r.session, key)
      // whoever waits waits for a creator of the key at work
      ensures r.Await? ==> CreatorOf(state, r.notice, key)
      ensures OnlyAt(key, old(sessions), sessions)
    {
      hide Inv, CreatorOf, Serves;
      LookMeans(state, me);
      StepKeepsInv(state, LookUp(me));
      state := Step(state, LookUp(me));
      if closed {
        return ShuttingDown;
      }
      if key in sessions {
        match sessions[key] {
          case Ready(session) => r := Reuse(session);
          case Creating(notice) => r := Await(notice);
        }
      } else {
        sessions := sessions[key := Creating(me)];
        r := Reserved;
      }
    }

    /** The creation task failed to join: only the caller's own entry can go. */
    method Abandon(key: Key, me: CallId)
      requires Valid() && Enabled(state, FailJoin(me)) && state.calls[me].key == key
      modifies this`sessions, this`state
      ensures Valid() && state == Step(old(state), FailJoin(me))
      ensures key !in sessions && OnlyAt(key, old(sessions), sessions)
      ensures key in old(sessions) ==> old(sessions)[key] == Creating(me)
    {
      hide Inv;
      OwnEntry(state, me);
      StepKeepsInv(state, FailJoin(me));
      state := Step(state, FailJoin(me));
      sessions := sessions - {key};
    }

    /** The creator comes back with the outcome of `create_udp_session`. */
    method RegisterCreated(key: Key, me: CallId, created: Option<SessionId>, cancelled: bool) returns (r: Registration)
      requires Valid() && Enabled(state, Finish(me)) && state.calls[me].key == key
      requires created == (if state.calls[me].Holding? then Some(state.calls[me].session) else None)
      requires cancelled == (created.Some? && state.live[created.value].cancelled)
      modifies this`sessions, this`state
      ensures Valid() && state == Step(old(state), Finish(me))
      ensures OnlyAt(key, old(sessions), sessions)
      ensures key in old(sessions) ==> old(sessions)[key] == Creating(me)
      // the registered session is the only usable one of its key
      ensures r.Registered? <==> !closed && created.Some? && !cancelled
      ensures r.Registered? ==> Some(r.session) == created && key in sessions && sessions[key] == Ready(r.session)
      ensures r.Registered? ==>
                forall y | y in state.live && state.live[y].key == key && !state.live[y].cancelled :: y == r.session
      // one that is not registered is cancelled, and the key is free again
      ensures !r.Registered? ==> key !in sessions && (created.Some? ==> state.live[created.value].cancelled)
      ensures r.Refused? <==> closed
    {
      hide Inv;
      OwnEntry(state, me);
      StepKeepsInv(state, Finish(me));
      state := Step(state, Finish(me));
      if closed {
        sessions := sessions - {key};
        return Refused;
      }
      match created {
        case Some(session) =>
          if cancelled {
            sessions := sessions - {key};
            r := ExitedEarly;
          } else {
            sessions := sessions[key := Ready(session)];
            r := Registered(session);
            OnlyUsable(state, key, session);
          }
        case None =>
          sessions := sessions - {key};
          r := Failed;
      }
    }

    method GetReady(key: Key) returns (r: Option<SessionId>)
      requires Valid()
      ensures forall s: SessionId :: r == Some(s) <==> key in sessions && sessions[key] == Ready(s)
      ensures r.Some? ==> Serves(state, r.value, key)
    {
      if key in sessions && sessions[key].Ready? {
        assert EntrySound(state, key);
        r := Some(sessions[key].session);
      } else {
        r := None;
      }
    }

    /** First half of `cleanup_expired_sessions`: a copy of the Ready entries. */
    method Snapshot(me: CallId, now: nat) returns (snapshot: seq<(Key, SessionId)>)
      requires Valid() && me !in state.calls
      modifies this`state
      ensures Valid()
      ensures forall k: Key, s: SessionId :: (k, s) in snapshot <==> k in sessions && sessions[k] == Ready(s)
      ensures Enumerates(snapshot, sessions) && state == Step(old(state), Collect(me, now, snapshot))
    {
      hide Inv;
      snapshot := [];
      var keys := sessions.Keys;
      while keys != {}
        invariant keys <= sessions.Keys
        invariant forall k: Key, s: SessionId :: (k, s) in snapshot <==>
                    k in sessions && k !in keys && sessions[k] == Ready(s)
        decreases keys
      {
        var k :| k in keys;
        if sessions[k].Ready? {
          snapshot := snapshot + [(k, sessions[k].session)];
        }
        keys := keys - {k};
      }
      assert Enumerates(snapshot, sessions) by {
        forall p | p in snapshot
          ensures p.0 in sessions && sessions[p.0] == Ready(p.1)
        {
          assert (p.0, p.1) in snapshot;
        }
      }
      StepKeepsInv(state, Collect(me, now, snapshot));
      state := Step(state, Collect(me, now, snapshot));
    }

    /** Second half of `cleanup_expired_sessions`, under the lock again. */
    method SweepExpired(me: CallId, expired: seq<(Key, SessionId)>, lastSeen: map<SessionId, nat>, now: nat)
      returns (removed: set<SessionId>)
      requires Valid() && Enabled(state, SweepTable(me)) && lastSeen == LastSeen(state.live)
      requires expired == state.calls[me].expired && now == state.calls[me].now
      modifies this`sessions, this`state
      ensures Valid() && state == Step(old(state), SweepTable(me))
      ensures forall k | k in old(sessions) :: k in sessions <==>
                !Doomed(old(sessions), k, expired, lastSeen, now, timeout)
      ensures forall k | k in sessions :: k in old(sessions) && sessions[k] == old(sessions)[k]
      ensures forall x: SessionId :: x in removed <==>
                exists k | k in old(sessions) :: k !in sessions && old(sessions)[k] == Ready(x)
    {
      hide Inv, Sweep;
      SweepMeans(sessions, expired, lastSeen, now, timeout);
      removed := RemoveExpired(expired, lastSeen, now);
      StepKeepsInv(state, SweepTable(me));
      state := Step(state, SweepTable(me));
    }

    /** The loop over the expired sessions. */
    method RemoveExpired(expired: seq<(Key, SessionId)>, lastSeen: map<SessionId, nat>, now: nat)
      returns (removed: set<SessionId>)
      modifies this`sessions
      ensures (sessions, removed) == Sweep(old(sessions), expired, lastSeen, now, timeout)
    {
      hide Sweep, Idle;
      removed := {};
      ghost var was := sessions;
      NothingSwept(was, lastSeen, now, timeout);
      for i := 0 to |expired|
        invariant (sessions, removed) == Sweep(was, expired[..i], lastSeen, now, timeout)
      {
        var (key, session) := expired[i];
        assert expired[..i + 1] == expired[..i] + [expired[i]];
        SweepOneMore(was, expired[..i], key, session, lastSeen, now, timeout);
        if key in sessions && sessions[key] == Ready(session) && Idle(lastSeen, session, now, timeout) {
          sessions := sessions - {key};
          removed := removed + {session};
        }
      }
      assert expired[..|expired|] == expired;
    }

    /**
     Tail of the receive task spawned by `create_udp_session`: its session is in no entry any
     more, and no other entry is touched.
     */
    method LeaveTable(key: Key, session: SessionId)
      requires Valid() && Enabled(state, UdpProtocol.LeaveTable(session)) && state.live[session].key == key
      modifies this`sessions, this`state
      ensures Valid() && state == Step(old(state), UdpProtocol.LeaveTable(session))
      ensures forall k | k in sessions :: sessions[k] != Ready(session)
      ensures forall k | k in old(sessions) && old(sessions)[k] != Ready(session) :: k in sessions
      ensures forall k | k in sessions :: k in old(sessions) && sessions[k] == old(sessions)[k]
    {
      hide Inv;
      EntryOfSession(state, session);
      StepKeepsInv(state, UdpProtocol.LeaveTable(session));
      state := Step(state, UdpProtocol.LeaveTable(session));
      if key in sessions && sessions[key] == Ready(session) {
        sessions := sessions - {key};
      }
    }

    /** The lock-free store that opens `shutdown`. */
    method Close()
      requires Valid()
      modifies this`closed, this`state
      ensures Valid() && closed && state == Step(old(state), UdpProtocol.Close)
    {
      hide Inv;
      StepKeepsInv(state, UdpProtocol.Close);
      state := Step(state, UdpProtocol.Close);
      closed := true;
    }

    /**
     The critical section of `shutdown`: the sessions to cancel and the notices to fire; only
     creators still hold usable sessions.
     */
    method Clear() returns (ready: set<SessionId>, notified: set<CallId>)
      requires Valid() && closed
      modifies this`sessions, this`state
      ensures Valid() && state == Step(old(state), UdpProtocol.Clear)
      ensures sessions == map[]
      ensures ready == ReadySessions(old(sessions)) && notified == Notices(old(sessions))
      ensures forall x | x in state.live && !state.live[x].cancelled ::
                exists t | t in state.calls :: state.calls[t] == Holding(state.live[x].key, x)
    {
      hide Inv;
      ready, notified := {}, {};
      var keys := sessions.Keys;
      while keys != {}
        invariant keys <= sessions.Keys
        invariant ready == set k | k in sessions && k !in keys && sessions[k].Ready? :: sessions[k].session
        invariant notified == set k | k in sessions && k !in keys && sessions[k].Creating? :: sessions[k].notice
        decreases keys
      {
        var k :| k in keys;
        match sessions[k] {
          case Ready(session) => ready := ready + {session};
          case Creating(notice) => notified := notified + {notice};
        }
        keys := keys - {k};
      }
      StepKeepsInv(state, UdpProtocol.Clear);
      state := Step(state, UdpProtocol.Clear);
      sessions := map[];
      OnlyCreatorsHold(state);
    }
  }

  /** The session belongs to the key and its receive task has not finished. */
  predicate Serves(s: State, x: SessionId, key: Key) {
    x in s.live && s.live[x].key == key && !s.live[x].phase.Finished?
  }

  /** The call is creating a session for the key. */
  predicate CreatorOf(s: State, t: CallId, key: Key) {
    t in s.calls && IsCreator(s.calls[t]) && s.calls[t].key == key
  }

  lemma LookMeans(s: State, t: CallId)
    requires Inv(s) && Enabled(s, LookUp(t))
    ensures var key := s.calls[t].key; var s' := Step(s, LookUp(t));
            && (key !in s.sessions && !s.closed ==>
                  forall u | CreatorOf(s', u, key) :: u == t)
            && (key in s.sessions && s.sessions[key].Ready? ==> Serves(s', s.sessions[key].session, key))
            && (key in s.sessions && s.sessions[key].Creating? ==>
                  CreatorOf(s', s.sessions[key].notice, key))
  {
    hide SessionSound;
    var key := s.calls[t].key;
    if key in s.sessions {
      assert EntrySound(s, key);
    }
    forall u | u in s.calls
      ensures CallSound(s, u)
    {
    }
  }

  lemma NothingSwept(table: Table, lastSeen: map<SessionId, nat>, now: nat, timeout: nat)
    ensures Sweep(table, [], lastSeen, now, timeout) == (table, {})
  {
    assert forall k | k in table :: !Doomed(table, k, [], lastSeen, now, timeout);
    assert Sweep(table, [], lastSeen, now, timeout).0 == table;
    assert Sweep(table, [], lastSeen, now, timeout).1 == {};
  }

  lemma DoomedOneMore(
    table: Table, expired: seq<(Key, SessionId)>, key: Key, session: SessionId,
    lastSeen: map<SessionId, nat>, now: nat, timeout: nat)
    ensures forall k | k in table ::
              Doomed(table, k, expired + [(key, session)], lastSeen, now, timeout) <==>
              || Doomed(table, k, expired, lastSeen, now, timeout)
              || (k == key && table[k] == Ready(session) && Idle(lastSeen, session, now, timeout))
  {
    hide Idle;
  }

  lemma SweepOneMore(
    table: Table, expired: seq<(Key, SessionId)>, key: Key, session: SessionId,
    lastSeen: map<SessionId, nat>, now: nat, timeout: nat)
    ensures var (before, removed) := Sweep(table, expired, lastSeen, now, timeout);
            Sweep(table, expired + [(key, session)], lastSeen, now, timeout) ==
            if key in before && before[key] == Ready(session) && Idle(lastSeen, session, now, timeout)
            then (before - {key}, removed + {session}) else (before, removed)
  {
    hide Doomed, Idle;
    DoomedOneMore(table, expired, key, session, lastSeen, now, timeout);
    var (before, removed) := Sweep(table, expired, lastSeen, now, timeout);
    var (after, removed') := Sweep(table, expired + [(key, session)], lastSeen, now, timeout);
    if key in before && before[key] == Ready(session) && Idle(lastSeen, session, now, timeout) {
      assert after == before - {key};
      assert removed' == removed + {session};
    } else {
      assert after == before;
      assert removed' == removed;
    }
  }

  /** Exactly the doomed entries go, and their sessions are reported. */
  lemma SweepMeans(table: Table, expired: seq<(Key, SessionId)>, lastSeen: map<SessionId, nat>, now: nat, timeout: nat)
    ensures var (after, removed) := Sweep(table, expired, lastSeen, now, timeout);
            && (forall k | k in table :: k in after <==> !Doomed(table, k, expired, lastSeen, now, timeout))
            && (forall k | k in after :: k in table && after[k] == table[k])
            && (forall x: SessionId :: x in removed <==> exists k | k in table :: k !in after && table[k] == Ready(x))
  {
    hide Idle;
    var (after, removed) := Sweep(table, expired, lastSeen, now, timeout);
    forall x: SessionId
      ensures x in removed <==> exists k | k in table :: k !in after && table[k] == Ready(x)
    {
      if x in removed {
        var k :| k in table && Doomed(table, k, expired, lastSeen, now, timeout) && table[k].session == x;
        assert k !in after && table[k] == Ready(x);
      }
    }
  }

  lemma OwnEntry(s: State, t: CallId)
    requires Inv(s) && t in s.calls && IsCreator(s.calls[t])
    ensures s.calls[t].Holding? ==> s.calls[t].session in s.live && s.live[s.calls[t].session].key == s.calls[t].key
    ensures s.calls[t].key in s.sessions ==> s.sessions[s.calls[t].key] == Creating(t)
  {
    assert CallSound(s, t);
  }

  lemma OnlyUsable(s: State, key: Key, x: SessionId)
    requires Inv(s) && x in s.live && s.live[x].key == key && !s.live[x].cancelled
    ensures forall y | y in s.live && s.live[y].key == key && !s.live[y].cancelled :: y == x
  {
    forall y | y in s.live && s.live[y].key == key && !s.live[y].cancelled
      ensures y == x
    {
      OneUsable(s, x, y);
    }
  }

  lemma EntryOfSession(s: State, x: SessionId)
    requires Inv(s) && x in s.live
    ensures forall k | k in s.sessions && s.sessions[k] == Ready(x) :: k == s.live[x].key
  {
    assert forall k | k in s.sessions :: EntrySound(s, k);
  }

  lemma OnlyCreatorsHold(s: State)
    requires Inv(s) && s.sessions == map[]
    ensures forall x | x in s.live && !s.live[x].cancelled ::
              exists t | t in s.calls :: s.calls[t] == Holding(s.live[x].key, x)
  {
    forall x | x in s.live && !s.live[x].cancelled
      ensures exists t | t in s.calls :: s.calls[t] == Holding(s.live[x].key, x)
    {
      assert SessionSound(s, x);
      var t := s.live[x].creator;
      assert t in s.calls && s.calls[t] == Holding(s.live[x].key, x);
    }
  }
}
