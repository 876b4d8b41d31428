/**
 What holds in every reachable state of the UDP session protocol (src/udp/mod.rs), whatever
 the calls, the receive tasks, the collector and shutdown do, in any order.
 */
module UdpSafety {
  import opened Common
  import opened UdpTable
  import opened UdpProtocol

  ghost predicate Reachable(s: State) {
    exists run: seq<Action>, timeout: nat :: Run(Init(timeout), run) == Some(s)
  }

  lemma ReachableInv(s: State)
    requires Reachable(s)
    ensures Inv(s)
  {
    var run: seq<Action>, timeout: nat :| Run(Init(timeout), run) == Some(s);
    RunKeepsInv(Init(timeout), run);
  }

  lemma OneUsable(s: State, x: SessionId, y: SessionId)
    requires Inv(s)
    requires x in s.live && !s.live[x].cancelled
    requires y in s.live && !s.live[y].cancelled
    requires s.live[x].key == s.live[y].key
    ensures x == y
  {
    assert SessionSound(s, x) && SessionSound(s, y);
    assert s.live[x].creator in s.calls ==> CallSound(s, s.live[x].creator);
    assert s.live[y].creator in s.calls ==> CallSound(s, s.live[y].creator);
  }

  /** A key never has two sessions that are both still usable. */
  lemma OneUsableSessionPerKey(s: State, x: SessionId, y: SessionId)
    requires Reachable(s)
    requires x in s.live && !s.live[x].cancelled
    requires y in s.live && !s.live[y].cancelled
    requires s.live[x].key == s.live[y].key
    ensures x == y
  {
    ReachableInv(s);
    OneUsable(s, x, y);
  }

  /** No session is lost: it is in the table, or in the hands of the one creator of its key, or cancelled. */
  lemma EverySessionAccountedFor(s: State, x: SessionId)
    requires Reachable(s) && x in s.live
    ensures s.live[x].cancelled
         || InTable(s, s.live[x].key, Ready(x))
         || exists t :: && t in s.calls && s.calls[t] == Holding(s.live[x].key, x)
                        && forall u | u in s.calls && IsCreator(s.calls[u]) && s.calls[u].key == s.live[x].key :: u == t
  {
    ReachableInv(s);
    assert SessionSound(s, x);
  }

  /**
   A Ready entry is a session of that key whose receive task has not finished; a session handed
   to a caller is one of its key.
   */
  lemma ReadyEntriesAreServed(s: State)
    requires Reachable(s)
    ensures forall k | k in s.sessions && s.sessions[k].Ready? ::
              && s.sessions[k].session in s.live
              && s.live[s.sessions[k].session].key == k
              && !s.live[s.sessions[k].session].phase.Finished?
    ensures forall t | t in s.calls && s.calls[t].Served? ::
              s.calls[t].session in s.live && s.live[s.calls[t].session].key == s.calls[t].key
  {
    ReachableInv(s);
    forall k | k in s.sessions && s.sessions[k].Ready?
      ensures && s.sessions[k].session in s.live
              && s.live[s.sessions[k].session].key == k
              && !s.live[s.sessions[k].session].phase.Finished?
    {
      assert EntrySound(s, k);
    }
    assert forall t | t in s.calls :: CallSound(s, t);
  }

  lemma {:induction false} ClearedStays(s: State, run: seq<Action>)
    requires s.cleared && Run(s, run).Some?
    ensures Run(s, run).value.cleared
    decreases |run|
  {
    if run == [] {
    } else {
      ClearedStays(Step(s, run[0]), run[1..]);
    }
  }

  /** After shutdown has cleared it, the table stays empty, and once the creators are back nothing is left running. */
  lemma ShutdownIsFinal(s: State, run: seq<Action>)
    requires Reachable(s) && s.cleared && Run(s, run).Some?
    ensures var after := Run(s, run).value;
            && after.sessions == map[]
            && ((forall t | t in after.calls :: !IsCreator(after.calls[t])) ==>
                  forall x | x in after.live :: after.live[x].cancelled)
  {
    ReachableInv(s);
    RunKeepsInv(s, run);
    ClearedStays(s, run);
    var after := Run(s, run).value;
    forall x | x in after.live && (forall t | t in after.calls :: !IsCreator(after.calls[t]))
      ensures after.live[x].cancelled
    {
      assert SessionSound(after, x);
    }
  }

  /** A creator's unconditional `remove` can only hit the entry it made itself. */
  lemma CreatorRemovesOnlyItsOwnEntry(s: State, t: CallId)
    requires Reachable(s) && t in s.calls && IsCreator(s.calls[t])
    ensures s.calls[t].key in s.sessions ==> s.sessions[s.calls[t].key] == Creating(t)
  {
    ReachableInv(s);
    assert CallSound(s, t);
  }

  /** A call that still sleeps on a notice has a live call behind that notice. */
  lemma NoLostWakeUp(s: State, t: CallId)
    requires Reachable(s) && t in s.calls && s.calls[t].Waiting? && !s.calls[t].woken
    ensures var n := s.calls[t].notice;
            && n in s.calls
            && (|| (&& InTable(s, s.calls[t].key, Creating(n))
                    && IsCreator(s.calls[n]) && s.calls[n].key == s.calls[t].key)
                || s.calls[n] == Notifying(s.calls[t].key))
  {
    ReachableInv(s);
    assert CallSound(s, t);
    var k := s.calls[t].key;
    if k in s.sessions {
      assert EntrySound(s, k);
    }
  }

  /** The steps the call behind a notice can still take on its own. */
  function RestOfCreation(c: Call, n: CallId): seq<Action> {
    match c
    case Building(_) => [FailBuild(n), Finish(n)]
    case Holding(_, _) => [Finish(n)]
    case BuildFailed(_) => [Finish(n)]
    case Notifying(_) => [FireNotice(n)]
    case _ => []
  }

  /** Whatever happened before, the creator alone can bring every sleeping call back, in at most two steps. */
  lemma CreatorAloneWakes(s: State, t: CallId)
    requires Reachable(s) && t in s.calls && s.calls[t].Waiting? && !s.calls[t].woken
    requires s.calls[t].notice in s.calls
    ensures var rest := RestOfCreation(s.calls[s.calls[t].notice], s.calls[t].notice);
            && Run(s, rest).Some?
            && t in Run(s, rest).value.calls
            && Run(s, rest).value.calls[t] == s.calls[t].(woken := true)
  {
    NoLostWakeUp(s, t);
    ReachableInv(s);
    var n := s.calls[t].notice;
    assert CallSound(s, n);
    var rest := RestOfCreation(s.calls[n], n);
    var s1 := Step(s, rest[0]);
    assert Run(s1, rest[1..]) == if |rest| == 1 then Some(s1) else Some(Step(s1, rest[1])) by {
      if |rest| == 2 {
        assert rest[1..][1..] == [];
      }
    }
  }

  /** The creator of the key comes back with a usable session: then every sleeping call gets that session. */
  lemma SleeperIsServed(s: State, t: CallId, x: SessionId)
    requires Reachable(s) && !s.closed && t in s.calls && s.calls[t].Waiting? && !s.calls[t].woken
    requires s.calls[t].notice in s.calls && s.calls[s.calls[t].notice] == Holding(s.calls[t].key, x)
    requires x in s.live && !s.live[x].cancelled
    ensures var run := [Finish(s.calls[t].notice), Resume(t), LookUp(t)];
            && Run(s, run).Some? && t in Run(s, run).value.calls
            && Run(s, run).value.calls[t] == Served(s.calls[t].key, x)
  {
    var n := s.calls[t].notice;
    var s1 := Step(s, Finish(n));
    assert s1.calls[t] == s.calls[t].(woken := true) && InTable(s1, s.calls[t].key, Ready(x)) && !s1.closed;
    var s2 := Step(s1, Resume(t));
    var s3 := Step(s2, LookUp(t));
    RunThree(s, Finish(n), Resume(t), LookUp(t));
  }

  lemma RunThree(s: State, a: Action, b: Action, c: Action)
    requires Enabled(s, a) && Enabled(Step(s, a), b) && Enabled(Step(Step(s, a), b), c)
    ensures Run(s, [a, b, c]) == Some(Step(Step(Step(s, a), b), c))
  {
    hide Step, Enabled;
    var s2 := Step(Step(s, a), b);
    assert [a, b, c][1..] == [b, c] && [b, c][1..] == [c] && [c][1..] == [];
    assert Run(s2, [c]) == Some(Step(s2, c)) by {
      assert Run(Step(s2, c), []) == Some(Step(s2, c));
    }
  }

  /** The collector cancels only table sessions that were silent for the whole timeout. */
  lemma SweepCancelsOnlyIdle(s: State, t: CallId, x: SessionId)
    requires Reachable(s) && Enabled(s, SweepTable(t))
    requires x in s.live && !s.live[x].cancelled
    ensures Step(s, SweepTable(t)).live[x].cancelled <==>
            && InTable(s, s.live[x].key, Ready(x))
            && (s.live[x].key, x) in s.calls[t].expired
            && SaturatingSub(s.calls[t].now, s.live[x].lastSeen) >= s.timeout
    ensures Step(s, SweepTable(t)).live[x].cancelled <==>
              !InTable(Step(s, SweepTable(t)), s.live[x].key, Ready(x)) && InTable(s, s.live[x].key, Ready(x))
  {
    ReachableInv(s);
    assert forall k | k in s.sessions :: EntrySound(s, k);
    var c := s.calls[t];
    assert InTable(s, s.live[x].key, Ready(x)) && (s.live[x].key, x) in c.expired
              && Idle(LastSeen(s.live), x, c.now, s.timeout)
      ==> Doomed(s.sessions, s.live[x].key, c.expired, LastSeen(s.live), c.now, s.timeout);
  }
}
