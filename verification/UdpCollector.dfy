/**
 What a pass of the garbage collector over the UDP sessions does (src/udp/mod.rs): snapshot,
 one look at each session, and the sweep under the lock.
 */
module UdpCollector {
  import opened Common
  import opened UdpTable
  import opened UdpProtocol
  import opened UdpSafety

  // ----- runs

  lemma {:induction false} RunLast(s: State, run: seq<Action>)
    requires run != [] && Run(s, run).Some?
    ensures var n := |run| - 1;
            && Run(s, run[..n]).Some? && Enabled(Run(s, run[..n]).value, run[n])
            && Run(s, run) == Some(Step(Run(s, run[..n]).value, run[n]))
    decreases |run|
  {
    hide Step, Enabled;
    var n := |run| - 1;
    if n == 0 {
      assert run[..0] == [] && run[1..] == [];
      assert Run(Step(s, run[0]), []) == Some(Step(s, run[0]));
    } else {
      RunLast(Step(s, run[0]), run[1..]);
      assert run[..n][1..] == run[1..][..n - 1] && run[..n][0] == run[0];
    }
  }

  lemma {:induction false} RunKeepsTimeout(s: State, run: seq<Action>)
    requires Run(s, run).Some?
    ensures Run(s, run).value.timeout == s.timeout
    decreases |run|
  {
    if run == [] {
    } else {
      RunKeepsTimeout(Step(s, run[0]), run[1..]);
    }
  }

  // ----- what the collector has found, under any interleaving

  /** The call is looking at the session `x` of `key`, which has been silent for the whole timeout. */
  predicate FindsIdle(s: State, t: CallId, key: Key, x: SessionId) {
    && t in s.calls && s.calls[t].Collecting? && s.calls[t].pending != [] && s.calls[t].pending[0] == (key, x)
    && x in s.live && SaturatingSub(s.calls[t].now, s.live[x].lastSeen) >= s.timeout
  }

  /** Only its own looks change what a collector has found. */
  lemma StepOfCollector(s: State, a: Action, t: CallId)
    requires Inv(s) && Enabled(s, a) && t in s.calls && s.calls[t].Collecting?
    requires t in Step(s, a).calls && Step(s, a).calls[t].Collecting?
    ensures a != Examine(t) ==> Step(s, a).calls[t] == s.calls[t]
    ensures a == Examine(t) ==>
              && Step(s, a).calls[t].now == s.calls[t].now && Step(s, a).calls[t].pending == s.calls[t].pending[1..]
              && forall k: Key, x: SessionId :: (k, x) in Step(s, a).calls[t].expired <==>
                   (k, x) in s.calls[t].expired || FindsIdle(s, t, k, x)
  {
    hide Sweep, Look, Register, CancelAll, EntrySound, SessionSound;
    if a == Examine(t) {
      assert CallSound(s, t);
      var p := s.calls[t].pending[0];
      assert p in s.calls[t].pending && p.1 in s.live;
    }
  }

  lemma CallsStay(s: State, a: Action, t: CallId)
    requires Enabled(s, a) && t in s.calls
    ensures t in Step(s, a).calls
    ensures Step(s, a).calls[t].Collecting? ==> s.calls[t].Collecting?
  {
    hide Sweep, Look, Register, CancelAll;
  }

  lemma {:induction false} CallsRemain(s: State, run: seq<Action>, t: CallId)
    requires Run(s, run).Some? && t in s.calls
    ensures t in Run(s, run).value.calls
    decreases |run|
  {
    hide Step, Enabled;
    if run == [] {
    } else {
      CallsStay(s, run[0], t);
      CallsRemain(Step(s, run[0]), run[1..], t);
    }
  }

  /**
   Whatever happens in between, the sessions a collector holds for expired are exactly those
   that had been silent for the whole timeout when it looked at them.
   */
  lemma {:induction false} FoundWereIdle(s: State, run: seq<Action>, t: CallId, key: Key, x: SessionId)
    requires Inv(s) && Run(s, run).Some? && t in s.calls && s.calls[t].Collecting?
    requires t in Run(s, run).value.calls && Run(s, run).value.calls[t].Collecting?
    ensures (key, x) in Run(s, run).value.calls[t].expired <==>
            || (key, x) in s.calls[t].expired
            || exists i | 0 <= i < |run| ::
                 run[i] == Examine(t) && Run(s, run[..i]).Some? && FindsIdle(Run(s, run[..i]).value, t, key, x)
    decreases |run|
  {
    hide Inv, FindsIdle;
    if run == [] {
    } else {
      var n := |run| - 1;
      RunLast(s, run);
      var m := Run(s, run[..n]).value;
      RunKeepsInv(s, run[..n]);
      CallsRemain(s, run[..n], t);
      CallsStay(m, run[n], t);
      StepOfCollector(m, run[n], t);
      FoundWereIdle(s, run[..n], t, key, x);
      assert forall i | 0 <= i < n :: run[..n][i] == run[i] && run[..n][..i] == run[..i];
    }
  }

  // ----- an undisturbed pass

  function Looks(t: CallId, n: nat): (run: seq<Action>)
    ensures |run| == n
  {
    seq(n, _ => Examine(t))
  }

  /** A whole pass: the snapshot, one look at each of its sessions, and the sweep. */
  function Pass(t: CallId, now: nat, snapshot: seq<(Key, SessionId)>): seq<Action> {
    [Collect(t, now, snapshot)] + (Looks(t, |snapshot|) + [SweepTable(t)])
  }

  /** What is left after looking at the first sessions: nothing but the collector's own notes has changed. */
  ghost predicate Looked(s: State, t: CallId, n: nat, r: State)
    requires t in s.calls && s.calls[t].Collecting? && n <= |s.calls[t].pending|
  {
    && r.live == s.live && r.sessions == s.sessions && r.timeout == s.timeout && t in r.calls
    && r.calls[t].Collecting? && r.calls[t].now == s.calls[t].now && r.calls[t].pending == s.calls[t].pending[n..]
    && forall k: Key, x: SessionId :: (k, x) in r.calls[t].expired <==>
         || (k, x) in s.calls[t].expired
         || (&& (k, x) in s.calls[t].pending[..n] && x in s.live
             && SaturatingSub(s.calls[t].now, s.live[x].lastSeen) >= s.timeout)
  }

  lemma LookedOneMore(s: State, t: CallId, n: nat, r: State)
    requires t in s.calls && s.calls[t].Collecting? && 0 < n <= |s.calls[t].pending|
    requires Looked(ExamineStep(s, t), t, n - 1, r)
    ensures Looked(s, t, n, r)
  {
    var c := s.calls[t];
    assert c.pending[..n] == [c.pending[0]] + c.pending[1..][..n - 1];
    assert c.pending[n..] == c.pending[1..][n - 1..];
  }

  lemma {:induction false} LooksAtAll(s: State, t: CallId, n: nat, rest: seq<Action>)
    requires Inv(s) && t in s.calls && s.calls[t].Collecting? && n <= |s.calls[t].pending|
    ensures exists r :: Looked(s, t, n, r) && Inv(r) && Run(s, Looks(t, n) + rest) == Run(r, rest)
    decreases n
  {
    hide Looked, Inv;
    if n == 0 {
      assert Looks(t, 0) + rest == rest;
      NothingLooked(s, t);
    } else {
      var next := ExamineStep(s, t);
      ExamineKeepsInv(s, t);
      LooksAtAll(next, t, n - 1, rest);
      var r :| Looked(next, t, n - 1, r) && Inv(r) && Run(next, Looks(t, n - 1) + rest) == Run(r, rest);
      LookedOneMore(s, t, n, r);
      var run := Looks(t, n) + rest;
      assert run[0] == Examine(t) && run[1..] == Looks(t, n - 1) + rest;
    }
  }

  lemma NothingLooked(s: State, t: CallId)
    requires t in s.calls && s.calls[t].Collecting?
    ensures Looked(s, t, 0, s)
  {
  }

  lemma RunOne(s: State, a: Action)
    requires Enabled(s, a)
    ensures Run(s, [a]) == Some(Step(s, a))
  {
    hide Step, Enabled;
    assert Run(Step(s, a), []) == Some(Step(s, a));
  }

  /** Who the sweep of `expired` cancels. */
  lemma SweepCancels(r: State, t: CallId, x: SessionId)
    requires Inv(r) && Enabled(r, SweepTable(t)) && x in r.live && !r.live[x].cancelled
    ensures x in SweepStep(r, t).live
    ensures SweepStep(r, t).live[x].cancelled <==>
            && InTable(r, r.live[x].key, Ready(x)) && (r.live[x].key, x) in r.calls[t].expired
            && SaturatingSub(r.calls[t].now, r.live[x].lastSeen) >= r.timeout
  {
    assert forall k | k in r.sessions :: EntrySound(r, k);
    var c := r.calls[t];
    var key := r.live[x].key;
    assert InTable(r, key, Ready(x)) && (key, x) in c.expired && Idle(LastSeen(r.live), x, c.now, r.timeout)
      ==> Doomed(r.sessions, key, c.expired, LastSeen(r.live), c.now, r.timeout);
  }

  /** After the looks at a whole snapshot, the sweep cancels exactly the idle sessions of the table. */
  lemma SweepAfterLooks(s: State, t: CallId, r: State, x: SessionId)
    requires Inv(s) && Inv(r) && t in s.calls && s.calls[t].Collecting? && s.calls[t].expired == []
    requires Enumerates(s.calls[t].pending, s.sessions) && Looked(s, t, |s.calls[t].pending|, r)
    requires x in s.live && !s.live[x].cancelled
    ensures Enabled(r, SweepTable(t)) && x in SweepStep(r, t).live
    ensures SweepStep(r, t).live[x].cancelled <==>
            InTable(s, s.live[x].key, Ready(x)) && SaturatingSub(s.calls[t].now, s.live[x].lastSeen) >= s.timeout
  {
    hide Inv, SweepStep;
    SweepCancels(r, t, x);
    var c := s.calls[t];
    assert c.pending[..|c.pending|] == c.pending;
  }

  lemma RunFirst(s: State, a: Action, rest: seq<Action>)
    requires Enabled(s, a)
    ensures Run(s, [a] + rest) == Run(Step(s, a), rest)
  {
    hide Step, Enabled;
    assert ([a] + rest)[1..] == rest;
  }

  lemma CollectBegins(s: State, t: CallId, now: nat, snapshot: seq<(Key, SessionId)>)
    requires t !in s.calls && Enumerates(snapshot, s.sessions)
    ensures Enabled(s, Collect(t, now, snapshot))
    ensures var r := Step(s, Collect(t, now, snapshot));
            && r.live == s.live && r.sessions == s.sessions && r.timeout == s.timeout
            && t in r.calls && r.calls[t] == Collecting(now, snapshot, [])
  {
  }

  lemma PassFromInv(s: State, t: CallId, now: nat, snapshot: seq<(Key, SessionId)>, x: SessionId)
    requires Inv(s) && t !in s.calls && Enumerates(snapshot, s.sessions)
    requires x in s.live && !s.live[x].cancelled
    ensures Run(s, Pass(t, now, snapshot)).Some? && x in Run(s, Pass(t, now, snapshot)).value.live
    ensures Run(s, Pass(t, now, snapshot)).value.live[x].cancelled <==>
            InTable(s, s.live[x].key, Ready(x)) && SaturatingSub(now, s.live[x].lastSeen) >= s.timeout
  {
    hide Looked, SweepStep, Inv, Enabled, Run, Enumerates, Looks;
    CollectBegins(s, t, now, snapshot);
    var begun := Step(s, Collect(t, now, snapshot));
    StepKeepsInv(s, Collect(t, now, snapshot));
    RunFirst(s, Collect(t, now, snapshot), Looks(t, |snapshot|) + [SweepTable(t)]);
    LooksAtAll(begun, t, |snapshot|, [SweepTable(t)]);
    var r :| Looked(begun, t, |snapshot|, r) && Inv(r)
             && Run(begun, Looks(t, |snapshot|) + [SweepTable(t)]) == Run(r, [SweepTable(t)]);
    SweepAfterLooks(begun, t, r, x);
    RunOne(r, SweepTable(t));
  }

  /**
   In every reachable state a pass cancels, of the sessions still usable, exactly those that are
   Ready in the table and have been silent for the whole timeout.
   */
  lemma PassCancelsExactlyIdle(s: State, t: CallId, now: nat, snapshot: seq<(Key, SessionId)>, x: SessionId)
    requires Reachable(s) && t !in s.calls && Enumerates(snapshot, s.sessions)
    requires x in s.live && !s.live[x].cancelled
    ensures Run(s, Pass(t, now, snapshot)).Some? && x in Run(s, Pass(t, now, snapshot)).value.live
    ensures Run(s, Pass(t, now, snapshot)).value.live[x].cancelled <==>
            InTable(s, s.live[x].key, Ready(x)) && SaturatingSub(now, s.live[x].lastSeen) >= s.timeout
  {
    hide Inv, Run, Pass, Enumerates;
    ReachableInv(s);
    PassFromInv(s, t, now, snapshot, x);
  }

  /** A session that was just used is spared by every pass that comes before its timeout. */
  lemma TouchedIsSpared(s: State, x: SessionId, seen: nat, t: CallId, now: nat, snapshot: seq<(Key, SessionId)>)
    requires Reachable(s) && x in s.live && !s.live[x].cancelled && t !in s.calls && Enumerates(snapshot, s.sessions)
    requires SaturatingSub(now, seen) < s.timeout
    ensures var run := [Touch(x, seen)] + Pass(t, now, snapshot);
            Run(s, run).Some? && x in Run(s, run).value.live && !Run(s, run).value.live[x].cancelled
  {
    hide Inv, Run, Pass, Enumerates;
    ReachableInv(s);
    StepKeepsInv(s, Touch(x, seen));
    RunFirst(s, Touch(x, seen), Pass(t, now, snapshot));
    PassFromInv(Step(s, Touch(x, seen)), t, now, snapshot, x);
  }

  lemma MadeAndRegistered(s: State, c: CallId, x: SessionId, made: nat)
    requires Inv(s) && !s.closed && Enabled(s, Build(c, x, made))
    ensures var built := Step(s, Build(c, x, made));
            && Inv(built) && Enabled(built, Finish(c)) && Inv(Step(built, Finish(c)))
    ensures var ready := Step(Step(s, Build(c, x, made)), Finish(c));
            && x in ready.live && !ready.live[x].cancelled && ready.live[x].lastSeen == made
            && InTable(ready, ready.live[x].key, Ready(x)) && ready.timeout == s.timeout
            && forall t | t !in s.calls :: t !in ready.calls
  {
    hide Inv;
    StepKeepsInv(s, Build(c, x, made));
    var built := Step(s, Build(c, x, made));
    StepKeepsInv(built, Finish(c));
  }

  /** The clock of a new session starts when it is made: a pass cancels it exactly from its timeout on. */
  lemma NewSessionLivesItsTimeout(
    s: State, c: CallId, x: SessionId, made: nat, t: CallId, now: nat, snapshot: seq<(Key, SessionId)>)
    requires Reachable(s) && !s.closed && Enabled(s, Build(c, x, made)) && t !in s.calls
    requires Enabled(Step(s, Build(c, x, made)), Finish(c)) ==>
               Enumerates(snapshot, Step(Step(s, Build(c, x, made)), Finish(c)).sessions)
    ensures var run := [Build(c, x, made)] + ([Finish(c)] + Pass(t, now, snapshot));
            && Run(s, run).Some? && x in Run(s, run).value.live
            && (Run(s, run).value.live[x].cancelled <==> SaturatingSub(now, made) >= s.timeout)
  {
    hide Inv, Run, Pass, Enumerates, Step, Enabled;
    ReachableInv(s);
    MadeAndRegistered(s, c, x, made);
    var built := Step(s, Build(c, x, made));
    RunFirst(s, Build(c, x, made), [Finish(c)] + Pass(t, now, snapshot));
    RunFirst(built, Finish(c), Pass(t, now, snapshot));
    PassFromInv(Step(built, Finish(c)), t, now, snapshot, x);
  }
}
