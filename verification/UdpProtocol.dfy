/**
 The protocol around the session table (src/udp/mod.rs): calls that look up or create a
 session, receive tasks, the garbage collector and shutdown, interleaved in any order.

 A step is one critical section of the `sessions` mutex, or one lock-free action: a load of
 `closed`, the cancellation of a token, a touch of `last_seen_secs`, a wake-up.
 A waiting call holds a `Notified` future from the moment it gave up the lock, so firing its
 notice always reaches it.
 */
module UdpProtocol {
  import opened Common
  import opened UdpTable

  /** Where a receive task stands: in its loop, past it, past its `cancel()`, past its table access. */
  datatype Phase = Running | Exited | Removing | Finished

  /** `abortable`: the collector, shutdown or a refused creator has taken the task handle. */
  datatype Session = Session(
    key: Key, creator: CallId, cancelled: bool, phase: Phase, lastSeen: nat, abortable: bool)

  datatype Call =
    | Looking(key: Key)
    | Waiting(key: Key, notice: CallId, woken: bool)
    | Building(key: Key)
    | Holding(key: Key, session: SessionId)
    | BuildFailed(key: Key)
    | Notifying(key: Key)
    | Served(key: Key, session: SessionId)
    | Errored(key: Key)
    | Collecting(now: nat, pending: seq<(Key, SessionId)>, expired: seq<(Key, SessionId)>)
    | Collected

  type Calls = map<CallId, Call>
  type Live = map<SessionId, Session>

  /**
   `cleared`: the critical section of `shutdown` has run. `live` keeps every session ever made,
   `makers` the call that last reserved each key.
   */
  datatype State = State(
    sessions: Table, closed: bool, cleared: bool, live: Live, calls: Calls,
    makers: map<Key, CallId>, timeout: nat)

  datatype Action =
    | Enter(call: CallId, key: Key)
    | LookUp(call: CallId)
    | Resume(call: CallId)
    | Build(call: CallId, session: SessionId, now: nat)
    | FailBuild(call: CallId)
    | FailJoin(call: CallId)
    | FireNotice(call: CallId)
    | Finish(call: CallId)
    | LoopReturns(session: SessionId)
    | CancelToken(session: SessionId)
    | LeaveTable(session: SessionId)
    | Touch(session: SessionId, now: nat)
    | Abort(session: SessionId)
    | Collect(call: CallId, now: nat, snapshot: seq<(Key, SessionId)>)
    | Examine(call: CallId)
    | SweepTable(call: CallId)
    | Close
    | Clear

  /** The call has put its `Creating` entry in the table and has not yet come back for it. */
  predicate IsCreator(c: Call) {
    c.Building? || c.Holding? || c.BuildFailed?
  }

  function LastSeen(live: Live): map<SessionId, nat> {
    map x | x in live :: live[x].lastSeen
  }

  /** `notify_waiters` on every notice of `notices`. */
  function Fire(calls: Calls, notices: set<CallId>): Calls {
    map t | t in calls ::
      if calls[t].Waiting? && calls[t].notice in notices then calls[t].(woken := true) else calls[t]
  }

  /** Cancel these sessions and take their task handles. */
  function CancelAll(live: Live, xs: set<SessionId>): Live {
    map x | x in live :: if x in xs then live[x].(cancelled := true, abortable := true) else live[x]
  }

  predicate Enumerates(snapshot: seq<(Key, SessionId)>, table: Table) {
    && (forall p | p in snapshot :: p.0 in table && table[p.0] == Ready(p.1))
    && (forall k | k in table && table[k].Ready? :: (k, table[k].session) in snapshot)
  }

  function Init(timeout: nat): State {
    State(map[], false, false, map[], map[], map[], timeout)
  }

  function LookStep(s: State, t: CallId): State
    requires t in s.calls && s.calls[t].Looking?
  {
    var key := s.calls[t].key;
    var (table, found) := Look(s.sessions, s.closed, key, t);
    var next := match found
      case ShuttingDown => Errored(key)
      case Reuse(x) => Served(key, x)
      case Await(n) => Waiting(key, n, false)
      case Reserved => Building(key);
    s.(sessions := table, calls := s.calls[t := next],
       makers := if found.Reserved? then s.makers[key := t] else s.makers)
  }

  function FinishStep(s: State, t: CallId): State
    requires t in s.calls && (s.calls[t].Holding? || s.calls[t].BuildFailed?)
    requires s.calls[t].Holding? ==> s.calls[t].session in s.live
  {
    var c := s.calls[t];
    var created := if c.Holding? then Some(c.session) else None;
    var cancelled := c.Holding? && s.live[c.session].cancelled;
    var (table, outcome) := Register(s.sessions, s.closed, c.key, created, cancelled);
    var next := match outcome
      case Registered(x) => Served(c.key, x)
      case _ => Errored(c.key);
    var live := if outcome.Refused? && c.Holding? then CancelAll(s.live, {c.session}) else s.live;
    s.(sessions := table, live := live, calls := Fire(s.calls[t := next], {t}))
  }

  function SweepStep(s: State, t: CallId): State
    requires t in s.calls && s.calls[t].Collecting?
  {
    var c := s.calls[t];
    var (table, removed) := Sweep(s.sessions, c.expired, LastSeen(s.live), c.now, s.timeout);
    s.(sessions := table, live := CancelAll(s.live, removed), calls := s.calls[t := Collected])
  }

  function ExamineStep(s: State, t: CallId): State
    requires t in s.calls && s.calls[t].Collecting? && s.calls[t].pending != []
  {
    var c := s.calls[t];
    var p := c.pending[0];
    var expired := if Idle(LastSeen(s.live), p.1, c.now, s.timeout) then c.expired + [p] else c.expired;
    s.(calls := s.calls[t := Collecting(c.now, c.pending[1..], expired)])
  }

  function ClearStep(s: State): State {
    s.(sessions := map[], cleared := true,
       live := CancelAll(s.live, ReadySessions(s.sessions)),
       calls := Fire(s.calls, Notices(s.sessions)))
  }

  predicate Enabled(s: State, a: Action) {
    match a
    case Enter(t, _) => t !in s.calls
    case LookUp(t) => t in s.calls && s.calls[t].Looking?
    case Resume(t) => t in s.calls && s.calls[t].Waiting? && s.calls[t].woken
    case Build(t, x, _) => t in s.calls && s.calls[t].Building? && x !in s.live
    case FailBuild(t) => t in s.calls && s.calls[t].Building?
    case FailJoin(t) => t in s.calls && s.calls[t].Building?
    case FireNotice(t) => t in s.calls && s.calls[t].Notifying?
    case Finish(t) => t in s.calls && (s.calls[t].BuildFailed? || (s.calls[t].Holding? && s.calls[t].session in s.live))
    case LoopReturns(x) => x in s.live && s.live[x].phase.Running?
    case CancelToken(x) => x in s.live && s.live[x].phase.Exited?
    case LeaveTable(x) => x in s.live && s.live[x].phase.Removing?
    case Touch(x, _) => x in s.live
    case Abort(x) => x in s.live && s.live[x].abortable
    case Collect(t, _, snapshot) => t !in s.calls && Enumerates(snapshot, s.sessions)
    case Examine(t) => t in s.calls && s.calls[t].Collecting? && s.calls[t].pending != []
    case SweepTable(t) => t in s.calls && s.calls[t].Collecting? && s.calls[t].pending == []
    case Close => true
    case Clear => s.closed
  }

  function Step(s: State, a: Action): State
    requires Enabled(s, a)
  {
    match a
    case Enter(t, key) => s.(calls := s.calls[t := if s.closed then Errored(key) else Looking(key)])
    case LookUp(t) => LookStep(s, t)
    case Resume(t) => s.(calls := s.calls[t := Looking(s.calls[t].key)])
    case Build(t, x, now) =>
      var key := s.calls[t].key;
      s.(live := s.live[x := Session(key, t, false, Running, now, false)], calls := s.calls[t := Holding(key, x)])
    case FailBuild(t) => s.(calls := s.calls[t := BuildFailed(s.calls[t].key)])
    case FailJoin(t) =>
      var key := s.calls[t].key;
      s.(sessions := s.sessions - {key}, calls := s.calls[t := Notifying(key)])
    case FireNotice(t) => s.(calls := Fire(s.calls[t := Errored(s.calls[t].key)], {t}))
    case Finish(t) => FinishStep(s, t)
    case LoopReturns(x) => s.(live := s.live[x := s.live[x].(phase := Exited)])
    case CancelToken(x) => s.(live := s.live[x := s.live[x].(cancelled := true, phase := Removing)])
    case LeaveTable(x) =>
      s.(sessions := Leave(s.sessions, s.live[x].key, x), live := s.live[x := s.live[x].(phase := Finished)])
    case Touch(x, now) => s.(live := s.live[x := s.live[x].(lastSeen := now)])
    case Abort(x) => s.(live := s.live[x := s.live[x].(phase := Finished)])
    case Collect(t, now, snapshot) => s.(calls := s.calls[t := Collecting(now, snapshot, [])])
    case Examine(t) => ExamineStep(s, t)
    case SweepTable(t) => SweepStep(s, t)
    case Close => s.(closed := true)
    case Clear => ClearStep(s)
  }

  /** The state after a run, if every action of the run was possible where it was taken. */
  function Run(s: State, run: seq<Action>): Option<State>
    decreases |run|
  {
    if run == [] then Some(s)
    else if Enabled(s, run[0]) then Run(Step(s, run[0]), run[1..])
    else None
  }

  // ----- the invariant

  predicate EntrySound(s: State, key: Key)
    requires key in s.sessions
  {
    match s.sessions[key]
    case Ready(x) =>
      && x in s.live && s.live[x].key == key
      && !s.live[x].abortable && !s.live[x].phase.Finished?
      && (s.live[x].cancelled ==> s.live[x].phase.Removing?)
    case Creating(n) => n in s.calls && IsCreator(s.calls[n]) && s.calls[n].key == key
  }

  predicate InTable(s: State, key: Key, e: Entry) {
    key in s.sessions && s.sessions[key] == e
  }

  predicate SessionSound(s: State, x: SessionId)
    requires x in s.live
  {
    var session := s.live[x];
    && (session.phase.Removing? || session.phase.Finished? || session.abortable ==> session.cancelled)
    && (session.cancelled
        || InTable(s, session.key, Ready(x))
        || (session.creator in s.calls && s.calls[session.creator] == Holding(session.key, x)))
  }

  predicate PairsSound(live: Live, ps: seq<(Key, SessionId)>) {
    forall p | p in ps :: p.1 in live && live[p.1].key == p.0
  }

  predicate CallSound(s: State, t: CallId)
    requires t in s.calls
  {
    var c := s.calls[t];
    && (IsCreator(c) ==> c.key in s.makers && s.makers[c.key] == t && (s.cleared || InTable(s, c.key, Creating(t))))
    && (c.Holding? ==> c.session in s.live && s.live[c.session].key == c.key && s.live[c.session].creator == t
                       && !s.live[c.session].abortable)
    && (c.Served? ==> c.session in s.live && s.live[c.session].key == c.key)
    && (c.Waiting? && !c.woken ==>
          InTable(s, c.key, Creating(c.notice))
          || (c.notice in s.calls && s.calls[c.notice] == Notifying(c.key)))
    && (c.Collecting? ==> PairsSound(s.live, c.pending) && PairsSound(s.live, c.expired))
  }

  predicate Inv(s: State) {
    && (s.cleared ==> s.closed && s.sessions == map[])
    && (forall k | k in s.sessions :: EntrySound(s, k))
    && (forall x | x in s.live :: SessionSound(s, x))
    && (forall t | t in s.calls :: CallSound(s, t))
  }

  // ----- every step keeps it

  lemma EnterKeepsInv(s: State, a: Action)
    requires Inv(s) && Enabled(s, a) && (a.Enter? || a.Collect? || a.Close?)
    ensures Inv(Step(s, a))
  {
    var s' := Step(s, a);
    forall k | k in s'.sessions ensures EntrySound(s', k) {
      if k in s.sessions { assert EntrySound(s, k); }
    }
    forall x | x in s'.live ensures SessionSound(s', x) {
      assert SessionSound(s, x);
    }
    forall u | u in s'.calls ensures CallSound(s', u) {
      if u in s.calls { assert CallSound(s, u); }
    }
  }

  lemma LookKeepsEntries(s: State, t: CallId)
    requires Inv(s) && Enabled(s, LookUp(t))
    ensures forall k | k in LookStep(s, t).sessions :: EntrySound(LookStep(s, t), k)
  {
    hide SessionSound, PairsSound;
    var s' := LookStep(s, t);
    assert CallSound(s, t);
    forall k | k in s'.sessions ensures EntrySound(s', k) {
      if k in s.sessions { assert EntrySound(s, k); }
    }
  }

  lemma LookKeepsSessions(s: State, t: CallId)
    requires Inv(s) && Enabled(s, LookUp(t))
    ensures forall x | x in LookStep(s, t).live :: SessionSound(LookStep(s, t), x)
  {
    hide PairsSound;
    var s' := LookStep(s, t);
    assert CallSound(s, t);
    forall x | x in s'.live ensures SessionSound(s', x) {
      assert SessionSound(s, x);
    }
  }

  lemma LookKeepsCalls(s: State, t: CallId)
    requires Inv(s) && Enabled(s, LookUp(t))
    ensures forall u | u in LookStep(s, t).calls :: CallSound(LookStep(s, t), u)
  {
    hide SessionSound;
    var s' := LookStep(s, t);
    assert CallSound(s, t);
    forall u | u in s'.calls ensures CallSound(s', u) {
      assert CallSound(s, u);
    }
  }

  lemma LookKeepsInv(s: State, t: CallId)
    requires Inv(s) && Enabled(s, LookUp(t))
    ensures Inv(LookStep(s, t))
  {
    hide EntrySound, SessionSound, CallSound;
    LookKeepsEntries(s, t);
    LookKeepsSessions(s, t);
    LookKeepsCalls(s, t);
  }

  lemma ResumeKeepsInv(s: State, a: Action)
    requires Inv(s) && Enabled(s, a) && (a.Resume? || a.FailBuild?)
    ensures Inv(Step(s, a))
  {
    var s' := Step(s, a);
    forall k | k in s'.sessions ensures EntrySound(s', k) {
      if k in s.sessions { assert EntrySound(s, k); }
    }
    forall x | x in s'.live ensures SessionSound(s', x) {
      assert SessionSound(s, x);
    }
    forall u | u in s'.calls ensures CallSound(s', u) {
      assert CallSound(s, u);
    }
  }

  lemma ExamineKeepsCalls(s: State, t: CallId)
    requires Inv(s) && Enabled(s, Examine(t))
    ensures forall u | u in ExamineStep(s, t).calls :: CallSound(ExamineStep(s, t), u)
  {
    hide SessionSound, EntrySound, Idle;
    var s' := ExamineStep(s, t);
    var c := s.calls[t];
    assert CallSound(s, t);
    assert forall p | p in c.pending[1..] :: p in c.pending;
    assert c.pending[0] in c.pending;
    forall u | u in s'.calls ensures CallSound(s', u) {
      assert CallSound(s, u);
    }
  }

  lemma ExamineKeepsInv(s: State, t: CallId)
    requires Inv(s) && Enabled(s, Examine(t))
    ensures Inv(ExamineStep(s, t))
  {
    hide CallSound, Idle;
    var s' := ExamineStep(s, t);
    ExamineKeepsCalls(s, t);
    forall k | k in s'.sessions ensures EntrySound(s', k) {
      assert EntrySound(s, k);
    }
    forall x | x in s'.live ensures SessionSound(s', x) {
      assert SessionSound(s, x);
    }
  }

  lemma BuildKeepsInv(s: State, t: CallId, x0: SessionId, now: nat)
    requires Inv(s) && Enabled(s, Build(t, x0, now))
    ensures Inv(Step(s, Build(t, x0, now)))
  {
    var s' := Step(s, Build(t, x0, now));
    assert CallSound(s, t);
    forall k | k in s'.sessions ensures EntrySound(s', k) {
      if k in s.sessions { assert EntrySound(s, k); }
    }
    forall x | x in s'.live ensures SessionSound(s', x) {
      if x in s.live { assert SessionSound(s, x); }
    }
    forall u | u in s'.calls ensures CallSound(s', u) {
      assert CallSound(s, u);
    }
  }

  lemma JoinKeepsEntries(s: State, a: Action)
    requires Inv(s) && Enabled(s, a) && (a.FailJoin? || a.FireNotice?)
    ensures forall k | k in Step(s, a).sessions :: EntrySound(Step(s, a), k)
  {
    hide SessionSound, PairsSound;
    var s' := Step(s, a);
    assert CallSound(s, a.call);
    forall k | k in s'.sessions ensures EntrySound(s', k) {
      if k in s.sessions { assert EntrySound(s, k); }
    }
  }

  lemma JoinKeepsSessions(s: State, a: Action)
    requires Inv(s) && Enabled(s, a) && (a.FailJoin? || a.FireNotice?)
    ensures forall x | x in Step(s, a).live :: SessionSound(Step(s, a), x)
  {
    hide PairsSound;
    var s' := Step(s, a);
    assert CallSound(s, a.call);
    forall x | x in s'.live ensures SessionSound(s', x) {
      assert SessionSound(s, x);
    }
  }

  lemma JoinKeepsCalls(s: State, a: Action)
    requires Inv(s) && Enabled(s, a) && (a.FailJoin? || a.FireNotice?)
    ensures forall u | u in Step(s, a).calls :: CallSound(Step(s, a), u)
  {
    hide SessionSound;
    var s' := Step(s, a);
    assert CallSound(s, a.call);
    forall u | u in s'.calls ensures CallSound(s', u) {
      assert CallSound(s, u);
    }
  }

  lemma JoinKeepsInv(s: State, a: Action)
    requires Inv(s) && Enabled(s, a) && (a.FailJoin? || a.FireNotice?)
    ensures Inv(Step(s, a))
  {
    hide EntrySound, SessionSound, CallSound;
    JoinKeepsEntries(s, a);
    JoinKeepsSessions(s, a);
    JoinKeepsCalls(s, a);
  }

  lemma FinishCancels(s: State, t: CallId)
    requires Inv(s) && Enabled(s, Finish(t))
    ensures forall x | x in FinishStep(s, t).live :: SessionSound(FinishStep(s, t), x)
  {
    var s' := FinishStep(s, t);
    assert CallSound(s, t);
    forall x | x in s'.live ensures SessionSound(s', x) {
      assert SessionSound(s, x);
    }
  }

  lemma FinishWakes(s: State, t: CallId)
    requires Inv(s) && Enabled(s, Finish(t))
    ensures forall u | u in FinishStep(s, t).calls :: CallSound(FinishStep(s, t), u)
  {
    var s' := FinishStep(s, t);
    assert CallSound(s, t);
    forall u | u in s'.calls ensures CallSound(s', u) {
      assert CallSound(s, u);
    }
  }

  lemma FinishKeepsInv(s: State, t: CallId)
    requires Inv(s) && Enabled(s, Finish(t))
    ensures Inv(FinishStep(s, t))
  {
    var s' := FinishStep(s, t);
    assert CallSound(s, t);
    forall k | k in s'.sessions ensures EntrySound(s', k) {
      if k in s.sessions { assert EntrySound(s, k); }
    }
    FinishCancels(s, t);
    FinishWakes(s, t);
  }

  lemma ReceiveKeepsEntries(s: State, a: Action)
    requires Inv(s) && Enabled(s, a) && (a.LoopReturns? || a.Touch?)
    ensures forall k | k in Step(s, a).sessions :: EntrySound(Step(s, a), k)
  {
    hide SessionSound, PairsSound;
    var s' := Step(s, a);
    assert SessionSound(s, a.session);
    forall k | k in s'.sessions ensures EntrySound(s', k) {
      if k in s.sessions { assert EntrySound(s, k); }
    }
  }

  lemma ReceiveKeepsSessions(s: State, a: Action)
    requires Inv(s) && Enabled(s, a) && (a.LoopReturns? || a.Touch?)
    ensures forall x | x in Step(s, a).live :: SessionSound(Step(s, a), x)
  {
    hide PairsSound;
    var s' := Step(s, a);
    assert SessionSound(s, a.session);
    forall x | x in s'.live ensures SessionSound(s', x) {
      assert SessionSound(s, x);
    }
  }

  lemma ReceiveKeepsCalls(s: State, a: Action)
    requires Inv(s) && Enabled(s, a) && (a.LoopReturns? || a.Touch?)
    ensures forall u | u in Step(s, a).calls :: CallSound(Step(s, a), u)
  {
    hide SessionSound;
    var s' := Step(s, a);
    assert SessionSound(s, a.session);
    forall u | u in s'.calls ensures CallSound(s', u) {
      assert CallSound(s, u);
    }
  }

  lemma ReceiveKeepsInv(s: State, a: Action)
    requires Inv(s) && Enabled(s, a) && (a.LoopReturns? || a.Touch?)
    ensures Inv(Step(s, a))
  {
    hide EntrySound, SessionSound, CallSound;
    ReceiveKeepsEntries(s, a);
    ReceiveKeepsSessions(s, a);
    ReceiveKeepsCalls(s, a);
  }

  lemma CancelKeepsInv(s: State, a: Action)
    requires Inv(s) && Enabled(s, a) && (a.CancelToken? || a.Abort?)
    ensures Inv(Step(s, a))
  {
    var s' := Step(s, a);
    assert SessionSound(s, a.session);
    forall k | k in s'.sessions ensures EntrySound(s', k) {
      if k in s.sessions { assert EntrySound(s, k); }
    }
    forall x | x in s'.live ensures SessionSound(s', x) {
      assert SessionSound(s, x);
    }
    forall u | u in s'.calls ensures CallSound(s', u) {
      assert CallSound(s, u);
    }
  }

  lemma LeaveKeepsInv(s: State, y: SessionId)
    requires Inv(s) && Enabled(s, LeaveTable(y))
    ensures Inv(Step(s, LeaveTable(y)))
  {
    var s' := Step(s, LeaveTable(y));
    assert SessionSound(s, y);
    forall k | k in s'.sessions ensures EntrySound(s', k) {
      if k in s.sessions { assert EntrySound(s, k); }
    }
    forall x | x in s'.live ensures SessionSound(s', x) {
      assert SessionSound(s, x);
    }
    forall u | u in s'.calls ensures CallSound(s', u) {
      assert CallSound(s, u);
    }
  }

  lemma SweepKeepsEntries(s: State, t: CallId)
    requires Inv(s) && Enabled(s, SweepTable(t))
    ensures forall k | k in SweepStep(s, t).sessions :: EntrySound(SweepStep(s, t), k)
  {
    hide SessionSound, PairsSound;
    var s' := SweepStep(s, t);
    assert CallSound(s, t);
    forall k | k in s'.sessions ensures EntrySound(s', k) {
      if k in s.sessions { assert EntrySound(s, k); }
    }
  }

  lemma SweepKeepsSessions(s: State, t: CallId)
    requires Inv(s) && Enabled(s, SweepTable(t))
    ensures forall x | x in SweepStep(s, t).live :: SessionSound(SweepStep(s, t), x)
  {
    hide PairsSound;
    var s' := SweepStep(s, t);
    assert CallSound(s, t);
    forall x | x in s'.live ensures SessionSound(s', x) {
      assert SessionSound(s, x);
    }
  }

  lemma SweepKeepsCalls(s: State, t: CallId)
    requires Inv(s) && Enabled(s, SweepTable(t))
    ensures forall u | u in SweepStep(s, t).calls :: CallSound(SweepStep(s, t), u)
  {
    hide SessionSound;
    var s' := SweepStep(s, t);
    assert CallSound(s, t);
    forall u | u in s'.calls ensures CallSound(s', u) {
      assert CallSound(s, u);
    }
  }

  lemma SweepKeepsInv(s: State, t: CallId)
    requires Inv(s) && Enabled(s, SweepTable(t))
    ensures Inv(SweepStep(s, t))
  {
    hide EntrySound, SessionSound, CallSound;
    SweepKeepsEntries(s, t);
    SweepKeepsSessions(s, t);
    SweepKeepsCalls(s, t);
  }

  lemma ClearKeepsInv(s: State)
    requires Inv(s) && s.closed
    ensures Inv(ClearStep(s))
  {
    var s' := ClearStep(s);
    forall x | x in s'.live ensures SessionSound(s', x) {
      assert SessionSound(s, x);
    }
    forall u | u in s'.calls ensures CallSound(s', u) {
      assert CallSound(s, u);
    }
  }

  lemma StepKeepsInv(s: State, a: Action)
    requires Inv(s) && Enabled(s, a)
    ensures Inv(Step(s, a))
  {
    hide Inv, LookStep, FinishStep, SweepStep, ExamineStep, ClearStep, Fire, Leave;
    match a
    case LookUp(t) => LookKeepsInv(s, t);
    case Build(t, x, now) => BuildKeepsInv(s, t, x, now);
    case Finish(t) => FinishKeepsInv(s, t);
    case SweepTable(t) => SweepKeepsInv(s, t);
    case Examine(t) => ExamineKeepsInv(s, t);
    case LeaveTable(x) => LeaveKeepsInv(s, x);
    case Clear => ClearKeepsInv(s);
    case _ =>
      if a.Enter? || a.Collect? || a.Close? {
        EnterKeepsInv(s, a);
      } else if a.Resume? || a.FailBuild? {
        ResumeKeepsInv(s, a);
      } else if a.FailJoin? || a.FireNotice? {
        JoinKeepsInv(s, a);
      } else if a.LoopReturns? || a.Touch? {
        ReceiveKeepsInv(s, a);
      } else {
        CancelKeepsInv(s, a);
      }
  }

  lemma {:induction false} RunKeepsInv(s: State, run: seq<Action>)
    requires Inv(s) && Run(s, run).Some?
    ensures Inv(Run(s, run).value)
    decreases |run|
  {
    hide Inv, Step, Enabled;
    if run == [] {
    } else {
      StepKeepsInv(s, run[0]);
      RunKeepsInv(Step(s, run[0]), run[1..]);
    }
  }
}
