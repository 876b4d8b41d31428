/**
 The reap of src/udp/pending.rs does not hold the lock of the key whose entry it flushes. So
 the handler of a packet of that key can run between the steps of the reap, and the other way
 round. This is one key at the level of the single accesses to the map and the single sends;
 datagrams are numbers. Handlers of one key exclude each other, and so do reaps.
 */
module PendingInterleaved {
  import opened Common

  type Datagram = nat

  /** Where the handler stands: waiting for a packet, past the session lookup, or sending. */
  datatype Handler =
    | Idle
    | FoundSession(payload: Datagram)
    | FoundNone(payload: Datagram)
    | Sending(queue: seq<Datagram>, creates: bool)

  /** `cached` is the entry in the map, none if empty; `reaped` is what the reap took out and has not sent yet. */
  datatype State = State(
    cached: seq<Datagram>, reaped: seq<Datagram>, handler: Handler, ready: bool,
    arrived: seq<Datagram>, forwarded: seq<Datagram>, discarded: seq<Datagram>)

  /** `waits`: the handler would rather cache the packet than forward it. */
  datatype Action =
    | Packet(payload: Datagram)
    | Proceed(waits: bool)
    | HandlerSends
    | ReapTakes
    | ReapSends
    | SessionEnds

  const START := State([], [], Idle, false, [], [], [])

  /** What the handler has in its hands. */
  function Held(h: Handler): seq<Datagram> {
    match h
    case Idle => []
    case FoundSession(p) => [p]
    case FoundNone(p) => [p]
    case Sending(queue, _) => queue
  }

  predicate Enabled(s: State, a: Action) {
    match a
    case Packet(_) => s.handler.Idle?
    case Proceed(_) => s.handler.FoundSession? || s.handler.FoundNone?
    case HandlerSends => s.handler.Sending? && s.handler.queue != []
    case ReapTakes => s.cached != [] && s.reaped == []
    case ReapSends => s.reaped != []
    case SessionEnds => true
  }

  function Proceeded(s: State, waits: bool): State
    requires s.handler.FoundSession? || s.handler.FoundNone?
  {
    var p := s.handler.payload;
    if s.handler.FoundSession? then
      s.(cached := [], discarded := s.discarded + s.cached, handler := Sending([p], false))
    else if waits then s.(cached := s.cached + [p], handler := Idle)
    else s.(cached := [], handler := Sending(s.cached + [p], true))
  }

  function SentOne(s: State): State
    requires s.handler.Sending? && s.handler.queue != []
  {
    var rest := s.handler.queue[1..];
    s.(forwarded := s.forwarded + [s.handler.queue[0]], ready := s.ready || s.handler.creates,
       handler := if rest == [] then Idle else Sending(rest, s.handler.creates))
  }

  function Step(s: State, a: Action): State
    requires Enabled(s, a)
  {
    match a
    case Packet(p) =>
      s.(arrived := s.arrived + [p], handler := if s.ready then FoundSession(p) else FoundNone(p))
    case Proceed(waits) => Proceeded(s, waits)
    case HandlerSends => SentOne(s)
    case ReapTakes => s.(cached := [], reaped := s.cached)
    case ReapSends => s.(reaped := s.reaped[1..], forwarded := s.forwarded + [s.reaped[0]], ready := true)
    case SessionEnds => s.(ready := false)
  }

  function Run(s: State, run: seq<Action>): Option<State>
    decreases |run|
  {
    if run == [] then Some(s)
    else if Enabled(s, run[0]) then Run(Step(s, run[0]), run[1..])
    else None
  }

  // ----- every datagram is in exactly one place

  /** What is neither forwarded nor with the reap. */
  function Elsewhere(s: State): multiset<Datagram> {
    multiset(s.cached) + multiset(Held(s.handler)) + multiset(s.discarded)
  }

  function Everywhere(s: State): multiset<Datagram> {
    multiset(s.forwarded) + multiset(s.reaped) + Elsewhere(s)
  }

  predicate Accounted(s: State) {
    multiset(s.arrived) == Everywhere(s)
  }

  lemma HeadAndRest(q: seq<Datagram>)
    requires q != []
    ensures multiset(q) == multiset{q[0]} + multiset(q[1..])
  {
    assert q == [q[0]] + q[1..];
  }

  lemma ProceededElsewhere(s: State, waits: bool)
    requires s.handler.FoundSession? || s.handler.FoundNone?
    ensures Elsewhere(Proceeded(s, waits)) == Elsewhere(s)
  {
    var p := s.handler.payload;
    if s.handler.FoundSession? {
      assert multiset(s.discarded + s.cached) == multiset(s.discarded) + multiset(s.cached);
    } else {
      assert multiset(s.cached + [p]) == multiset(s.cached) + multiset([p]);
    }
  }

  lemma ProceededAccounts(s: State, waits: bool)
    requires s.handler.FoundSession? || s.handler.FoundNone?
    ensures Everywhere(Proceeded(s, waits)) == Everywhere(s)
  {
    hide Elsewhere;
    ProceededElsewhere(s, waits);
  }

  lemma SentOneAccounts(s: State)
    requires s.handler.Sending? && s.handler.queue != []
    ensures Everywhere(SentOne(s)) == Everywhere(s)
  {
    HeadAndRest(s.handler.queue);
    assert Held(SentOne(s).handler) == s.handler.queue[1..];
  }

  lemma ReapAccounts(s: State, a: Action)
    requires (a.ReapTakes? || a.ReapSends? || a.SessionEnds?) && Enabled(s, a)
    ensures Everywhere(Step(s, a)) == Everywhere(s)
  {
    if a.ReapSends? {
      HeadAndRest(s.reaped);
    }
  }

  lemma StepAccounts(s: State, a: Action)
    requires Accounted(s) && Enabled(s, a)
    ensures Accounted(Step(s, a))
  {
    hide Everywhere;
    match a {
      case Packet(p) => PacketAccounts(s, p);
      case Proceed(waits) => ProceededAccounts(s, waits);
      case HandlerSends => SentOneAccounts(s);
      case _ => ReapAccounts(s, a);
    }
  }

  lemma PacketAccounts(s: State, p: Datagram)
    requires Accounted(s) && s.handler.Idle?
    ensures Accounted(Step(s, Packet(p)))
  {
    var s' := Step(s, Packet(p));
    assert multiset(s'.arrived) == multiset(s.arrived) + multiset{p};
    assert Held(s.handler) == [] && Held(s'.handler) == [p];
    assert multiset([p]) == multiset{p};
  }

  /**
   Whatever the interleaving, each datagram is forwarded, in the hands of the reap or the
   handler, cached or discarded, and only one of these.
   */
  lemma {:induction false} EveryRunAccounts(s: State, run: seq<Action>)
    requires Accounted(s) && Run(s, run).Some?
    ensures Accounted(Run(s, run).value)
    decreases |run|
  {
    hide Accounted, Step;
    if run == [] {
    } else {
      StepAccounts(s, run[0]);
      EveryRunAccounts(Step(s, run[0]), run[1..]);
    }
  }

  // ----- what can go wrong

  /** Nothing was discarded, and what was forwarded is the beginning of what arrived. */
  predicate Faithful(s: State) {
    s.discarded == [] && s.forwarded <= s.arrived
  }

  /** Nothing is on its way. */
  predicate Quiet(s: State) {
    s.reaped == [] && s.cached == [] && s.handler.Idle?
  }

  /** Once nothing is on its way, faithful means that all arrivals were forwarded in order. */
  lemma FaithfulWhenQuiet(s: State)
    requires Accounted(s) && Quiet(s)
    ensures Faithful(s) <==> s.forwarded == s.arrived
  {
    SizeOfArrived(s);
    if s.forwarded == s.arrived {
      assert |s.discarded| == 0;
    }
  }

  lemma SizeOfArrived(s: State)
    requires Accounted(s)
    ensures |s.arrived| == |s.forwarded| + |s.reaped| + |s.cached| + |Held(s.handler)| + |s.discarded|
  {
    assert |multiset(s.arrived)| == |s.arrived|;
    assert |Everywhere(s)| == |s.forwarded| + |s.reaped| + |s.cached| + |Held(s.handler)| + |s.discarded|;
  }

  lemma {:induction false} RunAppend(s: State, a: seq<Action>, b: seq<Action>)
    ensures Run(s, a + b) == match Run(s, a) case None => None case Some(t) => Run(t, b)
    decreases |a|
  {
    hide Step;
    if a == [] {
      assert a + b == b;
    } else if Enabled(s, a[0]) {
      assert (a + b)[1..] == a[1..] + b;
      RunAppend(Step(s, a[0]), a[1..], b);
    }
  }

  lemma RunOne(s: State, a: Action)
    requires Enabled(s, a)
    ensures Run(s, [a]) == Some(Step(s, a))
  {
    hide Step;
    assert Run(Step(s, a), []) == Some(Step(s, a));
  }

  lemma RunMore(s: State, run: seq<Action>, t: State, a: Action)
    requires Run(s, run) == Some(t) && Enabled(t, a)
    ensures Run(s, run + [a]) == Some(Step(t, a))
  {
    hide Run, Step;
    RunAppend(s, run, [a]);
    RunOne(t, a);
  }

  /** One packet waits, the reap takes it out, and a second packet overtakes it. */
  lemma OrderCanBreak()
    ensures var run := [Packet(1), Proceed(true), ReapTakes, Packet(2), Proceed(false), HandlerSends, ReapSends];
            Run(START, run).Some? && Quiet(Run(START, run).value) && Run(START, run).value.forwarded == [2, 1]
  {
  }

  /** A packet is cached while the reap is sending, and the next packet finds the session and throws it away. */
  lemma DatagramCanBeLost()
    ensures var run := [Packet(1), Proceed(true), ReapTakes, Packet(2), Proceed(true), ReapSends,
                        Packet(3), Proceed(true)];
            Run(START, run).Some? && Run(START, run).value.discarded == [2]
  {
  }

  /** The reap and the handler both have two datagrams to send. */
  const BOTH_SENDING := State([], [1, 2], Sending([3, 4], true), false, [1, 2, 3, 4], [], [])

  lemma BothCanSend()
    ensures Run(START, [Packet(1), Proceed(true), Packet(2), Proceed(true), ReapTakes,
                     Packet(3), Proceed(true), Packet(4), Proceed(false)])
         == Some(BOTH_SENDING)
  {
    hide Run;
    var r1, s1 := [Packet(1)], Step(START, Packet(1));
    RunOne(START, Packet(1));
    var r2, s2 := r1 + [Proceed(true)], Step(s1, Proceed(true));
    RunMore(START, r1, s1, Proceed(true));
    var r3, s3 := r2 + [Packet(2)], Step(s2, Packet(2));
    RunMore(START, r2, s2, Packet(2));
    var r4, s4 := r3 + [Proceed(true)], Step(s3, Proceed(true));
    RunMore(START, r3, s3, Proceed(true));
    var r5, s5 := r4 + [ReapTakes], Step(s4, ReapTakes);
    RunMore(START, r4, s4, ReapTakes);
    var r6, s6 := r5 + [Packet(3)], Step(s5, Packet(3));
    RunMore(START, r5, s5, Packet(3));
    var r7, s7 := r6 + [Proceed(true)], Step(s6, Proceed(true));
    RunMore(START, r6, s6, Proceed(true));
    var r8, s8 := r7 + [Packet(4)], Step(s7, Packet(4));
    RunMore(START, r7, s7, Packet(4));
    var r9, s9 := r8 + [Proceed(false)], Step(s8, Proceed(false));
    RunMore(START, r8, s8, Proceed(false));
    assert s9.reaped == [1, 2] && s9.arrived == [1, 2, 3, 4];
    assert s9.handler.queue == [3, 4];
    assert r9 == [Packet(1), Proceed(true), Packet(2), Proceed(true), ReapTakes,
                  Packet(3), Proceed(true), Packet(4), Proceed(false)];
  }

  /** Then their flushes can mix datagram by datagram. */
  lemma FlushesCanMix()
    ensures var run := [HandlerSends, ReapSends, HandlerSends, ReapSends];
            && Run(BOTH_SENDING, run).Some? && Quiet(Run(BOTH_SENDING, run).value)
            && Run(BOTH_SENDING, run).value.forwarded == [3, 1, 4, 2]
  {
  }

  // ----- when it goes right

  /**
   The steps that do no harm: the handler sends nothing while the reap still holds datagrams,
   and a handler that found a session finds no entry.
   */
  predicate Harmless(s: State, a: Action) {
    match a
    case Proceed(_) => s.handler.FoundSession? ==> s.cached == []
    case HandlerSends => s.reaped == []
    case _ => true
  }

  /** What arrived is what was forwarded, then what the reap, the map and the handler hold, in this order. */
  predicate InOrder(s: State) {
    && s.discarded == []
    && s.arrived == s.forwarded + s.reaped + s.cached + Held(s.handler)
    && (s.handler.Sending? ==> s.cached == [])
  }

  predicate Distinct(ds: seq<Datagram>) {
    forall i, j | 0 <= i < j < |ds| :: ds[i] != ds[j]
  }

  lemma Regroup(a: seq<Datagram>, b: seq<Datagram>, c: seq<Datagram>, d: seq<Datagram>)
    ensures a + b + c + d == a + b + (c + d)
  {
  }

  lemma HarmlessProceeds(s: State, waits: bool)
    requires InOrder(s) && Enabled(s, Proceed(waits)) && Harmless(s, Proceed(waits))
    ensures InOrder(Step(s, Proceed(waits)))
  {
    var p := s.handler.payload;
    Regroup(s.forwarded, s.reaped, s.cached, [p]);
    assert s.forwarded + s.reaped + (s.cached + [p]) + [] == s.forwarded + s.reaped + (s.cached + [p]);
    assert s.forwarded + s.reaped + [] + (s.cached + [p]) == s.forwarded + s.reaped + (s.cached + [p]);
    assert s.forwarded + s.reaped + [] + [p] == s.forwarded + s.reaped + [p];
  }

  lemma HarmlessSends(s: State)
    requires InOrder(s) && Enabled(s, HandlerSends) && Harmless(s, HandlerSends)
    ensures InOrder(Step(s, HandlerSends))
  {
    var q := s.handler.queue;
    assert Held(SentOne(s).handler) == q[1..];
    assert q == [q[0]] + q[1..];
    assert s.forwarded + [] + [] + q == s.forwarded + [q[0]] + [] + [] + q[1..];
  }

  lemma HarmlessReaps(s: State, a: Action)
    requires InOrder(s) && Enabled(s, a) && (a.ReapTakes? || a.ReapSends? || a.SessionEnds?)
    ensures InOrder(Step(s, a))
  {
    if a.ReapTakes? {
      assert s.forwarded + [] + s.cached + Held(s.handler) == s.forwarded + s.cached + [] + Held(s.handler);
    } else if a.ReapSends? {
      assert s.forwarded + s.reaped == s.forwarded + [s.reaped[0]] + s.reaped[1..];
    }
  }

  lemma HarmlessKeepsOrder(s: State, a: Action)
    requires InOrder(s) && Enabled(s, a) && Harmless(s, a)
    ensures InOrder(Step(s, a))
  {
    hide InOrder, Harmless;
    match a {
      case Packet(p) => PacketKeepsOrder(s, p);
      case Proceed(waits) => HarmlessProceeds(s, waits);
      case HandlerSends => HarmlessSends(s);
      case _ => HarmlessReaps(s, a);
    }
  }

  lemma PacketKeepsOrder(s: State, p: Datagram)
    requires InOrder(s) && s.handler.Idle?
    ensures InOrder(Step(s, Packet(p)))
  {
    var all := s.forwarded + s.reaped + s.cached;
    assert all + [] == all;
  }

  /** An order that is kept is faithful. */
  lemma InOrderIsFaithful(s: State)
    requires InOrder(s)
    ensures Faithful(s)
  {
  }

  /** A harmful step breaks faithfulness at once. */
  lemma HarmBreaks(s: State, a: Action)
    requires InOrder(s) && Enabled(s, a) && !Harmless(s, a) && Distinct(s.arrived)
    ensures !Faithful(Step(s, a))
  {
    if a.HandlerSends? {
      var i, d := |s.forwarded|, s.handler.queue[0];
      assert s.arrived[i] == s.reaped[0];
      assert s.arrived[i + |s.reaped|] == d;
      assert (s.forwarded + [d])[i] == d;
    }
  }

  /** What is broken stays broken. */
  lemma BrokenStays(s: State, a: Action)
    requires Accounted(s) && !Faithful(s) && Enabled(s, a)
    ensures !Faithful(Step(s, a))
  {
    hide Everywhere;
    var s' := Step(s, a);
    SizeOfArrived(s);
    assert s.forwarded <= s'.forwarded && s.arrived <= s'.arrived && s.discarded <= s'.discarded;
    if s.discarded == [] {
      var i :| 0 <= i < |s.forwarded| && s.forwarded[i] != s.arrived[i];
      assert s'.forwarded[i] != s'.arrived[i];
    }
  }

  lemma {:induction false} ArrivedGrows(s: State, run: seq<Action>)
    requires Run(s, run).Some?
    ensures s.arrived <= Run(s, run).value.arrived
    decreases |run|
  {
    if run == [] {
    } else {
      ArrivedGrows(Step(s, run[0]), run[1..]);
    }
  }

  lemma {:induction false} BrokenForever(s: State, run: seq<Action>)
    requires Accounted(s) && !Faithful(s) && Run(s, run).Some?
    ensures !Faithful(Run(s, run).value)
    decreases |run|
  {
    hide Accounted, Faithful, Step;
    if run == [] {
    } else {
      BrokenStays(s, run[0]);
      StepAccounts(s, run[0]);
      BrokenForever(Step(s, run[0]), run[1..]);
    }
  }

  /** Every step of the run is harmless where it is taken. */
  predicate AllHarmless(s: State, run: seq<Action>)
    decreases |run|
  {
    run == [] || (Enabled(s, run[0]) && Harmless(s, run[0]) && AllHarmless(Step(s, run[0]), run[1..]))
  }

  /** A run is faithful exactly if every one of its steps is harmless. */
  lemma {:induction false} FaithfulIffHarmless(s: State, run: seq<Action>)
    requires InOrder(s) && Accounted(s) && Run(s, run).Some? && Distinct(Run(s, run).value.arrived)
    ensures Faithful(Run(s, run).value) <==> AllHarmless(s, run)
    decreases |run|
  {
    hide InOrder, Accounted, Faithful, Harmless, Step;
    if run == [] {
      InOrderIsFaithful(s);
    } else {
      var a, s' := run[0], Step(s, run[0]);
      StepAccounts(s, a);
      ArrivedGrows(s, run);
      assert Distinct(s.arrived);
      if Harmless(s, a) {
        HarmlessKeepsOrder(s, a);
        FaithfulIffHarmless(s', run[1..]);
      } else {
        HarmBreaks(s, a);
        BrokenForever(s', run[1..]);
      }
    }
  }

  lemma {:induction false} HarmlessAtEveryMoment(s: State, run: seq<Action>)
    requires Run(s, run).Some?
    ensures AllHarmless(s, run) <==>
            forall i | 0 <= i < |run| :: Run(s, run[..i]).Some? && Harmless(Run(s, run[..i]).value, run[i])
    decreases |run|
  {
    hide Harmless, Step;
    if run == [] {
    } else {
      var s', rest := Step(s, run[0]), run[1..];
      HarmlessAtEveryMoment(s', rest);
      assert run[..0] == [];
      forall i | 0 <= i < |rest|
        ensures Run(s, run[..i + 1]) == Run(s', rest[..i]) && run[i + 1] == rest[i]
      {
        assert run[..i + 1][1..] == rest[..i] && run[..i + 1][0] == run[0];
      }
      assert forall j | 1 <= j < |run| :: run[j] == rest[j - 1] && Run(s, run[..j]) == Run(s', rest[..j - 1]);
    }
  }

  /**
   From the start, for every interleaving of handlers, reaps and ending sessions: faithful
   exactly if every step was harmless where it was taken.
   */
  lemma RunsAreFaithfulIffHarmless(run: seq<Action>)
    requires Run(START, run).Some? && Distinct(Run(START, run).value.arrived)
    ensures Faithful(Run(START, run).value) <==>
            forall i | 0 <= i < |run| :: Run(START, run[..i]).Some? && Harmless(Run(START, run[..i]).value, run[i])
  {
    hide Run, Harmless, Faithful;
    assert InOrder(START) && Accounted(START);
    FaithfulIffHarmless(START, run);
    HarmlessAtEveryMoment(START, run);
  }
}
