/**
 The half-close timer around a bidirectional copy (src/relay.rs): a connection that has seen
 an end of stream and then stays silent for the grace period is given up.
 The copy itself is an open source of read and write results.
 */
module HalfClose {
  import opened Common

  /** `half_close_grace`: zero seconds switch the timer off. */
  function GraceOf(secs: nat): (g: Option<nat>)
    ensures g.None? <==> secs == 0
    ensures g.Some? ==> g.value == secs > 0
  {
    if secs > 0 then Some(secs) else None
  }

  /** One completed read or write inside a poll of the copy; `ok`: it was ready without error. */
  datatype Transfer =
    | Read(ok: bool, before: nat, after: nat, remaining: nat)
    | Write(ok: bool, written: nat)

  predicate MovesBytes(t: Transfer) {
    match t
    case Read(ok, before, after, _) => ok && after > before
    case Write(ok, written) => ok && written > 0
  }

  /** A read that brought nothing although there was room for it. */
  predicate IsEof(t: Transfer) {
    t.Read? && t.ok && t.after <= t.before && t.remaining > 0
  }

  /** One poll: when, what the copy did, whether it finished, and whether the timer driver has caught up. */
  datatype Poll = Poll(now: nat, transfers: seq<Transfer>, completes: bool, driverFired: bool)

  datatype Outcome = Finished | TimedOut | Pending

  predicate Moved(p: Poll) {
    exists t | t in p.transfers :: MovesBytes(t)
  }

  predicate SawEof(p: Poll) {
    exists t | t in p.transfers :: IsEof(t)
  }

  // ----- the meaning, over the history of polls

  predicate EofSeen(h: seq<Poll>) {
    exists p | p in h :: SawEof(p)
  }

  /**
   The time from which silence counts: the last poll that moved bytes after an end of stream was
   seen, or the poll that saw it first.
   */
  function SilentSince(h: seq<Poll>): nat
    requires EofSeen(h)
  {
    var n := |h| - 1;
    var before := h[..n];
    assert h == before + [h[n]];
    if !EofSeen(before) || Moved(h[n]) then h[n].now else SilentSince(before)
  }

  /** What the poll `p` must return after the polls `h`. */
  function Expected(h: seq<Poll>, p: Poll, grace: nat): Outcome {
    if p.completes then Finished
    else if EofSeen(h + [p]) && p.driverFired && p.now >= SilentSince(h + [p]) + grace then TimedOut
    else Pending
  }

  // ----- the machine

  class Relay {
    const grace: nat
    var eof: bool
    var activity: bool
    var armed: bool
    var deadline: nat
    ghost var history: seq<Poll>

    ghost predicate Valid()
      reads this
    {
      && !activity
      && eof == armed == EofSeen(history)
      && (armed ==> deadline == SilentSince(history) + grace)
    }

    constructor (grace: nat, now: nat)
      ensures Valid() && history == [] && this.grace == grace
    {
      this.grace := grace;
      eof, activity, armed, deadline, history := false, false, false, now + grace, [];
    }

    /** What `Tracked` notes about one transfer. */
    method Note(t: Transfer)
      modifies this`eof, this`activity
      ensures activity == (old(activity) || MovesBytes(t))
      ensures eof == (old(eof) || IsEof(t))
    {
      match t {
        case Read(ok, before, after, remaining) =>
          if ok {
            if after > before {
              activity := true;
            } else if remaining > 0 {
              eof := true;
            }
          }
        case Write(ok, written) =>
          if ok && written > 0 {
            activity := true;
          }
      }
    }

    method PollCopy(p: Poll)
      modifies this`eof, this`activity
      ensures activity == (old(activity) || Moved(p))
      ensures eof == (old(eof) || SawEof(p))
    {
      for i := 0 to |p.transfers|
        invariant activity == (old(activity) || exists t | t in p.transfers[..i] :: MovesBytes(t))
        invariant eof == (old(eof) || exists t | t in p.transfers[..i] :: IsEof(t))
      {
        assert p.transfers[..i + 1] == p.transfers[..i] + [p.transfers[i]];
        Note(p.transfers[i]);
      }
      assert p.transfers[..|p.transfers|] == p.transfers;
    }

    /** The poll function; a poll that finishes the copy is the last one. */
    method PollOnce(p: Poll) returns (r: Outcome)
      requires Valid()
      modifies this
      ensures r == Expected(old(history), p, grace)
      ensures r != Finished ==> Valid() && history == old(history) + [p]
    {
      PollCopy(p);
      if p.completes {
        return Finished;
      }
      ghost var h := history + [p];
      assert EofSeen(h) <==> EofSeen(history) || SawEof(p) by { EofOneMore(history, p); }
      assert h[..|history|] == history;
      history := h;
      var moved := activity;
      activity := false;
      if !eof {
        return Pending;
      }
      if !armed || moved {
        deadline := p.now + grace;
        armed := true;
      }
      if p.driverFired && p.now >= deadline {
        return TimedOut;
      }
      return Pending;
    }
  }

  lemma EofOneMore(h: seq<Poll>, p: Poll)
    ensures EofSeen(h + [p]) <==> EofSeen(h) || SawEof(p)
  {
    assert p in h + [p];
    assert forall q | q in h :: q in h + [p];
  }

  // ----- what the meaning says

  predicate TimesGrow(h: seq<Poll>) {
    forall i, j | 0 <= i <= j < |h| :: h[i].now <= h[j].now
  }

  /** The first poll that saw an end of stream. */
  function FirstEof(h: seq<Poll>): (i: nat)
    requires EofSeen(h)
    ensures i < |h| && SawEof(h[i]) && forall j | 0 <= j < i :: !SawEof(h[j])
  {
    if SawEof(h[0]) then 0
    else
      assert EofSeen(h[1..]) by {
        var p :| p in h && SawEof(p);
        assert p in h[1..];
      }
      1 + FirstEof(h[1..])
  }

  /** `t` is the time of the poll `first` or of the last poll from there on that moved bytes. */
  predicate IsLatest(h: seq<Poll>, first: nat, t: nat) {
    && first < |h|
    && h[first].now <= t
    && (forall i | first <= i < |h| && Moved(h[i]) :: h[i].now <= t)
    && exists i :: first <= i < |h| && (i == first || Moved(h[i])) && t == h[i].now
  }

  lemma IsLatestOneMore(h: seq<Poll>, p: Poll, first: nat, t: nat)
    requires IsLatest(h, first, t) && TimesGrow(h + [p])
    ensures IsLatest(h + [p], first, if Moved(p) then p.now else t)
  {
    hide Moved;
    var all := h + [p];
    assert forall i | 0 <= i < |h| :: all[i] == h[i];
    assert all[|h|] == p;
    if !Moved(p) {
      var i :| first <= i < |h| && (i == first || Moved(h[i])) && t == h[i].now;
      assert all[i] == h[i];
    }
  }

  /** Silence counts from the first end of stream, and again from every later movement. */
  lemma {:induction false} SilentSinceIsLatest(h: seq<Poll>)
    requires EofSeen(h) && TimesGrow(h)
    ensures IsLatest(h, FirstEof(h), SilentSince(h))
    decreases |h|
  {
    hide Moved, SawEof;
    var n := |h| - 1;
    var before := h[..n];
    assert h == before + [h[n]];
    if !EofSeen(before) {
      FirstIsLast(h);
    } else {
      FirstOfPrefix(h);
      SilentSinceIsLatest(before);
      IsLatestOneMore(before, h[n], FirstEof(h), SilentSince(before));
    }
  }

  lemma FirstIsLast(h: seq<Poll>)
    requires h != [] && EofSeen(h) && !EofSeen(h[..|h| - 1])
    ensures FirstEof(h) == |h| - 1
  {
    hide SawEof;
    assert forall k | 0 <= k < |h| - 1 :: h[..|h| - 1][k] == h[k] && h[k] in h[..|h| - 1];
  }

  lemma FirstOfPrefix(h: seq<Poll>)
    requires h != [] && EofSeen(h) && EofSeen(h[..|h| - 1])
    ensures FirstEof(h) == FirstEof(h[..|h| - 1])
  {
    hide SawEof;
    assert forall k | 0 <= k < |h| - 1 :: h[..|h| - 1][k] == h[k];
  }

  /**
   A timeout means: the copy did not finish in that poll, an end of stream was seen, and the
   grace period has passed since the first time it was seen and since every byte moved later.
   */
  lemma TimeoutMeansSilence(h: seq<Poll>, p: Poll, grace: nat)
    requires TimesGrow(h + [p]) && Expected(h, p, grace) == TimedOut
    ensures !p.completes && EofSeen(h + [p])
    ensures var all := h + [p]; var first := FirstEof(all);
            && p.now - all[first].now >= grace
            && forall i | first <= i < |all| && Moved(all[i]) :: p.now - all[i].now >= grace
  {
    hide Moved, SawEof;
    SilentSinceIsLatest(h + [p]);
  }

  /** With a grace period, the poll that first sees the end of stream or moves bytes never times out. */
  lemma NoTimeoutWhileMoving(h: seq<Poll>, p: Poll, grace: nat)
    requires grace > 0 && (Moved(p) || !EofSeen(h))
    ensures Expected(h, p, grace) != TimedOut
  {
    assert (h + [p])[..|h|] == h;
  }

  /** Past the deadline, without movement and with the timer fired, the timeout does come. */
  lemma SilenceTimesOut(h: seq<Poll>, p: Poll, grace: nat)
    requires !p.completes && p.driverFired && EofSeen(h) && TimesGrow(h)
    requires p.now >= h[FirstEof(h)].now + grace
    requires forall i | FirstEof(h) <= i < |h| && Moved(h[i]) :: p.now >= h[i].now + grace
    requires !Moved(p)
    ensures Expected(h, p, grace) == TimedOut
  {
    EofOneMore(h, p);
    assert (h + [p])[..|h|] == h;
    SilentSinceIsLatest(h);
  }

  /** What a poll returns with the timer switched on or off. */
  function Answer(h: seq<Poll>, p: Poll, grace: Option<nat>): Outcome {
    match grace
    case Some(g) => Expected(h, p, g)
    case None => if p.completes then Finished else Pending
  }

  /**
   With the timer off a poll never times out, and with it on neither the poll that first sees
   the end of stream nor one that moves bytes does: zero seconds mean "no limit", not "at once".
   */
  lemma NoImmediateTimeout(h: seq<Poll>, p: Poll, graceSecs: nat)
    requires Answer(h, p, GraceOf(graceSecs)) == TimedOut
    ensures graceSecs > 0 && EofSeen(h) && !Moved(p)
    ensures TimesGrow(h + [p]) ==> p.now >= h[FirstEof(h)].now + graceSecs
  {
    hide Moved, SawEof;
    var grace := GraceOf(graceSecs).value;
    if Moved(p) || !EofSeen(h) {
      NoTimeoutWhileMoving(h, p, grace);
    }
    if TimesGrow(h + [p]) {
      TimeoutMeansSilence(h, p, grace);
      assert (h + [p])[..|h|] == h;
      FirstOfPrefix(h + [p]);
    }
  }

  /** A whole connection: the index of the poll that ended it, if any did. */
  method RunRelay(graceSecs: nat, start: nat, polls: seq<Poll>) returns (r: Outcome, at: nat)
    ensures at <= |polls| && (r == Pending <==> at == |polls|)
    ensures forall i | 0 <= i < at :: Answer(polls[..i], polls[i], GraceOf(graceSecs)) == Pending
    ensures at < |polls| ==> r == Answer(polls[..at], polls[at], GraceOf(graceSecs))
  {
    hide Expected;
    at := 0;
    if GraceOf(graceSecs).None? {
      while at < |polls| && !polls[at].completes
        invariant at <= |polls|
        invariant forall i | 0 <= i < at :: !polls[i].completes
      {
        at := at + 1;
      }
      r := if at < |polls| then Finished else Pending;
      return;
    }
    var grace := GraceOf(graceSecs).value;
    var relay := new Relay(grace, start);
    while at < |polls|
      invariant at <= |polls| && relay.Valid() && relay.history == polls[..at] && relay.grace == grace
      invariant forall i | 0 <= i < at :: Expected(polls[..i], polls[i], grace) == Pending
    {
      r := relay.PollOnce(polls[at]);
      if r != Pending {
        return;
      }
      assert polls[..at + 1] == polls[..at] + [polls[at]];
      at := at + 1;
    }
    r := Pending;
  }

  // ----- the same on the reads and writes themselves

  /** A read or write that moved bytes keeps the connection. */
  lemma BytesKeepIt(h: seq<Poll>, p: Poll, graceSecs: nat, t: Transfer)
    requires t in p.transfers
    requires (t.Read? && t.ok && t.after > t.before) || (t.Write? && t.ok && t.written > 0)
    ensures Answer(h, p, GraceOf(graceSecs)) != TimedOut
  {
    hide SawEof, Expected;
    assert Moved(p) by { assert MovesBytes(t); }
    if graceSecs > 0 {
      NoTimeoutWhileMoving(h, p, graceSecs);
    }
  }

  /** As long as no read with room for more comes back empty, nothing times out. */
  lemma NoEndNoTimeout(h: seq<Poll>, p: Poll, graceSecs: nat)
    requires forall q, t | q in h + [p] && t in q.transfers && t.Read? && t.ok && t.remaining > 0 :: t.after > t.before
    ensures Answer(h, p, GraceOf(graceSecs)) != TimedOut
  {
    assert !EofSeen(h + [p]);
  }

  /** Once a read with room for more came back empty, silence for the whole grace period ends the connection. */
  lemma SilenceAfterEndTimesOut(h: seq<Poll>, p: Poll, graceSecs: nat, end: nat, t: Transfer)
    requires graceSecs > 0 && TimesGrow(h) && end < |h| && t in h[end].transfers
    requires t.Read? && t.ok && t.after <= t.before && t.remaining > 0
    requires forall q, u | q in h[end + 1..] + [p] && u in q.transfers && u.ok ::
               if u.Read? then u.after <= u.before else u.written == 0
    requires !p.completes && p.driverFired && p.now >= h[end].now + graceSecs
    ensures Answer(h, p, GraceOf(graceSecs)) == TimedOut
  {
    assert SawEof(h[end]) by { assert IsEof(t); }
    assert h[end] in h;
    assert EofSeen(h);
    var first := FirstEof(h);
    assert first <= end;
    assert p in h[end + 1..] + [p];
    assert !Moved(p);
    assert forall i | end < i < |h| :: h[i] == h[end + 1..][i - end - 1] && h[i] in h[end + 1..] + [p];
    assert forall i | end < i < |h| :: !Moved(h[i]);
    SilenceTimesOut(h, p, graceSecs);
  }

  /** A copy that ends normally ends the connection normally, also when the timer is due in the same poll. */
  lemma CompletionWins(h: seq<Poll>, p: Poll, graceSecs: nat)
    ensures Answer(h, p, GraceOf(graceSecs)) == Finished <==> p.completes
  {
  }
}
