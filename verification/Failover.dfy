/**
 Connecting through a group of upstreams with failover inside the group and then to the
 group `default` (src/tcp.rs). Whether a connection succeeds is an input.
 */
module Failover {
  import opened Common
  import opened UpstreamPick

  function IdsOf(items: seq<Upstream>): set<string> {
    set u | u in items :: u.id
  }

  predicate Distinct(ids: seq<string>) {
    forall i, j | 0 <= i < j < |ids| :: ids[i] != ids[j]
  }

  function Excluded(exclude: Option<string>): set<string> {
    if exclude.Some? then {exclude.value} else {}
  }

  lemma {:induction false} DistinctCount(ids: seq<string>)
    requires Distinct(ids)
    ensures |ToSet(ids)| == |ids|
  {
    if ids == [] {
    } else {
      var n := |ids| - 1;
      DistinctCount(ids[..n]);
      assert ids == ids[..n] + [ids[n]];
      assert ToSet(ids) == ToSet(ids[..n]) + {ids[n]};
    }
  }

  lemma {:induction false} IdsCount(items: seq<Upstream>)
    ensures |IdsOf(items)| <= |items|
  {
    if items == [] {
    } else {
      var n := |items| - 1;
      IdsCount(items[..n]);
      assert items == items[..n] + [items[n]];
      assert IdsOf(items) == IdsOf(items[..n]) + {items[n].id};
    }
  }

  /** Distinct attempts at members of a group are no more than its members. */
  lemma AttemptsAreBounded(tried: seq<string>, items: seq<Upstream>, excluded: set<string>)
    requires Phase(tried, items, excluded)
    ensures |tried| <= |items|
  {
    DistinctCount(tried);
    IdsCount(items);
    SubsetSize(ToSet(tried), IdsOf(items));
  }

  lemma RemainingShrinks(all: set<string>, failed: set<string>, id: string)
    requires id in all && id !in failed
    ensures |all - (failed + {id})| < |all - failed|
  {
    assert all - failed == (all - (failed + {id})) + {id};
  }

  /** The attempts of one phase: distinct members of the group, none of them excluded. */
  predicate Phase(tried: seq<string>, items: seq<Upstream>, excluded: set<string>) {
    && Distinct(tried)
    && ToSet(tried) <= IdsOf(items)
    && ToSet(tried) !! excluded
  }

  /** Every member that is not excluded was tried. */
  predicate Exhausted(tried: seq<string>, items: seq<Upstream>, excluded: set<string>) {
    IdsOf(items) <= ToSet(tried) + excluded
  }

  /** The upstreams a phase no longer tries. */
  function Avoided(tried: seq<string>, excluded: set<string>): set<string> {
    ToSet(tried) + excluded
  }

  lemma PhaseOneMore(tried: seq<string>, items: seq<Upstream>, excluded: set<string>, up: Upstream)
    requires Phase(tried, items, excluded) && up in items && up.id !in Avoided(tried, excluded)
    ensures Phase(tried + [up.id], items, excluded)
    ensures Avoided(tried + [up.id], excluded) == Avoided(tried, excluded) + {up.id}
  {
    assert up.id in IdsOf(items);
    assert ToSet(tried + [up.id]) == ToSet(tried) + {up.id};
    assert forall k | 0 <= k < |tried| :: tried[k] in ToSet(tried);
  }

  function Log(before: seq<string>, first: seq<string>, second: seq<string>): seq<string> {
    before + first + second
  }

  lemma LogOneMore(before: seq<string>, first: seq<string>, second: seq<string>, id: string)
    ensures Log(before, first, second) + [] == Log(before, first, second)
    ensures Log(before, first, second) + [id] == Log(before, first, second + [id])
    ensures second == [] ==> Log(before, first, second) + [id] == Log(before, first + [id], second)
    ensures first == [] && second == [] ==> Log(before, first, second) == before
  {
  }

  ghost predicate FailedBefore(connects: iset<nat>, n: nat) {
    forall k: nat | k < n :: k !in connects
  }

  lemma NothingFailed(connects: iset<nat>)
    ensures FailedBefore(connects, 0)
  {
  }

  lemma OneMoreFailed(connects: iset<nat>, n: nat)
    requires FailedBefore(connects, n) && n !in connects
    ensures FailedBefore(connects, n + 1)
  {
  }

  /**
   `first` are the attempts in the requested group and `second` those after the fallback;
   `env` gives the readings of each attempt and `connects` the attempts that would succeed.
   */
  method TryConnect(
    ups: UpstreamSet, requested: string, exclude: Option<string>,
    env: nat -> (seq<Upstream> -> Readings), connects: iset<nat>)
    returns (r: Option<Upstream>, first: seq<string>, second: seq<string>, failures: nat)
    requires forall n, items :: Fits(env(n)(items), |items|)
    modifies ups
    ensures Phase(first, GroupOf(ups.groups, requested), Excluded(exclude))
    ensures Phase(second, GroupOf(ups.groups, DEFAULT), {})
    ensures |first| <= |GroupOf(ups.groups, requested)| && |second| <= |GroupOf(ups.groups, DEFAULT)|
    ensures exclude.Some? ==> exclude.value !in first
    // a fallback comes only after every allowed member of another group has failed
    ensures second != [] ==> requested != DEFAULT && Exhausted(first, GroupOf(ups.groups, requested), Excluded(exclude))
    ensures r.None? ==> Exhausted(first, GroupOf(ups.groups, requested), Excluded(exclude))
    ensures r.None? && requested != DEFAULT ==> Exhausted(second, GroupOf(ups.groups, DEFAULT), {})
    // only the last attempt can have succeeded, and it is the answer
    ensures failures + (if r.Some? then 1 else 0) == |first| + |second|
    ensures FailedBefore(connects, failures) && (r.Some? ==> failures in connects)
    ensures r.Some? && second == [] ==> first != [] && r.value.id == first[|first| - 1]
    ensures r.Some? && second != [] ==> r.value.id == second[|second| - 1]
    ensures r.Some? ==> r.value in GroupOf(ups.groups, if second == [] then requested else DEFAULT)
    ensures ups.recorded == Log(old(ups.recorded), first, second)
  {
    hide IdsOf, Avoided, Fits, Phase, Exhausted, GroupOf, Log, FailedBefore, Excluded;
    var group := requested;
    var failed := Excluded(exclude);
    first, second := [], [];
    ghost var before := ups.recorded;
    var fellBack := false;
    failures := 0;
    LogOneMore(before, first, second, "");
    assert FailedBefore(connects, 0) by { NothingFailed(connects); }
    EmptyPhase(GroupOf(ups.groups, requested), Excluded(exclude));
    EmptyPhase(GroupOf(ups.groups, DEFAULT), {});
    while true
      invariant group == if fellBack then DEFAULT else requested
      invariant fellBack ==> requested != DEFAULT
      invariant fellBack ==> Exhausted(first, GroupOf(ups.groups, requested), Excluded(exclude))
      invariant !fellBack ==> second == []
      invariant failed == if fellBack then Avoided(second, {}) else Avoided(first, Excluded(exclude))
      invariant Phase(first, GroupOf(ups.groups, requested), Excluded(exclude))
      invariant Phase(second, GroupOf(ups.groups, DEFAULT), {})
      invariant failures == |first| + |second|
      invariant FailedBefore(connects, failures)
      invariant ups.recorded == Log(before, first, second)
      decreases !fellBack, |IdsOf(GroupOf(ups.groups, group)) - failed|
    {
      var up := ups.PickFromGroup(group, failed, env(failures));
      if up.None? {
        if fellBack {
          AllFailed(second, GroupOf(ups.groups, DEFAULT), {});
        } else {
          AllFailed(first, GroupOf(ups.groups, requested), Excluded(exclude));
        }
        if group == DEFAULT {
          AttemptsAreBounded(first, GroupOf(ups.groups, requested), Excluded(exclude));
          ExcludedIsNotTried(first, GroupOf(ups.groups, requested), exclude);
          AttemptsAreBounded(second, GroupOf(ups.groups, DEFAULT), {});
          r := None;
          return;
        }
        group, failed, fellBack := DEFAULT, {}, true;
      } else {
        var id := up.value.id;
        LogOneMore(before, first, second, id);
        if fellBack {
          PhaseOneMore(second, GroupOf(ups.groups, DEFAULT), {}, up.value);
          second := second + [id];
        } else {
          PhaseOneMore(first, GroupOf(ups.groups, requested), Excluded(exclude), up.value);
          first := first + [id];
        }
        if failures in connects {
          AttemptsAreBounded(first, GroupOf(ups.groups, requested), Excluded(exclude));
          ExcludedIsNotTried(first, GroupOf(ups.groups, requested), exclude);
          AttemptsAreBounded(second, GroupOf(ups.groups, DEFAULT), {});
          r := up;
          return;
        }
        MemberId(GroupOf(ups.groups, group), up.value);
        RemainingShrinks(IdsOf(GroupOf(ups.groups, group)), failed, id);
        failed := failed + {id};
        OneMoreFailed(connects, failures);
        failures := failures + 1;
      }
    }
  }

  lemma ExcludedIsNotTried(tried: seq<string>, items: seq<Upstream>, exclude: Option<string>)
    requires Phase(tried, items, Excluded(exclude))
    ensures exclude.Some? ==> exclude.value !in tried
  {
    if exclude.Some? {
      assert exclude.value in Excluded(exclude) && exclude.value !in ToSet(tried);
    }
  }

  lemma EmptyPhase(items: seq<Upstream>, excluded: set<string>)
    ensures Phase([], items, excluded) && Avoided([], excluded) == excluded
  {
  }

  lemma MemberId(items: seq<Upstream>, up: Upstream)
    requires up in items
    ensures up.id in IdsOf(items)
  {
  }

  lemma AllFailed(tried: seq<string>, items: seq<Upstream>, excluded: set<string>)
    requires forall u | u in items :: u.id in Avoided(tried, excluded)
    ensures Exhausted(tried, items, excluded)
  {
  }
}
