/**
 Choosing an upstream inside a group (src/upstream.rs): exploration, the sticky choice and the
 draw weighted by squared scores. Random numbers and scores are inputs.
 */
module UpstreamPick {
  import opened Common

  datatype Upstream = Upstream(id: string, groups: seq<string>)

  const MAX_SCORE: nat := 10_000_000

  /** With this many candidates the sum of all weights fits 64 bits. */
  const EXACT_CANDIDATES: nat := 184_467

  /** `effective_score_at`: the raw score times the gain, clamped, fraction dropped. */
  function EffectiveScore(raw: nat, gain: real): (score: nat)
    ensures 1 <= score <= 10_000_000
    ensures score as real <= raw as real * gain || score == 1
    ensures raw as real * gain < score as real + 1.0 || score == 10_000_000
  {
    var eff := raw as real * gain;
    if eff <= 1.0 then 1 else if eff >= MAX_SCORE as real then MAX_SCORE else eff.Floor
  }

  predicate ScoresInRange(scores: seq<nat>) {
    forall i | 0 <= i < |scores| :: 1 <= scores[i] <= MAX_SCORE
  }

  function Weights(scores: seq<nat>): (w: seq<nat>)
    ensures |w| == |scores|
  {
    seq(|scores|, i requires 0 <= i < |scores| => scores[i] * scores[i])
  }

  function Sum(weights: seq<nat>): nat {
    if weights == [] then 0 else weights[0] + Sum(weights[1..])
  }

  /** The candidate that owns the number `r` when the weights are laid out one after the other. */
  function Owner(weights: seq<nat>, r: nat): (i: nat)
    requires r < Sum(weights)
    ensures i < |weights|
  {
    if r < weights[0] then 0 else 1 + Owner(weights[1..], r - weights[0])
  }

  lemma {:induction false} SumAppend(a: seq<nat>, w: nat)
    ensures Sum(a + [w]) == Sum(a) + w
  {
    if a == [] {
    } else {
      assert (a + [w])[1..] == a[1..] + [w];
      SumAppend(a[1..], w);
    }
  }

  lemma {:induction false} SumOfPrefix(weights: seq<nat>, i: nat)
    requires i <= |weights|
    ensures Sum(weights[..i]) <= Sum(weights)
  {
    if i == 0 {
    } else {
      assert weights[..i][1..] == weights[1..][..i - 1];
      SumOfPrefix(weights[1..], i - 1);
    }
  }

  /** The numbers a candidate owns are an interval as long as its weight. */
  lemma {:induction false} OwnerInterval(weights: seq<nat>, r: nat, i: nat)
    requires r < Sum(weights) && i < |weights|
    ensures Owner(weights, r) == i <==> Sum(weights[..i]) <= r < Sum(weights[..i]) + weights[i]
  {
    if i == 0 {
    } else {
      assert weights[..i][1..] == weights[1..][..i - 1];
      assert weights[1..][i - 1] == weights[i];
    }
    if r >= weights[0] && i > 0 {
      OwnerInterval(weights[1..], r - weights[0], i - 1);
    }
  }

  function Interval(low: nat, size: nat): set<nat> {
    if size == 0 then {} else Interval(low, size - 1) + {low + size - 1}
  }

  lemma {:induction false} IntervalSize(low: nat, size: nat)
    ensures forall r :: r in Interval(low, size) <==> low <= r < low + size
    ensures |Interval(low, size)| == size
  {
    if size == 0 {
    } else {
      IntervalSize(low, size - 1);
    }
  }

  /** The draws among `0 .. Sum(weights)` that select candidate `i`. */
  function DrawsFor(weights: seq<nat>, i: nat): set<nat> {
    set r | 0 <= r < Sum(weights) && Owner(weights, r) == i
  }

  /** The choice is exactly proportional: weight `w` gets `w` of the equally likely draws. */
  lemma ChoiceIsProportional(weights: seq<nat>, i: nat)
    requires i < |weights|
    ensures |DrawsFor(weights, i)| == weights[i]
  {
    var low := Sum(weights[..i]);
    assert weights[..i + 1] == weights[..i] + [weights[i]];
    SumAppend(weights[..i], weights[i]);
    SumOfPrefix(weights, i + 1);
    IntervalSize(low, weights[i]);
    forall r: nat | r < Sum(weights)
      ensures Owner(weights, r) == i <==> r in Interval(low, weights[i])
    {
      OwnerInterval(weights, r, i);
    }
    assert DrawsFor(weights, i) == Interval(low, weights[i]);
  }

  /** A candidate is drawn in proportion to the square of its score. */
  lemma ChoiceGoesBySquares(scores: seq<nat>, i: nat)
    requires i < |scores|
    ensures |DrawsFor(Weights(scores), i)| == scores[i] * scores[i]
  {
    ChoiceIsProportional(Weights(scores), i);
  }

  /** Squared scores sum to something positive that fits 64 bits. */
  lemma {:induction false} TotalFits(scores: seq<nat>)
    requires ScoresInRange(scores)
    ensures |scores| <= Sum(Weights(scores)) <= |scores| * (MAX_SCORE * MAX_SCORE)
  {
    if scores == [] {
    } else {
      TotalFits(scores[1..]);
      assert Weights(scores)[1..] == Weights(scores[1..]);
      Square(scores[0], MAX_SCORE);
    }
  }

  lemma Square(s: nat, m: nat)
    requires 1 <= s <= m
    ensures 1 <= s * s <= m * m
  {
    assert (s - 1) * (s - 1) >= 0;
    assert (m - s) * (m + s) >= 0;
  }

  /** `fastrand`: any number below `n`. */
  function Below(n: nat, seed: nat): (r: nat)
    requires n > 0
    ensures r < n
  {
    seed % n
  }

  datatype Branch = Uniform | Drawn | FirstByDefault

  /** The sum of a `u64` iterator, which wraps. */
  method TotalWeight(weights: seq<nat>) returns (total: nat)
    ensures total <= Sum(weights) && (Sum(weights) <= U64_MAX ==> total == Sum(weights))
  {
    total := 0;
    for k := 0 to |weights|
      invariant total <= Sum(weights[..k]) && (Sum(weights[..k]) <= U64_MAX ==> total == Sum(weights[..k]))
    {
      assert weights[..k + 1] == weights[..k] + [weights[k]];
      SumAppend(weights[..k], weights[k]);
      total := (total + weights[k]) % (U64_MAX + 1);
    }
    assert weights[..|weights|] == weights;
  }

  /** The draw itself, with its two emergency branches. */
  method WeightedIndex(weights: seq<nat>, seed: nat) returns (i: nat, branch: Branch)
    requires weights != []
    ensures i < |weights|
    ensures branch != FirstByDefault
    ensures 0 < Sum(weights) <= U64_MAX ==> branch == Drawn && i == Owner(weights, Below(Sum(weights), seed))
  {
    i := 0;
    var total := TotalWeight(weights);
    if total == 0 {
      return Below(|weights|, seed), Uniform;
    }
    var r := Below(total, seed);
    ghost var drawn := r;
    for k := 0 to |weights|
      invariant 0 <= r < Sum(weights[k..])
      invariant Owner(weights, drawn) == k + Owner(weights[k..], r)
    {
      if r < weights[k] {
        return k, Drawn;
      }
      assert weights[k..][1..] == weights[k + 1..];
      r := r - weights[k];
    }
    branch := FirstByDefault;
  }

  /** What one pick reads and draws; the scores are read several times. */
  datatype Readings = Readings(
    initialised: seq<bool>, ranking: seq<nat>, best: nat, current: nat, weighing: seq<nat>,
    explore: bool, seed: nat)

  predicate Fits(e: Readings, n: nat) {
    && |e.initialised| == |e.ranking| == |e.weighing| == n
    && ScoresInRange(e.ranking) && ScoresInRange(e.weighing)
  }

  /** All readings come from one moment. */
  predicate OneMoment(e: Readings, scores: seq<nat>, current: nat)
    requires current < |scores|
  {
    && e.ranking == e.weighing == scores
    && e.current == scores[current]
    && e.best in scores && forall i | 0 <= i < |scores| :: scores[i] <= e.best
  }

  /** The first candidate with this id. */
  predicate FirstWithId(items: seq<Upstream>, id: string, k: nat) {
    && k < |items| && items[k].id == id
    && forall j | 0 <= j < k :: items[j].id != id
  }

  predicate HasId(items: seq<Upstream>, id: string) {
    exists k | 0 <= k < |items| :: items[k].id == id
  }

  /** What `max_by_key` finds: the last of the greatest. */
  predicate IsLastMax(scores: seq<nat>, k: nat) {
    && k < |scores|
    && (forall j | 0 <= j < |scores| :: scores[j] <= scores[k])
    && forall j | k < j < |scores| :: scores[j] < scores[k]
  }

  /** Another candidate is better than the one called `id` by more than the tolerance. */
  predicate Overtaken(items: seq<Upstream>, e: Readings, id: string, tolerance: nat)
    requires |e.ranking| == |items|
  {
    e.best > e.current + tolerance && exists b | 0 <= b < |items| :: IsLastMax(e.ranking, b) && items[b].id != id
  }

  /**
   With all scores read at one moment: a switch happens exactly when some candidate is better by
   more than the tolerance.
   */
  lemma OvertakenMeansBeaten(items: seq<Upstream>, e: Readings, scores: seq<nat>, k: nat, tolerance: nat)
    requires |scores| == |items| && k < |items| && OneMoment(e, scores, k)
    requires forall i | 0 <= i < |items| && items[i].id == items[k].id :: scores[i] == scores[k]
    ensures Overtaken(items, e, items[k].id, tolerance) <==>
              exists j | 0 <= j < |items| :: scores[j] > scores[k] + tolerance
  {
    var b := LastMax(scores);
    assert scores[b] == e.best by {
      var j :| 0 <= j < |scores| && scores[j] == e.best;
    }
  }

  lemma {:induction false} LastMax(scores: seq<nat>) returns (b: nat)
    requires scores != []
    ensures IsLastMax(scores, b)
  {
    if |scores| == 1 {
      b := 0;
    } else {
      var n := |scores| - 1;
      b := LastMax(scores[..n]);
      if scores[n] >= scores[b] {
        b := n;
      }
    }
  }

  lemma LastMaxInRange(scores: seq<nat>, k: nat)
    requires IsLastMax(scores, k)
    ensures k < |scores|
  {
  }

  lemma LastMaxIsUnique(scores: seq<nat>, a: nat, b: nat)
    requires IsLastMax(scores, a) && IsLastMax(scores, b)
    ensures a == b
  {
    assert scores[a] <= scores[b] && scores[b] <= scores[a];
  }

  lemma OvertakenByBest(items: seq<Upstream>, e: Readings, id: string, tolerance: nat, best: nat)
    requires |e.ranking| == |items| && IsLastMax(e.ranking, best)
    ensures Overtaken(items, e, id, tolerance) <==> e.best > e.current + tolerance && items[best].id != id
  {
    forall b: nat | IsLastMax(e.ranking, b)
      ensures b == best
    {
      LastMaxIsUnique(e.ranking, b, best);
    }
  }

  method BestIndex(scores: seq<nat>) returns (k: nat)
    requires scores != []
    ensures IsLastMax(scores, k)
  {
    k := 0;
    for i := 1 to |scores|
      invariant k < i
      invariant forall j | 0 <= j < i :: scores[j] <= scores[k]
      invariant forall j | k < j < i :: scores[j] < scores[k]
    {
      if scores[i] >= scores[k] {
        k := i;
      }
    }
  }

  method FindById(items: seq<Upstream>, id: string) returns (k: Option<nat>)
    ensures k.Some? ==> FirstWithId(items, id, k.value)
    ensures k.None? <==> !HasId(items, id)
  {
    for i := 0 to |items|
      invariant forall j | 0 <= j < i :: items[j].id != id
    {
      if items[i].id == id {
        return Some(i);
      }
    }
    return None;
  }

  method Uninitialised(initialised: seq<bool>) returns (indices: seq<nat>)
    ensures forall k | 0 <= k < |indices| :: indices[k] < |initialised| && !initialised[indices[k]]
    ensures indices == [] <==> forall i | 0 <= i < |initialised| :: initialised[i]
  {
    indices := [];
    for i := 0 to |initialised|
      invariant forall k | 0 <= k < |indices| :: indices[k] < i && !initialised[indices[k]]
      invariant indices == [] <==> forall j | 0 <= j < i :: initialised[j]
    {
      if !initialised[i] {
        indices := indices + [i];
      }
    }
  }

  method Candidates(items: seq<Upstream>, exclude: set<string>) returns (candidates: seq<Upstream>)
    ensures forall u :: u in candidates <==> u in items && u.id !in exclude
  {
    candidates := [];
    for i := 0 to |items|
      invariant forall u :: u in candidates <==> u in items[..i] && u.id !in exclude
    {
      assert items[..i + 1] == items[..i] + [items[i]];
      if items[i].id !in exclude {
        candidates := candidates + [items[i]];
      }
    }
    assert items[..|items|] == items;
  }

  class UpstreamSet {
    const groups: map<string, seq<Upstream>>
    const tolerance: nat
    var current: map<string, string>
    var recorded: seq<string>

    /** Every upstream is entered under each of its groups, in order. */
    constructor (items: seq<Upstream>, tolerance: nat)
      ensures this.tolerance == tolerance && current == map[] && recorded == []
      ensures groups == Grouped(items)
    {
      var g: map<string, seq<Upstream>> := map[];
      for i := 0 to |items|
        invariant g == Grouped(items[..i])
      {
        assert items[..i + 1][..i] == items[..i];
        var up := items[i];
        for k := 0 to |up.groups|
          invariant g == Entered(Grouped(items[..i]), up, up.groups[..k])
        {
          assert up.groups[..k + 1][..k] == up.groups[..k];
          g := g[up.groups[k] := GroupOf(g, up.groups[k]) + [up]];
        }
        assert up.groups[..|up.groups|] == up.groups;
      }
      assert items[..|items|] == items;
      groups := g;
      this.tolerance := tolerance;
      current := map[];
      recorded := [];
    }

    /** A choice is remembered for the group and counted. */
    method Remember(group: string, up: Upstream)
      modifies this
      ensures current == old(current)[group := up.id]
      ensures recorded == old(recorded) + [up.id]
    {
      current := current[group := up.id];
      recorded := recorded + [up.id];
    }

    /** The remembered choice of the group is a candidate. */
    ghost predicate HasSticky(items: seq<Upstream>, group: string)
      reads this
    {
      tolerance > 0 && group in current && HasId(items, current[group])
    }

    method PickWeighted(items: seq<Upstream>, group: string, e: Readings) returns (r: Option<Upstream>, branch: Branch)
      requires Fits(e, |items|)
      modifies this
      ensures r.None? <==> items == []
      ensures r.None? ==> current == old(current) && recorded == old(recorded)
      ensures r.Some? ==> r.value in items
      ensures r.Some? ==> current == old(current)[group := r.value.id] && recorded == old(recorded) + [r.value.id]
      // exploration goes to a candidate without measurements
      ensures |items| >= 2 && e.explore && false in e.initialised ==>
                exists k | 0 <= k < |items| :: !e.initialised[k] && r.value == items[k]
      // otherwise the remembered candidate stays unless it is overtaken
      ensures (|items| >= 2 && (!e.explore || false !in e.initialised) && old(HasSticky(items, group))
               && !Overtaken(items, e, old(current)[group], tolerance)) ==> r.value.id == old(current)[group]
      // and else the draw decides
      ensures (2 <= |items| <= EXACT_CANDIDATES && (!e.explore || false !in e.initialised)
               && (!old(HasSticky(items, group)) || Overtaken(items, e, old(current)[group], tolerance))) ==>
                && 0 < Sum(Weights(e.weighing)) <= U64_MAX
                && r.value == items[Owner(Weights(e.weighing), Below(Sum(Weights(e.weighing)), e.seed))]
      ensures (2 <= |items| <= 184_467 && (!e.explore || false !in e.initialised)
               && (tolerance == 0 || group !in old(current))) ==>
                r.value == items[Owner(Weights(e.weighing), Below(Sum(Weights(e.weighing)), e.seed))]
      ensures branch != FirstByDefault && (|items| <= EXACT_CANDIDATES ==> branch == Drawn)
    {
      hide Sum, Owner, Weights, Below, Overtaken, IsLastMax;
      branch := Drawn;
      if |items| == 0 {
        return None, branch;
      }
      if |items| == 1 {
        Remember(group, items[0]);
        return Some(items[0]), branch;
      }
      var untried := Uninitialised(e.initialised);
      if untried != [] && e.explore {
        var k := untried[Below(|untried|, e.seed)];
        Remember(group, items[k]);
        return Some(items[k]), branch;
      }
      var best := BestIndex(e.ranking);
      assert best < |items| by { LastMaxInRange(e.ranking, best); }
      if group in current {
        OvertakenByBest(items, e, current[group], tolerance, best);
      }
      if tolerance > 0 && group in current {
        var sticky := FindById(items, current[group]);
        if sticky.Some? {
          var cur := items[sticky.value];
          if !(items[best].id != cur.id && e.best > e.current + tolerance) {
            recorded := recorded + [cur.id];
            return Some(cur), branch;
          }
        }
      }
      TotalFits(e.weighing);
      assert |items| <= EXACT_CANDIDATES ==> |items| * (MAX_SCORE * MAX_SCORE) <= U64_MAX;
      var i;
      i, branch := WeightedIndex(Weights(e.weighing), e.seed);
      Remember(group, items[i]);
      return Some(items[i]), branch;
    }

    /** `pick_from_group` and `pick_excluding_many_from_group`: a pick among the members that are not excluded. */
    method PickFromGroup(
      group: string, exclude: set<string>, env: seq<Upstream> -> Readings) returns (r: Option<Upstream>)
      requires forall items :: Fits(env(items), |items|)
      modifies this
      ensures r.None? <==> forall u | u in GroupOf(groups, group) :: u.id in exclude
      ensures r.Some? ==> r.value in GroupOf(groups, group) && r.value.id !in exclude
      ensures current == if r.Some? then old(current)[group := r.value.id] else old(current)
      ensures recorded == old(recorded) + if r.Some? then [r.value.id] else []
    {
      hide Sum, Owner, Weights, Below, Overtaken, HasId, Fits;
      if group !in groups {
        return None;
      }
      var items := groups[group];
      var branch;
      if exclude == {} {
        r, branch := PickWeighted(items, group, env(items));
        assert items != [] ==> items[0] in items;
        return;
      }
      var candidates := Candidates(items, exclude);
      if candidates == [] {
        return None;
      }
      assert candidates[0] in candidates;
      r, branch := PickWeighted(candidates, group, env(candidates));
    }
  }

  function GroupOf(groups: map<string, seq<Upstream>>, name: string): seq<Upstream> {
    if name in groups then groups[name] else []
  }

  function Entered(groups: map<string, seq<Upstream>>, up: Upstream, names: seq<string>): map<string, seq<Upstream>> {
    if names == [] then groups
    else
      var g := Entered(groups, up, names[..|names| - 1]);
      var name := names[|names| - 1];
      g[name := GroupOf(g, name) + [up]]
  }

  function Grouped(items: seq<Upstream>): map<string, seq<Upstream>> {
    if items == [] then map[]
    else
      var up := items[|items| - 1];
      Entered(Grouped(items[..|items| - 1]), up, up.groups)
  }

  lemma {:induction false} EnteredMembers(
    groups: map<string, seq<Upstream>>, up: Upstream, names: seq<string>, name: string)
    ensures forall u :: u in GroupOf(Entered(groups, up, names), name) <==>
              u in GroupOf(groups, name) || (u == up && name in names)
    decreases |names|
  {
    if names == [] {
    } else {
      var before, last := names[..|names| - 1], names[|names| - 1];
      var group := GroupOf(Entered(groups, up, before), name);
      EnteredMembers(groups, up, before, name);
      assert names == before + [last];
      assert GroupOf(Entered(groups, up, names), name) == if last == name then group + [up] else group;
    }
  }

  /** A group holds exactly the upstreams that name it. */
  lemma {:induction false} GroupMembers(items: seq<Upstream>, name: string)
    ensures forall u :: u in GroupOf(Grouped(items), name) <==> u in items && name in u.groups
    ensures name in Grouped(items) ==> Grouped(items)[name] != []
    decreases |items|
  {
    if items == [] {
    } else {
      var before, up := items[..|items| - 1], items[|items| - 1];
      GroupMembers(before, name);
      EnteredMembers(Grouped(before), up, up.groups, name);
      EnteredNonEmpty(Grouped(before), up, up.groups, name);
      assert items == before + [up];
    }
  }

  lemma {:induction false} EnteredNonEmpty(
    groups: map<string, seq<Upstream>>, up: Upstream, names: seq<string>, name: string)
    requires name in groups ==> groups[name] != []
    ensures name in Entered(groups, up, names) ==> Entered(groups, up, names)[name] != []
    decreases |names|
  {
    if names == [] {
    } else {
      EnteredNonEmpty(groups, up, names[..|names| - 1], name);
    }
  }
}
