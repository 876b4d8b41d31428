/**
 The sliding-window pick statistics (src/upstream.rs): picks are counted in time buckets and
 in running totals, and whole buckets leave at the old end.
 */
module PickStats {
  import opened Common

  const PICK_STATS_BUCKET_SECS: nat := 10

  function BucketSecs(window: nat): (secs: nat)
    ensures 1 <= secs <= 10
    ensures window > 0 ==> secs <= window && (secs == window || secs == 10)
  {
    Max(Min(PICK_STATS_BUCKET_SECS, window), 1)
  }

  function SaturatingAdd(a: nat, b: nat): nat {
    Min(a + b, U64_MAX)
  }

  /** The start of the bucket that covers `now`. */
  function BucketStart(now: nat, secs: nat): (start: nat)
    requires secs > 0
    ensures start <= now < start + secs
    ensures OnGrid(start, secs)
  {
    assert OnGrid(Grid(now / secs, secs), secs);
    now / secs * secs
  }

  function Grid(k: nat, secs: nat): nat {
    k * secs
  }

  ghost predicate OnGrid(start: nat, secs: nat) {
    exists k :: start == Grid(k, secs)
  }

  // ----- the meaning: a list of picks, each filed under the start of a bucket

  datatype Pick = Pick(now: nat, index: nat)
  datatype Filed = Filed(start: nat, pick: Pick)

  /** How many of the picks chose upstream `index`. */
  function Tally(live: seq<Filed>, index: nat): nat {
    if live == [] then 0 else (if live[0].pick.index == index then 1 else 0) + Tally(live[1..], index)
  }

  predicate Expired(start: nat, secs: nat, cutoff: nat) {
    start + secs <= cutoff
  }

  /** The picks whose bucket has not expired. */
  function Kept(live: seq<Filed>, secs: nat, cutoff: nat): seq<Filed> {
    if live == [] then [] else
      (if Expired(live[0].start, secs, cutoff) then [] else [live[0]]) + Kept(live[1..], secs, cutoff)
  }

  /** One record: expired picks leave, and the new one is filed, at the newest bucket if the clock ran back. */
  function Record(live: seq<Filed>, window: nat, p: Pick): seq<Filed> {
    var secs := BucketSecs(window);
    var kept := Kept(live, secs, SaturatingSub(p.now, window));
    var start := BucketStart(p.now, secs);
    kept + [Filed(if kept == [] then start else Max(start, kept[|kept| - 1].start), p)]
  }

  function RecordAll(window: nat, picks: seq<Pick>): seq<Filed> {
    if picks == [] then [] else Record(RecordAll(window, picks[..|picks| - 1]), window, picks[|picks| - 1])
  }

  lemma {:induction false} TallyAppend(a: seq<Filed>, b: seq<Filed>, index: nat)
    ensures Tally(a + b, index) == Tally(a, index) + Tally(b, index)
    decreases |a|
  {
    if a == [] {
      assert a + b == b;
    } else {
      assert (a + b)[1..] == a[1..] + b;
      TallyAppend(a[1..], b, index);
    }
  }

  lemma {:induction false} KeptAppend(a: seq<Filed>, b: seq<Filed>, secs: nat, cutoff: nat)
    ensures Kept(a + b, secs, cutoff) == Kept(a, secs, cutoff) + Kept(b, secs, cutoff)
    decreases |a|
  {
    if a == [] {
      assert a + b == b;
    } else {
      assert (a + b)[1..] == a[1..] + b;
      KeptAppend(a[1..], b, secs, cutoff);
    }
  }

  lemma {:induction false} KeptNone(a: seq<Filed>, secs: nat, cutoff: nat)
    requires forall f | f in a :: Expired(f.start, secs, cutoff)
    ensures Kept(a, secs, cutoff) == []
  {
    if a == [] {
    } else {
      KeptNone(a[1..], secs, cutoff);
    }
  }

  lemma {:induction false} KeptEverything(a: seq<Filed>, secs: nat, cutoff: nat)
    requires forall f | f in a :: !Expired(f.start, secs, cutoff)
    ensures Kept(a, secs, cutoff) == a
  {
    if a == [] {
    } else {
      KeptEverything(a[1..], secs, cutoff);
    }
  }

  // ----- the counters

  datatype Bucket = Bucket(start: nat, counts: seq<nat>)

  /** The sum over the buckets of the counts of one upstream. */
  function SumAt(buckets: seq<Bucket>, index: nat): nat
    requires forall b | b in buckets :: index < |b.counts|
  {
    if buckets == [] then 0 else buckets[0].counts[index] + SumAt(buckets[1..], index)
  }

  function Flatten(groups: seq<seq<Filed>>): seq<Filed> {
    if groups == [] then [] else groups[0] + Flatten(groups[1..])
  }

  predicate Describes(b: Bucket, group: seq<Filed>, n: nat) {
    && |b.counts| == n
    && (forall f | f in group :: f.start == b.start && f.pick.index < n)
    && forall i | 0 <= i < n :: b.counts[i] == Tally(group, i)
  }

  predicate StartsGrow(buckets: seq<Bucket>) {
    forall i, j | 0 <= i < j < |buckets| :: buckets[i].start < buckets[j].start
  }

  ghost predicate Aligned(buckets: seq<Bucket>, secs: nat) {
    forall i | 0 <= i < |buckets| :: OnGrid(buckets[i].start, secs)
  }

  predicate Grouped(buckets: seq<Bucket>, groups: seq<seq<Filed>>, n: nat) {
    && |buckets| == |groups|
    && forall b | 0 <= b < |buckets| :: Describes(buckets[b], groups[b], n)
  }

  predicate NoneEmpty(groups: seq<seq<Filed>>) {
    forall k | 0 <= k < |groups| :: groups[k] != []
  }

  lemma {:induction false} FlattenAppend(groups: seq<seq<Filed>>, last: seq<Filed>)
    ensures Flatten(groups + [last]) == Flatten(groups) + last
  {
    if groups == [] {
      assert Flatten([last]) == last + Flatten([]);
    } else {
      assert (groups + [last])[1..] == groups[1..] + [last];
      FlattenAppend(groups[1..], last);
    }
  }

  lemma {:induction false} FlattenStarts(buckets: seq<Bucket>, groups: seq<seq<Filed>>, n: nat, low: nat)
    requires Grouped(buckets, groups, n)
    requires forall b | b in buckets :: low <= b.start
    ensures forall f | f in Flatten(groups) :: low <= f.start && f.pick.index < n
    ensures groups != [] && NoneEmpty(groups) ==>
              Flatten(groups) != [] && Flatten(groups)[|Flatten(groups)| - 1].start == buckets[|buckets| - 1].start
  {
    if groups == [] {
    } else {
      assert Describes(buckets[0], groups[0], n);
      assert NoneEmpty(groups) ==> NoneEmpty(groups[1..]) && groups[0] != [];
      FlattenStarts(buckets[1..], groups[1..], n, low);
    }
  }

  lemma {:induction false} SumIsTally(buckets: seq<Bucket>, groups: seq<seq<Filed>>, n: nat, index: nat)
    requires Grouped(buckets, groups, n) && index < n
    ensures SumAt(buckets, index) == Tally(Flatten(groups), index)
  {
    if groups == [] {
    } else {
      TallyAppend(groups[0], Flatten(groups[1..]), index);
      SumIsTally(buckets[1..], groups[1..], n, index);
    }
  }

  class PickStats {
    const window: nat
    const secs: nat
    const n: nat
    var buckets: seq<Bucket>
    var totals: seq<nat>
    ghost var groups: seq<seq<Filed>>

    ghost predicate Valid()
      reads this
    {
      && 0 < window <= U64_MAX
      && secs == BucketSecs(window)
      && |totals| == n
      && StartsGrow(buckets) && Aligned(buckets, secs)
      && Grouped(buckets, groups, n)
      && NoneEmpty(groups)
      && (forall i | 0 <= i < n :: totals[i] == Tally(Live(), i))
      && (buckets != [] ==> buckets[|buckets| - 1].start < buckets[0].start + window + secs)
    }

    /** The picks that are still counted, oldest first. */
    ghost function Live(): seq<Filed>
      reads this
    {
      Flatten(groups)
    }

    /** `UpstreamSet::new` makes these counters only for a positive window. */
    constructor (window: nat, n: nat)
      requires 0 < window <= U64_MAX
      ensures Valid() && Live() == [] && this.window == window && this.n == n
    {
      this.window := window;
      this.n := n;
      secs := BucketSecs(window);
      buckets := [];
      totals := seq(n, _ => 0);
      groups := [];
    }

    /** Drops the first bucket and takes its counts out of the totals. */
    method DropFirst()
      requires Valid() && buckets != []
      modifies this
      ensures Valid() && buckets == old(buckets)[1..] && groups == old(groups)[1..]
      ensures old(Live()) == old(groups)[0] + Live()
    {
      hide Tally;
      var expired := buckets[0];
      assert NoneEmpty(groups[1..]);
      assert Live() == groups[0] + Flatten(groups[1..]);
      ghost var before := totals;
      assert Describes(buckets[0], groups[0], n);
      forall i | 0 <= i < n
        ensures totals[i] == expired.counts[i] + Tally(Flatten(groups[1..]), i)
      {
        TallyAppend(groups[0], Flatten(groups[1..]), i);
      }
      buckets := buckets[1..];
      groups := groups[1..];
      for i := 0 to n
        invariant |totals| == n
        invariant forall j | 0 <= j < i :: totals[j] == before[j] - expired.counts[j]
        invariant forall j | i <= j < n :: totals[j] == before[j]
        invariant buckets == old(buckets)[1..] && groups == old(groups)[1..]
      {
        assert totals[i] >= expired.counts[i];
        totals := totals[i := SaturatingSub(totals[i], expired.counts[i])];
      }
    }

    method Evict(cutoff: nat)
      requires Valid() && cutoff < U64_MAX
      modifies this
      ensures Valid()
      ensures Live() == Kept(old(Live()), secs, cutoff)
      ensures buckets != [] ==> !Expired(buckets[0].start, secs, cutoff)
    {
      while buckets != [] && SaturatingAdd(buckets[0].start, secs) <= cutoff
        invariant Valid()
        invariant Kept(Live(), secs, cutoff) == Kept(old(Live()), secs, cutoff)
        decreases |buckets|
      {
        ghost var first := groups[0];
        assert Describes(buckets[0], groups[0], n);
        KeptNone(first, secs, cutoff);
        DropFirst();
        KeptAppend(first, Live(), secs, cutoff);
      }
      if buckets != [] {
        FlattenStarts(buckets, groups, n, buckets[0].start);
      }
      KeptEverything(Live(), secs, cutoff);
    }

    /** Makes sure that the last bucket is the one to count in: that of `start`, or a newer one. */
    method OpenBucket(start: nat)
      requires Valid() && OnGrid(start, secs)
      requires buckets != [] ==> start < buckets[0].start + window + secs
      modifies this`buckets, this`groups
      ensures buckets != [] && StartsGrow(buckets) && Aligned(buckets, secs) && Grouped(buckets, groups, n)
      ensures NoneEmpty(groups[..|groups| - 1])
      ensures Live() == old(Live())
      ensures buckets[|buckets| - 1].start == if Live() == [] then start else Max(start, Live()[|Live()| - 1].start)
      ensures buckets[|buckets| - 1].start < buckets[0].start + window + secs
    {
      hide Tally, Flatten, BucketSecs, OnGrid, Describes, Aligned;
      FlattenStarts(buckets, groups, n, 0);
      assert groups == [] ==> Live() == [] by { EmptyFlatten(); }
      var useExisting := buckets != [] && buckets[|buckets| - 1].start > start;
      if !useExisting && (buckets == [] || buckets[|buckets| - 1].start != start) {
        var newest := Bucket(start, seq(n, _ => 0));
        PushBucket(buckets, groups, newest, n, secs);
        buckets := buckets + [newest];
        groups := groups + [[]];
      }
    }

    method RecordAt(now: nat, index: nat)
      requires Valid() && index < n && now <= U64_MAX
      modifies this
      ensures Valid()
      ensures Live() == Record(old(Live()), window, Pick(now, index))
    {
      hide Kept, Tally, BucketSecs, BucketStart, Flatten, OnGrid;
      var start := BucketStart(now, secs);
      Evict(SaturatingSub(now, window));
      ghost var kept := Live();
      OpenBucket(start);
      ghost var b := |buckets| - 1;
      ghost var f := Filed(buckets[b].start, Pick(now, index));
      AddToLast(buckets, groups, f, n);
      TallyOneMore(kept, f);
      groups := groups[..b] + [groups[b] + [f]];
      buckets := Bumped(buckets, index);
      totals := totals[index := totals[index] + 1];
    }
  }

  lemma EmptyFlatten()
    ensures Flatten([]) == []
  {
  }

  /** The last bucket counts one pick more. */
  function Bumped(buckets: seq<Bucket>, index: nat): seq<Bucket>
    requires buckets != [] && index < |buckets[|buckets| - 1].counts|
  {
    var b := |buckets| - 1;
    var counts := buckets[b].counts;
    buckets[b := buckets[b].(counts := counts[index := counts[index] + 1])]
  }

  lemma ZeroDescribes(b: Bucket, n: nat)
    requires b.counts == seq(n, _ => 0)
    ensures Describes(b, [], n)
  {
  }

  lemma PushBucket(buckets: seq<Bucket>, groups: seq<seq<Filed>>, newest: Bucket, n: nat, secs: nat)
    requires Grouped(buckets, groups, n) && StartsGrow(buckets) && Aligned(buckets, secs)
    requires newest.counts == seq(n, _ => 0) && OnGrid(newest.start, secs)
    requires buckets != [] ==> buckets[|buckets| - 1].start < newest.start
    ensures Grouped(buckets + [newest], groups + [[]], n)
    ensures StartsGrow(buckets + [newest]) && Aligned(buckets + [newest], secs)
    ensures Flatten(groups + [[]]) == Flatten(groups)
  {
    hide OnGrid, Describes, Flatten;
    FlattenAppend(groups, []);
    ZeroDescribes(newest, n);
  }

  lemma TallyOneMore(live: seq<Filed>, f: Filed)
    ensures forall i: nat :: Tally(live + [f], i) == Tally(live, i) + if i == f.pick.index then 1 else 0
  {
    forall i: nat
      ensures Tally(live + [f], i) == Tally(live, i) + if i == f.pick.index then 1 else 0
    {
      TallyAppend(live, [f], i);
      assert Tally([f], i) == if i == f.pick.index then 1 else 0;
    }
  }

  lemma AddToLast(buckets: seq<Bucket>, groups: seq<seq<Filed>>, f: Filed, n: nat)
    requires buckets != [] && Grouped(buckets, groups, n)
    requires f.start == buckets[|buckets| - 1].start && f.pick.index < n
    ensures var b := |groups| - 1; var after := groups[..b] + [groups[b] + [f]];
            && Flatten(after) == Flatten(groups) + [f]
            && Grouped(Bumped(buckets, f.pick.index), after, n)
  {
    hide Tally;
    var b := |groups| - 1;
    assert groups == groups[..b] + [groups[b]];
    FlattenAppend(groups[..b], groups[b]);
    FlattenAppend(groups[..b], groups[b] + [f]);
    TallyOneMore(groups[b], f);
    assert Describes(buckets[b], groups[b], n);
  }

  // ----- what the counters say

  /** Buckets in order and on the grid are at least one width apart. */
  lemma {:induction false} BucketsAreApart(buckets: seq<Bucket>, secs: nat, k: nat)
    requires secs > 0 && StartsGrow(buckets) && Aligned(buckets, secs) && k < |buckets|
    ensures buckets[0].start + k * secs <= buckets[k].start
  {
    if k == 0 {
    } else {
      BucketsAreApart(buckets, secs, k - 1);
      NextOnGrid(buckets[k - 1].start, buckets[k].start, secs);
      assert k * secs == (k - 1) * secs + secs;
    }
  }

  lemma NextOnGrid(a: nat, b: nat, secs: nat)
    requires OnGrid(a, secs) && OnGrid(b, secs) && a < b
    ensures a + secs <= b
  {
    var x: nat :| a == Grid(x, secs);
    var y: nat :| b == Grid(y, secs);
    assert x < y by { Times(y, x, secs); }
    Times(x + 1, y, secs);
    assert Grid(x + 1, secs) == Grid(x, secs) + secs;
  }

  lemma Times(x: nat, y: nat, secs: nat)
    ensures x <= y ==> Grid(x, secs) <= Grid(y, secs)
  {
    assert x <= y ==> (y - x) * secs >= 0;
  }

  /** All records of a run, whatever the clock does. */
  method CountPicks(window: nat, n: nat, picks: seq<Pick>) returns (totals: seq<nat>, buckets: seq<Bucket>)
    requires 0 < window <= U64_MAX
    requires forall p | p in picks :: p.now <= U64_MAX && p.index < n
    ensures |totals| == n && forall b | b in buckets :: |b.counts| == n
    ensures forall i | 0 <= i < n :: totals[i] == SumAt(buckets, i) == Tally(RecordAll(window, picks), i)
    ensures StartsGrow(buckets)
    ensures buckets != [] ==> (|buckets| - 1) * BucketSecs(window) < window + BucketSecs(window)
  {
    hide Tally, BucketSecs, Record;
    var stats := new PickStats(window, n);
    for k := 0 to |picks|
      invariant stats.Valid() && stats.window == window && stats.n == n && fresh(stats)
      invariant stats.Live() == RecordAll(window, picks[..k])
    {
      assert picks[..k + 1][..k] == picks[..k] && picks[..k + 1][k] == picks[k];
      assert RecordAll(window, picks[..k + 1]) == Record(RecordAll(window, picks[..k]), window, picks[k]);
      stats.RecordAt(picks[k].now, picks[k].index);
    }
    assert picks[..|picks|] == picks;
    totals, buckets := stats.totals, stats.buckets;
    forall i | 0 <= i < n
      ensures SumAt(buckets, i) == Tally(stats.Live(), i)
    {
      SumIsTally(buckets, stats.groups, n, i);
    }
    if buckets != [] {
      BucketsAreApart(buckets, stats.secs, |buckets| - 1);
    }
  }

  // any clock

  predicate Sorted(live: seq<Filed>) {
    forall i, j | 0 <= i <= j < |live| :: live[i].start <= live[j].start
  }

  lemma {:induction false} KeptIsSuffix(live: seq<Filed>, secs: nat, cutoff: nat) returns (k: nat)
    requires Sorted(live)
    ensures k <= |live| && Kept(live, secs, cutoff) == live[k..]
    ensures forall i | 0 <= i < |live| :: i < k <==> Expired(live[i].start, secs, cutoff)
  {
    if live == [] {
      k := 0;
    } else if Expired(live[0].start, secs, cutoff) {
      k := KeptIsSuffix(live[1..], secs, cutoff);
      k := k + 1;
    } else {
      KeptEverything(live, secs, cutoff);
      k := 0;
    }
  }

  function PicksOf(live: seq<Filed>): (picks: seq<Pick>)
    ensures |picks| == |live|
  {
    seq(|live|, i requires 0 <= i < |live| => live[i].pick)
  }

  /** `live` holds the newest of the picks, in order. */
  predicate AreNewest(live: seq<Filed>, picks: seq<Pick>) {
    && Sorted(live)
    && |live| <= |picks|
    && PicksOf(live) == picks[|picks| - |live|..]
    && (picks != [] ==> live != [])
  }

  lemma NewestDropped(live: seq<Filed>, picks: seq<Pick>, k: nat)
    requires AreNewest(live, picks) && k < |live|
    ensures AreNewest(live[k..], picks)
  {
    assert PicksOf(live[k..]) == PicksOf(live)[k..];
  }

  lemma NewestOneMore(live: seq<Filed>, picks: seq<Pick>, f: Filed)
    requires live == [] || AreNewest(live, picks)
    requires live != [] ==> live[|live| - 1].start <= f.start
    ensures AreNewest(live + [f], picks + [f.pick])
  {
    assert PicksOf(live + [f]) == PicksOf(live) + [f.pick];
  }

  /** Whatever the clock does, the newest picks are the ones counted, and the last one always is. */
  lemma {:induction false} NewestAreCounted(window: nat, picks: seq<Pick>)
    ensures AreNewest(RecordAll(window, picks), picks)
    decreases |picks|
  {
    hide Kept, BucketSecs, BucketStart, OnGrid, Expired;
    if picks == [] {
    } else {
      var before, p := picks[..|picks| - 1], picks[|picks| - 1];
      var live := RecordAll(window, before);
      NewestAreCounted(window, before);
      RecordKeepsNewest(live, before, window, p);
      assert picks == before + [p];
    }
  }

  lemma RecordKeepsNewest(live: seq<Filed>, before: seq<Pick>, window: nat, p: Pick)
    requires AreNewest(live, before)
    ensures AreNewest(Record(live, window, p), before + [p])
  {
    hide Kept, BucketSecs, BucketStart, OnGrid, Expired, AreNewest;
    assert Sorted(live) by { SortedIfNewest(live, before); }
    var k := KeptIsSuffix(live, BucketSecs(window), SaturatingSub(p.now, window));
    var after := Record(live, window, p);
    if k < |live| {
      NewestDropped(live, before, k);
    }
    NewestOneMore(live[k..], before, after[|after| - 1]);
  }

  lemma SortedIfNewest(live: seq<Filed>, picks: seq<Pick>)
    requires AreNewest(live, picks)
    ensures Sorted(live)
  {
  }

  // a clock that does not run back

  predicate ClockGrows(picks: seq<Pick>) {
    forall i, j | 0 <= i <= j < |picks| :: picks[i].now <= picks[j].now
  }

  /** Every pick under the bucket of its own time. */
  function FiledAtOwnTime(picks: seq<Pick>, secs: nat): seq<Filed>
    requires secs > 0
  {
    seq(|picks|, i requires 0 <= i < |picks| => Filed(BucketStart(picks[i].now, secs), picks[i]))
  }

  lemma {:induction false} KeptTwice(a: seq<Filed>, secs: nat, low: nat, high: nat)
    requires low <= high
    ensures Kept(Kept(a, secs, low), secs, high) == Kept(a, secs, high)
  {
    if a == [] {
    } else {
      var rest := Kept(a[1..], secs, low);
      KeptTwice(a[1..], secs, low, high);
      if Expired(a[0].start, secs, low) {
        assert [] + rest == rest;
      } else {
        assert ([a[0]] + rest)[1..] == rest;
      }
    }
  }

  lemma {:induction false} KeptIsSubset(a: seq<Filed>, secs: nat, cutoff: nat)
    ensures forall f :: f in Kept(a, secs, cutoff) <==> f in a && !Expired(f.start, secs, cutoff)
  {
    if a == [] {
    } else {
      KeptIsSubset(a[1..], secs, cutoff);
      assert a == [a[0]] + a[1..];
    }
  }

  lemma StartsFollowTime(a: nat, b: nat, secs: nat)
    requires secs > 0 && a <= b
    ensures BucketStart(a, secs) <= BucketStart(b, secs)
  {
    hide BucketStart, OnGrid;
    var x, y := BucketStart(a, secs), BucketStart(b, secs);
    if y < x {
      NextOnGrid(y, x, secs);
    }
  }

  /** With a clock that does not run back, exactly the picks of unexpired buckets are counted. */
  lemma {:induction false} WindowIsExact(window: nat, picks: seq<Pick>)
    requires picks != [] && ClockGrows(picks)
    ensures var secs := BucketSecs(window);
            RecordAll(window, picks) ==
            Kept(FiledAtOwnTime(picks, secs), secs, SaturatingSub(picks[|picks| - 1].now, window))
    decreases |picks|
  {
    hide Kept, BucketSecs, BucketStart, OnGrid, FiledAtOwnTime;
    var secs := BucketSecs(window);
    var before, p := picks[..|picks| - 1], picks[|picks| - 1];
    var cutoff := SaturatingSub(p.now, window);
    var filed := FiledAtOwnTime(before, secs);
    var kept := Kept(filed, secs, cutoff);
    var last := Filed(BucketStart(p.now, secs), p);
    assert Kept(RecordAll(window, before), secs, cutoff) == kept by {
      NothingFiled(secs);
      if before != [] {
        WindowIsExact(window, before);
        KeptTwice(filed, secs, SaturatingSub(before[|before| - 1].now, window), cutoff);
      }
    }
    StartsBefore(before, p.now, secs, cutoff);
    assert RecordAll(window, picks) == kept + [last];
    assert picks == before + [p];
    FiledOneMore(before, p, secs);
    KeptAppend(filed, [last], secs, cutoff);
    KeptEverything([last], secs, cutoff);
  }

  lemma NothingFiled(secs: nat)
    requires secs > 0
    ensures FiledAtOwnTime([], secs) == []
  {
  }

  lemma FiledOneMore(picks: seq<Pick>, p: Pick, secs: nat)
    requires secs > 0
    ensures FiledAtOwnTime(picks + [p], secs) == FiledAtOwnTime(picks, secs) + [Filed(BucketStart(p.now, secs), p)]
  {
    hide BucketStart, OnGrid;
  }

  lemma StartsBefore(picks: seq<Pick>, now: nat, secs: nat, cutoff: nat)
    requires secs > 0 && forall p | p in picks :: p.now <= now
    ensures forall f | f in Kept(FiledAtOwnTime(picks, secs), secs, cutoff) :: f.start <= BucketStart(now, secs)
  {
    hide BucketStart, OnGrid;
    var filed := FiledAtOwnTime(picks, secs);
    KeptIsSubset(filed, secs, cutoff);
    forall f | f in filed
      ensures f.start <= BucketStart(now, secs)
    {
      StartsFollowTime(f.pick.now, now, secs);
    }
  }

  /** Hence all picks of the window count, and none that is a window and a bucket old. */
  lemma WindowIsKept(window: nat, picks: seq<Pick>, k: nat)
    requires k < |picks| && ClockGrows(picks)
    ensures var now := picks[|picks| - 1].now; var secs := BucketSecs(window);
            var f := Filed(BucketStart(picks[k].now, secs), picks[k]);
            && (picks[k].now + window >= now ==> f in RecordAll(window, picks))
            && (picks[k].now + window + secs <= now ==> forall g | g in RecordAll(window, picks) :: g.pick != picks[k])
  {
    WindowIsExact(window, picks);
    var secs := BucketSecs(window);
    var now := picks[|picks| - 1].now;
    var filed := FiledAtOwnTime(picks, secs);
    KeptIsSubset(filed, secs, SaturatingSub(now, window));
    assert filed[k] in filed;
  }
}
