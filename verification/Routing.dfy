/**
 Which group of upstreams serves a client (src/state.rs): routing tables by client network,
 destination network and domain, and the order in which they are asked.
 */
module Routing {
  import opened Common
  import opened Domains

  /** An address as its bits, most significant first; the two families have different widths. */
  datatype Addr = Addr(v6: bool, bits: seq<bool>)

  /** A network: the bits of its address that count. */
  datatype Net = Net(v6: bool, prefix: seq<bool>)

  predicate Covers(net: Net, ip: Addr) {
    net.v6 == ip.v6 && net.prefix <= ip.bits
  }

  datatype Entry<T> = Entry(net: Net, value: T)

  // ----- `sort_by_key(Reverse(..))`

  predicate LongestFirst<T(!new)>(xs: seq<T>, size: T -> nat) {
    forall i, j | 0 <= i < j < |xs| :: size(xs[i]) >= size(xs[j])
  }

  /** Stable insertion into a sorted list, longest first. */
  function Placed<T>(sorted: seq<T>, x: T, size: T -> nat): seq<T> {
    if sorted == [] then [x]
    else
      var n := |sorted| - 1;
      if size(sorted[n]) >= size(x) then sorted + [x] else Placed(sorted[..n], x, size) + [sorted[n]]
  }

  function Sorted<T>(xs: seq<T>, size: T -> nat): seq<T> {
    if xs == [] then [] else Placed(Sorted(xs[..|xs| - 1], size), xs[|xs| - 1], size)
  }

  lemma {:induction false} PlacedMembers<T>(sorted: seq<T>, x: T, size: T -> nat)
    ensures multiset(Placed(sorted, x, size)) == multiset(sorted) + multiset{x}
  {
    if sorted == [] {
    } else {
      var n := |sorted| - 1;
      assert sorted == sorted[..n] + [sorted[n]];
      if size(sorted[n]) < size(x) {
        PlacedMembers(sorted[..n], x, size);
      }
    }
  }

  lemma SortedOneMore<T(!new)>(sorted: seq<T>, x: T, size: T -> nat)
    requires LongestFirst(sorted, size) && forall y | y in sorted :: size(y) >= size(x)
    ensures LongestFirst(sorted + [x], size)
  {
  }

  lemma {:induction false} PlacedIsSorted<T(!new)>(sorted: seq<T>, x: T, size: T -> nat)
    requires LongestFirst(sorted, size)
    ensures LongestFirst(Placed(sorted, x, size), size)
  {
    if sorted == [] {
    } else {
      var n := |sorted| - 1;
      if size(sorted[n]) < size(x) {
        var p := Placed(sorted[..n], x, size);
        PlacedIsSorted(sorted[..n], x, size);
        PlacedMembers(sorted[..n], x, size);
        forall y | y in p
          ensures size(y) >= size(sorted[n])
        {
          assert y in multiset(p);
        }
        SortedOneMore(p, sorted[n], size);
      }
    }
  }

  /** Sorting keeps the entries and puts the longest first. */
  lemma {:induction false} SortKeeps<T(!new)>(xs: seq<T>, size: T -> nat)
    ensures LongestFirst(Sorted(xs, size), size)
    ensures multiset(Sorted(xs, size)) == multiset(xs)
  {
    if xs == [] {
    } else {
      var n := |xs| - 1;
      assert xs == xs[..n] + [xs[n]];
      SortKeeps(xs[..n], size);
      PlacedMembers(Sorted(xs[..n], size), xs[n], size);
      PlacedIsSorted(Sorted(xs[..n], size), xs[n], size);
    }
  }

  lemma SortHasSameMembers<T(!new)>(xs: seq<T>, size: T -> nat)
    ensures forall x :: x in Sorted(xs, size) <==> x in xs
  {
    SortKeeps(xs, size);
    forall x
      ensures x in Sorted(xs, size) <==> x in xs
    {
      assert x in Sorted(xs, size) <==> x in multiset(Sorted(xs, size));
      assert x in xs <==> x in multiset(xs);
    }
  }

  // ----- tables by network

  function PrefixLen<T>(e: Entry<T>): nat {
    |e.net.prefix|
  }

  /** The two lists of a table, one for each address family. */
  datatype Table<T> = Table(v4: seq<Entry<T>>, v6: seq<Entry<T>>)

  function Inserted<T>(t: Table<T>, e: Entry<T>): Table<T> {
    if e.net.v6 then t.(v6 := t.v6 + [e]) else t.(v4 := t.v4 + [e])
  }

  function Filled<T>(entries: seq<Entry<T>>): Table<T> {
    if entries == [] then Table([], []) else Inserted(Filled(entries[..|entries| - 1]), entries[|entries| - 1])
  }

  /** A table after all inserts and `finalize`. */
  function Build<T>(entries: seq<Entry<T>>): Table<T> {
    var t := Filled(entries);
    Table(Sorted(t.v4, PrefixLen), Sorted(t.v6, PrefixLen))
  }

  lemma {:induction false} FilledHolds<T(!new)>(entries: seq<Entry<T>>)
    ensures forall e :: e in Filled(entries).v4 <==> e in entries && !e.net.v6
    ensures forall e :: e in Filled(entries).v6 <==> e in entries && e.net.v6
  {
    if entries == [] {
    } else {
      var n := |entries| - 1;
      FilledHolds(entries[..n]);
      assert entries == entries[..n] + [entries[n]];
    }
  }

  /** `find_map_matching`: the first answer among the entries that cover the address. */
  function FindMap<T, R>(entries: seq<Entry<T>>, ip: Addr, f: T -> Option<R>): Option<R> {
    if entries == [] then None
    else if Covers(entries[0].net, ip) && f(entries[0].value).Some? then f(entries[0].value)
    else FindMap(entries[1..], ip, f)
  }

  /** Some entry covers the address and answers `r`, and none with a longer prefix answers at all. */
  ghost predicate LongestHit<T(!new), R>(entries: seq<Entry<T>>, ip: Addr, f: T -> Option<R>, r: R) {
    exists e | e in entries ::
      && Covers(e.net, ip) && f(e.value) == Some(r)
      && forall longer | longer in entries && Covers(longer.net, ip) && |longer.net.prefix| > |e.net.prefix| ::
                f(longer.value).None?
  }

  ghost predicate NoHit<T(!new), R>(entries: seq<Entry<T>>, ip: Addr, f: T -> Option<R>) {
    forall e | e in entries && Covers(e.net, ip) :: f(e.value).None?
  }

  ghost predicate Answers<T(!new), R>(entries: seq<Entry<T>>, ip: Addr, f: T -> Option<R>, r: Option<R>) {
    match r
    case Some(v) => LongestHit(entries, ip, f, v)
    case None => NoHit(entries, ip, f)
  }

  lemma HitAtHead<T(!new), R>(e: Entry<T>, rest: seq<Entry<T>>, ip: Addr, f: T -> Option<R>)
    requires Covers(e.net, ip) && f(e.value).Some? && forall x | x in rest :: PrefixLen(x) <= PrefixLen(e)
    ensures LongestHit([e] + rest, ip, f, f(e.value).value)
  {
    hide Covers;
    assert e in [e] + rest;
  }

  lemma HitBehind<T(!new), R>(e: Entry<T>, rest: seq<Entry<T>>, ip: Addr, f: T -> Option<R>, r: Option<R>)
    requires !(Covers(e.net, ip) && f(e.value).Some?) && Answers(rest, ip, f, r)
    ensures Answers([e] + rest, ip, f, r)
  {
    hide Covers;
    if r.Some? {
      assert LongestHit(rest, ip, f, r.value);
      assert LongestHit([e] + rest, ip, f, r.value);
    }
  }

  lemma {:induction false} FindMapSorted<T(!new), R>(entries: seq<Entry<T>>, ip: Addr, f: T -> Option<R>)
    requires LongestFirst(entries, PrefixLen)
    ensures Answers(entries, ip, f, FindMap(entries, ip, f))
  {
    hide Covers, LongestHit;
    if entries == [] {
    } else {
      var e, rest := entries[0], entries[1..];
      assert entries == [e] + rest;
      if Covers(e.net, ip) && f(e.value).Some? {
        HitAtHead(e, rest, ip, f);
      } else {
        FindMapSorted(rest, ip, f);
        HitBehind(e, rest, ip, f, FindMap(rest, ip, f));
      }
    }
  }

  function Family<T>(t: Table<T>, ip: Addr): seq<Entry<T>> {
    if ip.v6 then t.v6 else t.v4
  }

  function FindIn<T, R>(t: Table<T>, ip: Addr, f: T -> Option<R>): Option<R> {
    FindMap(Family(t, ip), ip, f)
  }

  lemma AnswersSame<T(!new), R>(xs: seq<Entry<T>>, ys: seq<Entry<T>>, ip: Addr, f: T -> Option<R>, r: Option<R>)
    requires Answers(xs, ip, f, r)
    requires forall e: Entry<T> | Covers(e.net, ip) :: e in xs <==> e in ys
    ensures Answers(ys, ip, f, r)
  {
    if r.Some? {
      assert LongestHit(xs, ip, f, r.value);
      assert LongestHit(ys, ip, f, r.value);
    }
  }

  /** Searching a finished table answers for the longest client prefix with an inner hit. */
  lemma FindIsLongest<T(!new), R>(entries: seq<Entry<T>>, ip: Addr, f: T -> Option<R>)
    ensures Answers(entries, ip, f, FindIn(Build(entries), ip, f))
  {
    var filled := Family(Filled(entries), ip);
    var list := Family(Build(entries), ip);
    FilledHolds(entries);
    SortKeeps(filled, PrefixLen);
    SortHasSameMembers(filled, PrefixLen);
    FindMapSorted(list, ip, f);
    hide Answers, FindMap;
    AnswersSame(list, entries, ip, f, FindMap(list, ip, f));
  }

  /** `lookup`: the value of the first entry that covers the address. */
  function Lookup<T>(t: Table<T>, ip: Addr): Option<T> {
    FindIn(t, ip, (v: T) => Some(v))
  }

  /** An entry covers the address and holds `v`, and no longer prefix covers it. */
  ghost predicate LongestCover<T(!new)>(entries: seq<Entry<T>>, ip: Addr, v: T) {
    exists e | e in entries ::
      && Covers(e.net, ip) && e.value == v
      && forall longer | longer in entries && Covers(longer.net, ip) :: |longer.net.prefix| <= |e.net.prefix|
  }

  ghost predicate NoCover<T(!new)>(entries: seq<Entry<T>>, ip: Addr) {
    forall e | e in entries :: !Covers(e.net, ip)
  }

  /** Plain lookup is longest-prefix matching. */
  lemma LookupIsLongest<T(!new)>(entries: seq<Entry<T>>, ip: Addr)
    ensures match Lookup(Build(entries), ip)
            case Some(v) => LongestCover(entries, ip, v)
            case None => NoCover(entries, ip)
  {
    hide Build, FindIn;
    var f := (v: T) => Some(v);
    FindIsLongest(entries, ip, f);
    var r := FindIn(Build(entries), ip, f);
    if r.Some? {
      assert LongestHit(entries, ip, f, r.value);
    }
  }

  /** Filling and finishing a table, as the state is built. */
  method BuildTable<T>(entries: seq<Entry<T>>) returns (t: Table<T>)
    ensures t == Build(entries)
  {
    t := Table([], []);
    for i := 0 to |entries|
      invariant t == Filled(entries[..i])
    {
      assert entries[..i + 1][..i] == entries[..i];
      t := Inserted(t, entries[i]);
    }
    assert entries[..|entries|] == entries;
    var v4 := SortEntries(t.v4);
    var v6 := SortEntries(t.v6);
    t := Table(v4, v6);
  }

  method SortEntries<T>(xs: seq<Entry<T>>) returns (sorted: seq<Entry<T>>)
    ensures sorted == Sorted(xs, PrefixLen)
  {
    sorted := [];
    for i := 0 to |xs|
      invariant sorted == Sorted(xs[..i], PrefixLen)
    {
      assert xs[..i + 1][..i] == xs[..i];
      sorted := Placed(sorted, xs[i], PrefixLen);
    }
    assert xs[..|xs|] == xs;
  }

  // ----- tables by domain

  datatype DomainTable = DomainTable(exact: map<string, string>, suffixes: seq<(string, string)>)

  /** A configured pattern and its group. */
  datatype Pattern = Pattern(key: string, group: string)

  function SuffixLen(s: (string, string)): nat {
    |s.0|
  }

  /** Some pattern holds no name; then the state is not built. */
  predicate HasEmptyPattern(patterns: seq<Pattern>) {
    exists p | p in patterns :: Canonical(p.key) == []
  }

  function ExactOf(patterns: seq<Pattern>): map<string, string> {
    if patterns == [] then map[]
    else
      var before, p := ExactOf(patterns[..|patterns| - 1]), patterns[|patterns| - 1];
      if IsSuffixPattern(p.key) then before else before[Canonical(p.key) := p.group]
  }

  function SuffixesOf(patterns: seq<Pattern>): seq<(string, string)> {
    if patterns == [] then []
    else
      var before, p := SuffixesOf(patterns[..|patterns| - 1]), patterns[|patterns| - 1];
      if IsSuffixPattern(p.key) then before + [(Canonical(p.key[1..]), p.group)] else before
  }

  function BuildDomains(patterns: seq<Pattern>): DomainTable {
    DomainTable(ExactOf(patterns), Sorted(SuffixesOf(patterns), SuffixLen))
  }

  function FirstSuffix(suffixes: seq<(string, string)>, d: string): Option<string> {
    if suffixes == [] then None
    else if DomainMatchesSuffix(d, suffixes[0].0) then Some(suffixes[0].1)
    else FirstSuffix(suffixes[1..], d)
  }

  /** `DomainRouteTable::lookup`. */
  function DomainLookup(t: DomainTable, domain: string): Option<string> {
    var d := Canonical(domain);
    if d in t.exact then Some(t.exact[d]) else FirstSuffix(t.suffixes, d)
  }

  predicate ExactMatch(p: Pattern, domain: string) {
    !IsSuffixPattern(p.key) && Canonical(domain) == Canonical(p.key)
  }

  predicate SuffixMatch(p: Pattern, domain: string) {
    IsSuffixPattern(p.key) && DomainMatchesSuffix(domain, p.key)
  }

  /** An exact pattern if there is one, else a longest suffix pattern. */
  ghost predicate BestPattern(patterns: seq<Pattern>, domain: string, group: string) {
    || (exists p | p in patterns :: ExactMatch(p, domain) && p.group == group)
    || (&& (forall p | p in patterns :: !ExactMatch(p, domain))
        && exists p | p in patterns ::
             && SuffixMatch(p, domain) && p.group == group
             && forall q | q in patterns && SuffixMatch(q, domain) :: |Canonical(q.key)| <= |Canonical(p.key)|)
  }

  ghost predicate NoPattern(patterns: seq<Pattern>, domain: string) {
    forall p | p in patterns :: !ExactMatch(p, domain) && !SuffixMatch(p, domain)
  }

  lemma {:induction false} ExactHolds(patterns: seq<Pattern>, d: string)
    ensures d in ExactOf(patterns) <==> exists p | p in patterns :: !IsSuffixPattern(p.key) && Canonical(p.key) == d
    ensures d in ExactOf(patterns) ==>
              exists p | p in patterns ::
                        !IsSuffixPattern(p.key) && Canonical(p.key) == d && p.group == ExactOf(patterns)[d]
  {
    hide Canonical, IsSuffixPattern;
    if patterns == [] {
    } else {
      var n := |patterns| - 1;
      ExactHolds(patterns[..n], d);
      assert patterns == patterns[..n] + [patterns[n]];
    }
  }

  lemma {:induction false} SuffixesHold(patterns: seq<Pattern>)
    ensures forall s :: s in SuffixesOf(patterns) <==>
                        exists p | p in patterns :: IsSuffixPattern(p.key) && s == (Canonical(p.key), p.group)
  {
    if patterns == [] {
    } else {
      var n := |patterns| - 1;
      SuffixesHold(patterns[..n]);
      assert patterns == patterns[..n] + [patterns[n]];
      if IsSuffixPattern(patterns[n].key) {
        StripDot(patterns[n].key);
      }
      hide Canonical, IsSuffixPattern;
    }
  }

  lemma {:induction false} FirstSuffixIsLongest(suffixes: seq<(string, string)>, d: string)
    requires LongestFirst(suffixes, SuffixLen)
    ensures match FirstSuffix(suffixes, d)
            case Some(g) =>
              exists s | s in suffixes ::
                && DomainMatchesSuffix(d, s.0) && s.1 == g
                && forall t | t in suffixes && DomainMatchesSuffix(d, t.0) :: |t.0| <= |s.0|
            case None => forall s | s in suffixes :: !DomainMatchesSuffix(d, s.0)
  {
    hide DomainMatchesSuffix;
    if suffixes == [] {
    } else {
      var s := suffixes[0];
      assert suffixes == [s] + suffixes[1..];
      assert forall t | t in suffixes :: |t.0| <= |s.0|;
      if !DomainMatchesSuffix(d, s.0) {
        FirstSuffixIsLongest(suffixes[1..], d);
      }
    }
  }

  /** The forms of names do not matter to a suffix match. */
  lemma SuffixMatchIsCanonical(domain: string, suffix: string)
    ensures DomainMatchesSuffix(Canonical(domain), Canonical(suffix)) == DomainMatchesSuffix(domain, suffix)
  {
    CanonicalIsFinal(domain);
    CanonicalIsFinal(suffix);
  }

  /** A domain table answers an exact pattern first and else a longest matching suffix. */
  lemma DomainLookupIsBest(patterns: seq<Pattern>, domain: string)
    ensures match DomainLookup(BuildDomains(patterns), domain)
            case Some(g) => BestPattern(patterns, domain, g)
            case None => NoPattern(patterns, domain)
  {
    hide Canonical, IsSuffixPattern, DomainMatchesSuffix, ExactOf, SuffixesOf, Sorted, FirstSuffix;
    var d := Canonical(domain);
    ExactHolds(patterns, d);
    if d !in ExactOf(patterns) {
      var suffixes := SuffixesOf(patterns);
      SuffixesHold(patterns);
      SortKeeps(suffixes, SuffixLen);
      SortHasSameMembers(suffixes, SuffixLen);
      FirstSuffixIsLongest(Sorted(suffixes, SuffixLen), d);
      forall p | p in patterns
        ensures DomainMatchesSuffix(d, Canonical(p.key)) == DomainMatchesSuffix(domain, p.key)
        ensures IsSuffixPattern(p.key) ==> (Canonical(p.key), p.group) in Sorted(suffixes, SuffixLen)
      {
        SuffixMatchIsCanonical(domain, p.key);
      }
    }
  }
}
