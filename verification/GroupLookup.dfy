/**
 The group of upstreams for a connection (src/state.rs): destination routes, then domain
 routes, then client routes, then `default`.
 */
module GroupLookup {
  import opened Common
  import opened Domains
  import opened Routing

  /** The routes as configured, networks parsed. */
  datatype RouteConfig = RouteConfig(
    dst: seq<Entry<seq<Entry<string>>>>,
    domains: seq<Entry<seq<Pattern>>>,
    clients: seq<Entry<string>>)

  datatype Routes = Routes(dst: Table<Table<string>>, domains: Table<DomainTable>, clients: Table<string>)

  function Mapped<A, B>(xs: seq<Entry<A>>, h: A -> B): (ys: seq<Entry<B>>)
    ensures |ys| == |xs|
  {
    seq(|xs|, i requires 0 <= i < |xs| => Entry(xs[i].net, h(xs[i].value)))
  }

  predicate PatternsHoldNames(c: RouteConfig) {
    forall e | e in c.domains :: !HasEmptyPattern(e.value)
  }

  /** The tables, or nothing when some domain pattern has no name in it. */
  function BuildRoutes(c: RouteConfig): Option<Routes> {
    if PatternsHoldNames(c) then Some(Routes(
        Build(Mapped(c.dst, (inner: seq<Entry<string>>) => Build(inner))),
        Build(Mapped(c.domains, BuildDomains)),
        Build(c.clients)))
    else None
  }

  /** `lookup_upstream_group`. */
  function LookupGroup(r: Routes, client: Addr, dst: Addr, domain: Option<string>): string {
    match FindIn(r.dst, client, (t: Table<string>) => Lookup(t, dst))
    case Some(group) => group
    case None =>
      var byDomain :=
        if domain.None? then None
        else FindIn(r.domains, client, (t: DomainTable) => DomainLookup(t, domain.value));
      match byDomain
      case Some(group) => group
      case None => match Lookup(r.clients, client)
        case Some(group) => group
        case None => DEFAULT
  }

  // ----- the meaning, on the configuration

  /** The longest client network that has a route for the destination, and its longest destination network. */
  ghost predicate DstRoute(c: RouteConfig, client: Addr, dst: Addr, group: string) {
    exists e | e in c.dst ::
      && Covers(e.net, client) && LongestCover(e.value, dst, group)
      && forall longer | longer in c.dst && Covers(longer.net, client) && |longer.net.prefix| > |e.net.prefix| ::
           NoCover(longer.value, dst)
  }

  ghost predicate NoDstRoute(c: RouteConfig, client: Addr, dst: Addr) {
    forall e | e in c.dst && Covers(e.net, client) :: NoCover(e.value, dst)
  }

  /** The longest client network that has a pattern for the domain, and its best pattern. */
  ghost predicate DomainRoute(c: RouteConfig, client: Addr, domain: string, group: string) {
    exists e | e in c.domains ::
      && Covers(e.net, client) && BestPattern(e.value, domain, group)
      && forall longer | longer in c.domains && Covers(longer.net, client) && |longer.net.prefix| > |e.net.prefix| ::
           NoPattern(longer.value, domain)
  }

  ghost predicate NoDomainRoute(c: RouteConfig, client: Addr, domain: string) {
    forall e | e in c.domains && Covers(e.net, client) :: NoPattern(e.value, domain)
  }

  lemma AnswersMapped<A(!new), B(!new), R>(xs: seq<Entry<A>>, h: A -> B, ip: Addr, f: B -> Option<R>, r: Option<R>)
    requires Answers(Mapped(xs, h), ip, f, r)
    ensures Answers(xs, ip, (x: A) => f(h(x)), r)
  {
    hide Covers;
    var ys := Mapped(xs, h);
    var g := (x: A) => f(h(x));
    assert forall i | 0 <= i < |xs| :: ys[i].net == xs[i].net && ys[i].value == h(xs[i].value) && ys[i] in ys;
    if r.Some? {
      assert LongestHit(ys, ip, f, r.value);
      var e :| e in ys && Covers(e.net, ip) && f(e.value) == r
               && forall longer | longer in ys && Covers(longer.net, ip)
                         && |longer.net.prefix| > |e.net.prefix| :: f(longer.value).None?;
      var i :| 0 <= i < |ys| && ys[i] == e;
      forall longer | longer in xs && Covers(longer.net, ip) && |longer.net.prefix| > |e.net.prefix|
        ensures g(longer.value).None?
      {
        var j :| 0 <= j < |xs| && xs[j] == longer;
        assert ys[j] in ys;
      }
      assert xs[i] in xs;
      assert LongestHit(xs, ip, g, r.value);
    } else {
      forall e | e in xs && Covers(e.net, ip)
        ensures g(e.value).None?
      {
        var j :| 0 <= j < |xs| && xs[j] == e;
        assert ys[j] in ys;
      }
    }
  }

  lemma DstIsRoute(c: RouteConfig, client: Addr, dst: Addr)
    requires BuildRoutes(c).Some?
    ensures match FindIn(BuildRoutes(c).value.dst, client, (t: Table<string>) => Lookup(t, dst))
            case Some(g) => DstRoute(c, client, dst, g)
            case None => NoDstRoute(c, client, dst)
  {
    hide Covers, Build, FindIn, Lookup, Mapped, LongestCover, NoCover;
    var h := (inner: seq<Entry<string>>) => Build(inner);
    var f := (t: Table<string>) => Lookup(t, dst);
    var r := FindIn(BuildRoutes(c).value.dst, client, f);
    FindIsLongest(Mapped(c.dst, h), client, f);
    AnswersMapped(c.dst, h, client, f, r);
    var g := (x: seq<Entry<string>>) => f(h(x));
    forall e | e in c.dst
      ensures match g(e.value) case Some(v) => LongestCover(e.value, dst, v) case None => NoCover(e.value, dst)
    {
      LookupIsLongest(e.value, dst);
    }
    if r.Some? {
      assert LongestHit(c.dst, client, g, r.value);
    }
  }

  lemma DomainIsRoute(c: RouteConfig, client: Addr, domain: string)
    requires BuildRoutes(c).Some?
    ensures match FindIn(BuildRoutes(c).value.domains, client, (t: DomainTable) => DomainLookup(t, domain))
            case Some(g) => DomainRoute(c, client, domain, g)
            case None => NoDomainRoute(c, client, domain)
  {
    hide Covers, Build, FindIn, DomainLookup, BuildDomains, Mapped, BestPattern, NoPattern;
    var f := (t: DomainTable) => DomainLookup(t, domain);
    var r := FindIn(BuildRoutes(c).value.domains, client, f);
    FindIsLongest(Mapped(c.domains, BuildDomains), client, f);
    AnswersMapped(c.domains, BuildDomains, client, f, r);
    var g := (x: seq<Pattern>) => f(BuildDomains(x));
    forall e | e in c.domains
      ensures match g(e.value) case Some(v) => BestPattern(e.value, domain, v) case None => NoPattern(e.value, domain)
    {
      DomainLookupIsBest(e.value, domain);
    }
    if r.Some? {
      assert LongestHit(c.domains, client, g, r.value);
    }
  }

  /** The order of priority, stated on the configuration. */
  ghost predicate FollowsPriority(c: RouteConfig, client: Addr, dst: Addr, domain: Option<string>, group: string) {
    || DstRoute(c, client, dst, group)
    || (&& NoDstRoute(c, client, dst)
        && ((domain.Some? && DomainRoute(c, client, domain.value, group))
            || (&& (domain.Some? ==> NoDomainRoute(c, client, domain.value))
                && (LongestCover(c.clients, client, group) || (NoCover(c.clients, client) && group == DEFAULT)))))
  }

  lemma LookupFollowsPriority(c: RouteConfig, client: Addr, dst: Addr, domain: Option<string>)
    requires BuildRoutes(c).Some?
    ensures FollowsPriority(c, client, dst, domain, LookupGroup(BuildRoutes(c).value, client, dst, domain))
  {
    hide DstRoute, NoDstRoute, DomainRoute, NoDomainRoute, LongestCover, NoCover, FindIn, Build, Lookup;
    DstIsRoute(c, client, dst);
    if domain.Some? {
      DomainIsRoute(c, client, domain.value);
    }
    LookupIsLongest(c.clients, client);
  }

  // ----- names only count in canonical form

  lemma {:induction false} FindMapSame<T(!new), R>(
    entries: seq<Entry<T>>, ip: Addr, f: T -> Option<R>, g: T -> Option<R>)
    requires forall v :: f(v) == g(v)
    ensures FindMap(entries, ip, f) == FindMap(entries, ip, g)
  {
    if entries == [] {
    } else {
      FindMapSame(entries[1..], ip, f, g);
    }
  }

  lemma DomainLookupIsCanonical(t: DomainTable, domain: string)
    ensures DomainLookup(t, Canonical(domain)) == DomainLookup(t, domain)
  {
    CanonicalIsFinal(domain);
  }

  /** The group depends on the domain only through its canonical form. */
  lemma LookupIsCanonical(r: Routes, client: Addr, dst: Addr, a: string, b: string)
    requires Canonical(a) == Canonical(b)
    ensures LookupGroup(r, client, dst, Some(a)) == LookupGroup(r, client, dst, Some(b))
  {
    var f := (t: DomainTable) => DomainLookup(t, a);
    var g := (t: DomainTable) => DomainLookup(t, b);
    forall t
      ensures f(t) == g(t)
    {
      DomainLookupIsCanonical(t, a);
      DomainLookupIsCanonical(t, b);
    }
    FindMapSame(Family(r.domains, client), client, f, g);
  }

  // ----- groups that can come out

  /** The configuration names this group in some route. */
  ghost predicate Referenced(c: RouteConfig, group: string) {
    || (exists e | e in c.dst :: exists i | i in e.value :: i.value == group)
    || (exists e | e in c.domains :: exists p | p in e.value :: p.group == group)
    || (exists e | e in c.clients :: e.value == group)
  }

  /** Every group that comes out is named in the configuration or is `default`. */
  lemma LookupIsReferenced(c: RouteConfig, client: Addr, dst: Addr, domain: Option<string>)
    requires BuildRoutes(c).Some?
    ensures var g := LookupGroup(BuildRoutes(c).value, client, dst, domain);
            Referenced(c, g) || g == DEFAULT
  {
    hide LookupGroup, BuildRoutes, Covers, ExactMatch, SuffixMatch;
    LookupFollowsPriority(c, client, dst, domain);
  }

  /** Without routes everything goes to the group called "default". */
  lemma NoRoutesMeansDefault(client: Addr, dst: Addr, domain: Option<string>)
    ensures var r := BuildRoutes(RouteConfig([], [], []));
            r.Some? && LookupGroup(r.value, client, dst, domain) == "default"
  {
    hide LookupGroup, Covers;
    var c := RouteConfig([], [], []);
    assert PatternsHoldNames(c);
    LookupFollowsPriority(c, client, dst, domain);
  }
}
