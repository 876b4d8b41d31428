/**
 The two route caches (src/state.rs, src/tcp.rs): the cached answer to "connect directly?" and
 the cached upstream of a connection. Times are inputs.
 */
module RouteCaches {
  import opened Common
  import opened Domains
  import opened Routing
  import opened GroupLookup
  import opened UpstreamPick
  import Failover

  // ----- direct or not

  datatype Mode = Smart | Global | Bypass

  /** The rules of one generation; what the address lists and the country database say is given. */
  datatype Rules = Rules(
    forceProxyDomains: DomainSet,
    forceDirectDomains: DomainSet,
    geosite: Option<map<string, CompiledTag>>,
    proxyTags: seq<string>,
    directTags: seq<string>,
    forceProxyIp: Addr -> bool,
    forceDirectIp: Addr -> bool,
    directLocalIp: bool,
    mustDirectLocal: Addr -> bool,
    directCountry: Addr -> bool)

  predicate Listed(ds: DomainSet, domain: string) {
    var d := Canonical(domain);
    d in ds.exact || SomeTailIn(d, ds.suffixes)
  }

  predicate Tagged(geosite: map<string, CompiledTag>, tags: seq<string>, domain: string) {
    exists tag | tag in tags :: tag in geosite && TagHolds(geosite[tag], Canonical(domain))
  }

  function IpDecision(rules: Rules, ip: Addr): bool {
    if rules.forceProxyIp(ip) then false
    else if rules.forceDirectIp(ip) then true
    else (rules.directLocalIp && rules.mustDirectLocal(ip)) || rules.directCountry(ip)
  }

  /** What the domain alone decides, if anything. */
  function DomainDecision(rules: Rules, domain: string): Option<bool> {
    if Listed(rules.forceProxyDomains, domain) then Some(false)
    else if Listed(rules.forceDirectDomains, domain) then Some(true)
    else if rules.geosite.Some? && Tagged(rules.geosite.value, rules.proxyTags, domain) then Some(false)
    else if rules.geosite.Some? && Tagged(rules.geosite.value, rules.directTags, domain) then Some(true)
    else None
  }

  /** The answer without any cache. */
  function Decision(rules: Rules, mode: Mode, ip: Addr, domain: Option<string>): bool {
    match mode
    case Global => false
    case Bypass => true
    case Smart =>
      if domain.Some? && DomainDecision(rules, domain.value).Some? then DomainDecision(rules, domain.value).value
      else IpDecision(rules, ip)
  }

  function KeyDomain(domain: Option<string>): Option<string> {
    match domain
    case None => None
    case Some(d) => Some(Canonical(d))
  }

  method AnyTag(geosite: map<string, CompiledTag>, tags: seq<string>, domain: string) returns (r: bool)
    ensures r <==> Tagged(geosite, tags, domain)
  {
    hide TagHolds, Canonical;
    for i := 0 to |tags|
      invariant forall j | 0 <= j < i :: !(tags[j] in geosite && TagHolds(geosite[tags[j]], Canonical(domain)))
    {
      var hit := CompiledContains(geosite, tags[i], domain);
      if hit {
        return true;
      }
    }
    return false;
  }

  method DecideByDomain(rules: Rules, domain: string) returns (r: Option<bool>)
    ensures r == DomainDecision(rules, domain)
  {
    hide Canonical, SomeTailIn, Tagged;
    var canonical := Canonical(domain);
    var hit := MatchesCanonical(rules.forceProxyDomains, canonical);
    if hit {
      return Some(false);
    }
    hit := MatchesCanonical(rules.forceDirectDomains, canonical);
    if hit {
      return Some(true);
    }
    if rules.geosite.Some? {
      hit := AnyTag(rules.geosite.value, rules.proxyTags, domain);
      if hit {
        return Some(false);
      }
      hit := AnyTag(rules.geosite.value, rules.directTags, domain);
      if hit {
        return Some(true);
      }
    }
    return None;
  }

  type DirectKey = (Addr, Option<string>)

  predicate Fresh(written: nat, now: nat, ttl: nat) {
    SaturatingSub(now, written) < ttl
  }

  /**
   What storing does to either cache: the key has the new value, and of the others a full cache
   keeps exactly the fresh ones, any other cache all of them.
   */
  ghost predicate Stores<K(!new), V>(
    before: map<K, (V, nat)>, key: K, value: V, now: nat, ttl: nat, max: nat, after: map<K, (V, nat)>)
  {
    && key in after && after[key] == (value, now)
    && (forall k | k != key :: k in after <==>
          k in before && (|before| >= max ==> SaturatingSub(now, before[k].1) < ttl))
    && forall k | k in after && k != key :: after[k] == before[k]
  }

  /** The other entries that are still fresh. */
  function FreshOthers<K, V>(cache: map<K, (V, nat)>, key: K, now: nat, ttl: nat): set<K> {
    set k | k in cache && k != key && SaturatingSub(now, cache[k].1) < ttl
  }

  /** The limit holds exactly as long as a full cache has fewer than `max` other fresh entries. */
  lemma LimitHoldsIffFewFresh<K(!new), V>(
    before: map<K, (V, nat)>, key: K, value: V, now: nat, ttl: nat, max: nat, after: map<K, (V, nat)>)
    requires Stores(before, key, value, now, ttl, max, after)
    ensures |after| <= max <==> |before| < max || |FreshOthers(before, key, now, ttl)| < max
    ensures |after| > max && ttl > 0 ==> forall k | k in after :: SaturatingSub(now, after[k].1) < ttl
  {
    if |before| < max {
      SubsetSize(after.Keys, before.Keys + {key});
    } else {
      assert after.Keys == FreshOthers(before, key, now, ttl) + {key};
    }
  }

  /** It is no bound: two names asked for at one moment outgrow a limit of one. */
  method LimitCanBeExceeded(rules: Rules, ip: Addr, a: string, b: string, now: nat) returns (size: nat)
    requires Canonical(a) != Canonical(b)
    ensures size == 2
  {
    var router := new DirectRouter(rules, 1, 1, Smart);
    ghost var none := router.cache;
    router.Insert((ip, Some(Canonical(a))), true, now);
    LimitHoldsIffFewFresh(none, (ip, Some(Canonical(a))), true, now, 1, 1, router.cache);
    router.Insert((ip, Some(Canonical(b))), true, now);
    assert router.cache.Keys == {(ip, Some(Canonical(a))), (ip, Some(Canonical(b)))};
    size := |router.cache|;
  }

  class DirectRouter {
    const rules: Rules
    const ttl: nat
    const max: nat
    var mode: Mode
    var cache: map<DirectKey, (bool, nat)>

    /** Every cached answer is the one the address rules give. */
    ghost predicate Valid()
      reads this
    {
      forall key | key in cache :: cache[key].0 == IpDecision(rules, key.0)
    }

    constructor (rules: Rules, ttl: nat, max: nat, mode: Mode)
      ensures Valid() && cache == map[] && this.mode == mode
      ensures this.rules == rules && this.ttl == ttl && this.max == max
    {
      this.rules, this.ttl, this.max, this.mode, this.cache := rules, ttl, max, mode, map[];
    }

    method SetMode(mode: Mode)
      requires Valid()
      modifies this`mode
      ensures Valid() && this.mode == mode
    {
      this.mode := mode;
    }

    /** A full cache loses exactly its expired entries, and then takes the new one. */
    method Insert(key: DirectKey, direct: bool, now: nat)
      modifies this`cache
      ensures Stores(old(cache), key, direct, now, ttl, max, cache)
      ensures old(Valid()) && direct == IpDecision(rules, key.0) ==> Valid()
    {
      hide IpDecision;
      if |cache| >= max {
        cache := map k | k in cache && Fresh(cache[k].1, now, ttl) :: cache[k];
      }
      cache := cache[key := (direct, now)];
    }

    /** `should_direct`: the cache never changes an answer. */
    method ShouldDirect(ip: Addr, domain: Option<string>, now: nat) returns (r: bool)
      requires Valid()
      modifies this`cache
      ensures Valid()
      ensures r == Decision(rules, mode, ip, domain)
      ensures forall c: RuleConfig | Compiles(rules, c) :: RightAnswer(c, mode, ip, domain, r)
      ensures mode != Smart || ttl == 0 ==> cache == old(cache)
    {
      hide DomainDecision, Stores, IpDecision, Compiles, RightAnswer;
      forall c: RuleConfig | Compiles(rules, c)
        ensures RightAnswer(c, mode, ip, domain, Decision(rules, mode, ip, domain))
      {
        DecisionIsRight(c, rules, mode, ip, domain);
      }
      if mode == Global {
        return false;
      }
      if mode == Bypass {
        return true;
      }
      var active := ttl > 0;
      if domain.Some? {
        var byDomain := DecideByDomain(rules, domain.value);
        if byDomain.Some? {
          return byDomain.value;
        }
      }
      var key := (ip, KeyDomain(domain));
      if active && key in cache {
        if Fresh(cache[key].1, now, ttl) {
          return cache[key].0;
        }
        cache := cache - {key};
      }
      r := IpDecision(rules, ip);
      if active {
        Insert(key, r, now);
      }
    }
  }

  /** What can happen to the router. */
  datatype Call = Ask(ip: Addr, domain: Option<string>, now: nat) | Switch(mode: Mode)

  function ModeAfter(start: Mode, calls: seq<Call>): Mode {
    if calls == [] then start
    else if calls[|calls| - 1].Switch? then calls[|calls| - 1].mode
    else ModeAfter(start, calls[..|calls| - 1])
  }

  // ----- the meaning of an answer, on what is configured

  /** The configured domain patterns and geosite rules, and what the address lists and the country database say. */
  datatype RuleConfig = RuleConfig(
    proxyPatterns: seq<string>,
    directPatterns: seq<string>,
    geosite: Option<map<string, seq<Rule>>>,
    proxyTags: seq<string>,
    directTags: seq<string>,
    forceProxyIp: Addr -> bool,
    forceDirectIp: Addr -> bool,
    directLocalIp: bool,
    mustDirectLocal: Addr -> bool,
    directCountry: Addr -> bool)

  predicate SomePattern(patterns: seq<string>, domain: Option<string>) {
    domain.Some? && exists p | p in patterns :: PatternMatches(p, domain.value)
  }

  /** Some rule of some of the tags matches a name that is not empty. */
  predicate SomeRule(geosite: Option<map<string, seq<Rule>>>, tags: seq<string>, domain: Option<string>) {
    && geosite.Some? && domain.Some? && Canonical(domain.value) != []
    && exists tag | tag in tags :: TagMatches(geosite.value, tag, domain.value)
  }

  predicate PatternsAreSilent(c: RuleConfig, domain: Option<string>) {
    !SomePattern(c.proxyPatterns, domain) && !SomePattern(c.directPatterns, domain)
  }

  /** Nothing configured speaks about the domain. */
  predicate DomainIsOpen(c: RuleConfig, domain: Option<string>) {
    && PatternsAreSilent(c, domain)
    && !SomeRule(c.geosite, c.proxyTags, domain) && !SomeRule(c.geosite, c.directTags, domain)
  }

  /** `direct` is the right answer: each configured rule in its precedence. */
  predicate RightAnswer(c: RuleConfig, mode: Mode, ip: Addr, domain: Option<string>, direct: bool) {
    && (mode == Global ==> !direct)
    && (mode == Bypass ==> direct)
    && (mode == Smart ==>
          // patterns for the proxy, then for direct connections, whatever the address
          && (SomePattern(c.proxyPatterns, domain) ==> !direct)
          && (SomePattern(c.directPatterns, domain) && !SomePattern(c.proxyPatterns, domain) ==> direct)
          // then the geosite tags in the same order
          && (PatternsAreSilent(c, domain) && SomeRule(c.geosite, c.proxyTags, domain) ==> !direct)
          && (PatternsAreSilent(c, domain) && !SomeRule(c.geosite, c.proxyTags, domain) ==>
                SomeRule(c.geosite, c.directTags, domain) ==> direct)
          // and only then the address
          && (DomainIsOpen(c, domain) && c.forceProxyIp(ip) ==> !direct)
          && (DomainIsOpen(c, domain) && c.forceDirectIp(ip) && !c.forceProxyIp(ip) ==> direct)
          && (DomainIsOpen(c, domain) && !c.forceDirectIp(ip) && !c.forceProxyIp(ip) ==>
                (direct <==> (c.directLocalIp && c.mustDirectLocal(ip)) || c.directCountry(ip))))
  }

  ghost predicate Compiles(rules: Rules, c: RuleConfig) {
    && HoldsPattern(rules.forceProxyDomains, c.proxyPatterns)
    && HoldsPattern(rules.forceDirectDomains, c.directPatterns)
    && rules.geosite.Some? == c.geosite.Some?
    && (c.geosite.Some? ==> HoldsIndex(rules.geosite.value, c.geosite.value))
    && rules.proxyTags == c.proxyTags && rules.directTags == c.directTags
    && rules.forceProxyIp == c.forceProxyIp && rules.forceDirectIp == c.forceDirectIp
    && rules.directLocalIp == c.directLocalIp && rules.mustDirectLocal == c.mustDirectLocal
    && rules.directCountry == c.directCountry
  }

  method CompileRules(c: RuleConfig) returns (rules: Rules)
    ensures Compiles(rules, c)
  {
    hide HoldsPattern, HoldsIndex;
    var proxy := Compile(c.proxyPatterns);
    var direct := Compile(c.directPatterns);
    var geosite := None;
    if c.geosite.Some? {
      var index := CompileIndex(c.geosite.value);
      geosite := Some(index);
    }
    rules := Rules(proxy, direct, geosite, c.proxyTags, c.directTags, c.forceProxyIp, c.forceDirectIp,
                   c.directLocalIp, c.mustDirectLocal, c.directCountry);
  }

  lemma ListedIsPattern(ds: DomainSet, patterns: seq<string>, domain: string)
    requires HoldsPattern(ds, patterns)
    ensures Listed(ds, domain) <==> SomePattern(patterns, Some(domain))
  {
    hide HoldsPattern, PatternMatches, Canonical, SomeTailIn;
    CompiledListIsPatterns(ds, patterns, domain);
  }

  lemma TaggedIsRule(
    compiled: map<string, CompiledTag>, index: map<string, seq<Rule>>, tags: seq<string>, domain: string)
    requires HoldsIndex(compiled, index)
    ensures Tagged(compiled, tags, domain) <==> SomeRule(Some(index), tags, Some(domain))
  {
    hide HoldsRules, TagHolds, RuleMatches, Canonical, HasEmptyDomainRule;
    forall tag | tag in index
      ensures TagHolds(compiled[tag], Canonical(domain)) <==> Canonical(domain) != [] && TagMatches(index, tag, domain)
    {
      IndexAgreesWithRules(compiled[tag], index[tag], domain);
      if TagHolds(compiled[tag], Canonical(domain)) {
        IndexedMeansMatched(compiled[tag], index[tag], domain);
      }
    }
  }

  /** The uncached decision on compiled rules is the right answer on the configured ones. */
  lemma DecisionIsRight(c: RuleConfig, rules: Rules, mode: Mode, ip: Addr, domain: Option<string>)
    requires Compiles(rules, c)
    ensures RightAnswer(c, mode, ip, domain, Decision(rules, mode, ip, domain))
  {
    hide HoldsPattern, HoldsIndex, Listed, Tagged;
    if domain.Some? {
      ListedIsPattern(rules.forceProxyDomains, c.proxyPatterns, domain.value);
      ListedIsPattern(rules.forceDirectDomains, c.directPatterns, domain.value);
      if c.geosite.Some? {
        TaggedIsRule(rules.geosite.value, c.geosite.value, c.proxyTags, domain.value);
        TaggedIsRule(rules.geosite.value, c.geosite.value, c.directTags, domain.value);
      }
    }
    hide SomePattern, SomeRule;
  }

  /** Over every run of questions and mode switches each answer is the right one for the mode at that moment. */
  method RunCalls(c: RuleConfig, ttl: nat, max: nat, start: Mode, calls: seq<Call>) returns (answers: seq<bool>)
    ensures |answers| == |calls|
    ensures forall i | 0 <= i < |calls| && calls[i].Ask? ::
              RightAnswer(c, ModeAfter(start, calls[..i]), calls[i].ip, calls[i].domain, answers[i])
  {
    hide Decision, RightAnswer, Compiles;
    var rules := CompileRules(c);
    var router := new DirectRouter(rules, ttl, max, start);
    answers := [];
    for i := 0 to |calls|
      invariant router.Valid() && router.rules == rules && fresh(router)
      invariant router.mode == ModeAfter(start, calls[..i])
      invariant |answers| == i
      invariant forall j | 0 <= j < i && calls[j].Ask? ::
                  RightAnswer(c, ModeAfter(start, calls[..j]), calls[j].ip, calls[j].domain, answers[j])
    {
      assert calls[..i + 1][..i] == calls[..i];
      var answer := false;
      match calls[i] {
        case Ask(ip, domain, now) => {
          DecisionIsRight(c, rules, router.mode, ip, domain);
          answer := router.ShouldDirect(ip, domain, now);
        }
        case Switch(mode) => {
          router.SetMode(mode);
        }
      }
      answers := answers + [answer];
    }
  }

  // ----- the upstream of a connection

  type UpstreamKey = (Addr, Addr, Option<string>)

  class UpstreamRouter {
    const routes: Routes
    const ups: UpstreamSet
    const ttl: nat
    const max: nat
    var cache: map<UpstreamKey, (Upstream, nat)>

    /** The upstream may serve connections of this key. */
    ghost predicate Serves(key: UpstreamKey, up: Upstream) {
      || up in GroupOf(ups.groups, LookupGroup(routes, key.0, key.1, key.2))
      || up in GroupOf(ups.groups, DEFAULT)
    }

    ghost predicate Valid()
      reads this
    {
      forall key | key in cache :: Serves(key, cache[key].0)
    }

    constructor (routes: Routes, ups: UpstreamSet, ttl: nat, max: nat)
      ensures Valid() && cache == map[] && this.routes == routes && this.ups == ups
      ensures this.ttl == ttl && this.max == max
    {
      this.routes, this.ups, this.ttl, this.max, cache := routes, ups, ttl, max, map[];
    }

    /** What the cache holds for the key at this time. */
    ghost function Cached(key: UpstreamKey, now: nat): Option<Upstream>
      reads this
    {
      if ttl > 0 && key in cache && SaturatingSub(now, cache[key].1) < ttl then Some(cache[key].0) else None
    }

    /** `get_cached_upstream`: a fresh entry, an expired one is dropped. */
    method Get(key: UpstreamKey, now: nat) returns (r: Option<Upstream>)
      requires Valid()
      modifies this`cache
      ensures Valid()
      ensures r == old(Cached(key, now))
      ensures cache == if ttl > 0 && r.None? then old(cache) - {key} else old(cache)
    {
      if ttl == 0 {
        return None;
      }
      if key in cache {
        if Fresh(cache[key].1, now, ttl) {
          return Some(cache[key].0);
        }
      }
      cache := cache - {key};
      return None;
    }

    /** `cache_upstream`. */
    method Put(key: UpstreamKey, up: Upstream, now: nat)
      requires Valid() && Serves(key, up)
      modifies this`cache
      ensures Valid()
      ensures ttl == 0 ==> cache == old(cache)
      ensures ttl > 0 ==> Stores(old(cache), key, up, now, ttl, max, cache)
    {
      if ttl == 0 {
        return;
      }
      if |cache| >= max {
        cache := map k | k in cache && Fresh(cache[k].1, now, ttl) :: cache[k];
      }
      cache := cache[key := (up, now)];
    }

    /**
     The proxied path of one connection: the cached upstream if it still connects, otherwise a
     pick that avoids it; what connected is remembered.
     */
    method Connect(
      client: Addr, dst: Addr, domain: Option<string>, now: nat, cachedConnects: bool,
      env: nat -> (seq<Upstream> -> Readings), connects: iset<nat>)
      returns (r: Option<Upstream>, first: seq<string>, second: seq<string>)
      requires Valid() && forall n, items :: Fits(env(n)(items), |items|)
      modifies this`cache, ups
      ensures Valid()
      ensures r.Some? ==> Serves((client, dst, KeyDomain(domain)), r.value)
      ensures var key := (client, dst, KeyDomain(domain));
              old(Cached(key, now)).Some? && cachedConnects ==>
                r == old(Cached(key, now)) && ups.recorded == old(ups.recorded)
      ensures r.Some? && ttl > 0 ==>
                var key := (client, dst, KeyDomain(domain)); key in cache && cache[key] == (r.value, now)
      ensures r.None? ==> (client, dst, KeyDomain(domain)) !in cache || ttl == 0
      ensures var cached := old(Cached((client, dst, KeyDomain(domain)), now));
              cached.Some? && !cachedConnects ==> cached.value.id !in first
      // a failure means that all members but the cached one were tried, and after a fallback all of `default`
      ensures r.None? ==>
                var group := LookupGroup(routes, client, dst, domain);
                var cached := old(Cached((client, dst, KeyDomain(domain)), now));
                && Failover.Exhausted(first, GroupOf(ups.groups, group), if cached.Some? then {cached.value.id} else {})
                && (group != DEFAULT ==> Failover.Exhausted(second, GroupOf(ups.groups, DEFAULT), {}))
    {
      hide Fits, LookupGroup, GroupOf, Canonical, Failover.Exhausted;
      var key := (client, dst, KeyDomain(domain));
      var group := LookupGroup(routes, client, dst, domain);
      KeyHasSameGroup(routes, client, dst, domain);
      first, second := [], [];
      var cached := Get(key, now);
      if cached.Some? && cachedConnects {
        r := cached;
      } else {
        var exclude: Option<string> := None;
        if cached.Some? {
          cache := cache - {key};
          exclude := Some(cached.value.id);
        }
        var failures;
        r, first, second, failures := Failover.TryConnect(ups, group, exclude, env, connects);
      }
      if r.Some? {
        Put(key, r.value, now);
      }
    }
  }

  /** A cache key leads to the same group as the connection it was made from. */
  lemma KeyHasSameGroup(routes: Routes, client: Addr, dst: Addr, domain: Option<string>)
    ensures LookupGroup(routes, client, dst, KeyDomain(domain)) == LookupGroup(routes, client, dst, domain)
  {
    if domain.Some? {
      CanonicalIsFinal(domain.value);
      LookupIsCanonical(routes, client, dst, domain.value, Canonical(domain.value));
    }
  }
}
