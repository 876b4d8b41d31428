/**
 The checks on groups when a configuration is loaded, and the upstream set built from it
 (src/cli.rs). Ids are given trimmed and networks parsed, `None` for text that is no network.
 */
module GroupConfig {
  import opened Common
  import opened Routing
  import opened GroupLookup
  import opened UpstreamPick

  datatype UpstreamConfig = UpstreamConfig(id: string, groups: Option<seq<string>>)

  datatype RawEntry<T> = RawEntry(net: Option<Net>, value: T)

  datatype Config = Config(
    upstreams: seq<UpstreamConfig>,
    clients: seq<RawEntry<string>>,
    domains: seq<RawEntry<seq<Pattern>>>,
    dst: seq<RawEntry<seq<RawEntry<string>>>>)

  /** The groups of an upstream as validation counts them: an empty list counts as `default`. */
  function CountedGroups(u: UpstreamConfig): seq<string> {
    if u.groups.Some? && u.groups.value != [] then u.groups.value else [DEFAULT]
  }

  /** The groups of an upstream as the set is built: an empty list is no group. */
  function BuiltGroups(u: UpstreamConfig): seq<string> {
    if u.groups.Some? then u.groups.value else [DEFAULT]
  }

  predicate Counted(c: Config, group: string) {
    exists u | u in c.upstreams :: group in CountedGroups(u)
  }

  predicate HasRoutes(c: Config) {
    c.clients != [] || c.domains != [] || c.dst != []
  }

  predicate ClientsOk(c: Config) {
    forall e | e in c.clients :: e.net.Some? && Counted(c, e.value)
  }

  predicate DomainsOk(c: Config) {
    forall e | e in c.domains :: e.net.Some? && forall p | p in e.value :: Counted(c, p.group)
  }

  predicate DstOk(c: Config) {
    forall e | e in c.dst :: e.net.Some? && forall i | i in e.value :: i.net.Some? && Counted(c, i.value)
  }

  /** What validation promises about groups. */
  predicate GroupsOk(c: Config) {
    (Counted(c, DEFAULT) || HasRoutes(c)) && ClientsOk(c) && DomainsOk(c) && DstOk(c)
  }

  /** How many upstreams each group has, groups without any left out. */
  method CountGroups(c: Config) returns (count: map<string, nat>)
    ensures forall g :: g in count <==> Counted(c, g)
    ensures forall g | g in count :: count[g] > 0
  {
    hide CountedGroups;
    count := map[];
    for i := 0 to |c.upstreams|
      invariant forall g :: g in count <==> exists u | u in c.upstreams[..i] :: g in CountedGroups(u)
      invariant forall g | g in count :: count[g] > 0
    {
      var u := c.upstreams[i];
      assert c.upstreams[..i + 1] == c.upstreams[..i] + [u];
      var groups := CountedGroups(u);
      ghost var before := count;
      for k := 0 to |groups|
        invariant forall g :: g in count <==> g in before || g in groups[..k]
        invariant forall g | g in count :: count[g] > 0
      {
        assert groups[..k + 1] == groups[..k] + [groups[k]];
        count := count[groups[k] := (if groups[k] in count then count[groups[k]] else 0) + 1];
      }
      assert groups[..|groups|] == groups;
    }
    assert c.upstreams[..|c.upstreams|] == c.upstreams;
  }

  method CheckDomains(c: Config, count: map<string, nat>) returns (ok: bool)
    requires forall g :: g in count <==> Counted(c, g)
    ensures ok <==> DomainsOk(c)
  {
    hide Counted;
    for i := 0 to |c.domains|
      invariant forall j | 0 <= j < i :: c.domains[j].net.Some?
      invariant forall j | 0 <= j < i :: forall p | p in c.domains[j].value :: Counted(c, p.group)
    {
      var e := c.domains[i];
      if e.net.None? {
        return false;
      }
      for k := 0 to |e.value|
        invariant forall j | 0 <= j < k :: Counted(c, e.value[j].group)
      {
        if e.value[k].group !in count {
          return false;
        }
      }
    }
    return true;
  }

  method CheckDst(c: Config, count: map<string, nat>) returns (ok: bool)
    requires forall g :: g in count <==> Counted(c, g)
    ensures ok <==> DstOk(c)
  {
    hide Counted;
    for i := 0 to |c.dst|
      invariant forall j | 0 <= j < i :: c.dst[j].net.Some?
      invariant forall j | 0 <= j < i :: forall p | p in c.dst[j].value :: p.net.Some? && Counted(c, p.value)
    {
      var e := c.dst[i];
      if e.net.None? {
        return false;
      }
      for k := 0 to |e.value|
        invariant forall j | 0 <= j < k :: e.value[j].net.Some? && Counted(c, e.value[j].value)
      {
        if e.value[k].net.None? || e.value[k].value !in count {
          return false;
        }
      }
    }
    return true;
  }

  /** The group checks of `Config::validate`. */
  method Validate(c: Config) returns (ok: bool)
    ensures ok <==> GroupsOk(c)
  {
    hide Counted, DomainsOk, DstOk;
    var count := CountGroups(c);
    if DEFAULT !in count && !HasRoutes(c) {
      return false;
    }
    for i := 0 to |c.clients|
      invariant forall j | 0 <= j < i :: c.clients[j].net.Some? && Counted(c, c.clients[j].value)
    {
      if c.clients[i].net.None? || c.clients[i].value !in count {
        return false;
      }
    }
    ok := CheckDomains(c, count);
    if ok {
      ok := CheckDst(c, count);
    }
  }

  /** The upstreams made from the configuration, in order. */
  function Items(c: Config): (items: seq<Upstream>)
    ensures |items| == |c.upstreams|
  {
    seq(|c.upstreams|, i requires 0 <= i < |c.upstreams| => Upstream(c.upstreams[i].id, BuiltGroups(c.upstreams[i])))
  }

  predicate IdsOk(c: Config) {
    && c.upstreams != []
    && (forall i | 0 <= i < |c.upstreams| :: c.upstreams[i].id != [])
    && forall i, j | 0 <= i < j < |c.upstreams| :: c.upstreams[i].id != c.upstreams[j].id
  }

  /** `build_upstream_set`: nothing without upstreams, with an empty id or with one id twice. */
  method BuildUpstreamSet(c: Config) returns (items: Option<seq<Upstream>>)
    ensures items.Some? <==> IdsOk(c)
    ensures items.Some? ==> items.value == Items(c)
  {
    if c.upstreams == [] {
      return None;
    }
    var ids: set<string> := {};
    for i := 0 to |c.upstreams|
      invariant forall x :: x in ids <==> exists j | 0 <= j < i :: c.upstreams[j].id == x
      invariant forall j | 0 <= j < i :: c.upstreams[j].id != []
      invariant forall j, k | 0 <= j < k < i :: c.upstreams[j].id != c.upstreams[k].id
    {
      var id := c.upstreams[i].id;
      if id == [] || id in ids {
        return None;
      }
      ids := ids + {id};
    }
    var built := [];
    for i := 0 to |c.upstreams|
      invariant built == Items(c)[..i]
    {
      built := built + [Upstream(c.upstreams[i].id, BuiltGroups(c.upstreams[i]))];
    }
    return Some(built);
  }

  // ----- validation against what is built

  /** The group has an upstream in the built set. */
  predicate Served(c: Config, group: string) {
    GroupOf(Grouped(Items(c)), group) != []
  }

  lemma ServedMeansListed(c: Config, group: string)
    ensures Served(c, group) <==> exists u | u in c.upstreams :: group in BuiltGroups(u)
  {
    hide Grouped, GroupOf, BuiltGroups;
    GroupMembers(Items(c), group);
    var members := GroupOf(Grouped(Items(c)), group);
    if Served(c, group) {
      assert members[0] in members;
    }
    if u :| u in c.upstreams && group in BuiltGroups(u) {
      var i :| 0 <= i < |c.upstreams| && c.upstreams[i] == u;
      assert Items(c)[i] in Items(c);
      assert Items(c)[i] in members;
    }
  }

  /** The parsed routes of a validated configuration. */
  function ParsedRoutes(c: Config): RouteConfig
    requires ClientsOk(c) && DomainsOk(c) && DstOk(c)
  {
    RouteConfig(
      seq(|c.dst|, i requires 0 <= i < |c.dst| => Entry(c.dst[i].net.value, ParsedInner(c.dst[i].value))),
      seq(|c.domains|, i requires 0 <= i < |c.domains| => Entry(c.domains[i].net.value, c.domains[i].value)),
      seq(|c.clients|, i requires 0 <= i < |c.clients| => Entry(c.clients[i].net.value, c.clients[i].value)))
  }

  function ParsedInner(xs: seq<RawEntry<string>>): seq<Entry<string>>
    requires forall x | x in xs :: x.net.Some?
  {
    seq(|xs|, i requires 0 <= i < |xs| => Entry(xs[i].net.value, xs[i].value))
  }

  lemma ClientGroupIsCounted(c: Config, e: Entry<string>)
    requires GroupsOk(c) && e in ParsedRoutes(c).clients
    ensures Counted(c, e.value)
  {
    hide Counted, DomainsOk, DstOk;
    var i :| 0 <= i < |c.clients| && ParsedRoutes(c).clients[i] == e;
    assert c.clients[i] in c.clients;
  }

  lemma DomainGroupIsCounted(c: Config, e: Entry<seq<Pattern>>, p: Pattern)
    requires GroupsOk(c) && e in ParsedRoutes(c).domains && p in e.value
    ensures Counted(c, p.group)
  {
    hide Counted, ClientsOk, DstOk;
    var i :| 0 <= i < |c.domains| && ParsedRoutes(c).domains[i] == e;
    assert c.domains[i] in c.domains;
  }

  lemma DstGroupIsCounted(c: Config, e: Entry<seq<Entry<string>>>, x: Entry<string>)
    requires GroupsOk(c) && e in ParsedRoutes(c).dst && x in e.value
    ensures Counted(c, x.value)
  {
    hide Counted, ClientsOk, DomainsOk;
    var i :| 0 <= i < |c.dst| && ParsedRoutes(c).dst[i] == e;
    assert c.dst[i] in c.dst;
    var j :| 0 <= j < |e.value| && e.value[j] == x;
    assert c.dst[i].value[j] in c.dst[i].value;
  }

  lemma ReferencedIsCounted(c: Config, group: string)
    requires GroupsOk(c) && Referenced(ParsedRoutes(c), group)
    ensures Counted(c, group)
  {
    hide Counted, ParsedRoutes, ClientsOk, DomainsOk, DstOk;
    var r := ParsedRoutes(c);
    if e :| e in r.clients && e.value == group {
      ClientGroupIsCounted(c, e);
    } else if e :| e in r.domains && exists p | p in e.value :: p.group == group {
      var p :| p in e.value && p.group == group;
      DomainGroupIsCounted(c, e, p);
    } else {
      var e :| e in r.dst && exists x | x in e.value :: x.value == group;
      var x :| x in e.value && x.value == group;
      DstGroupIsCounted(c, e, x);
    }
  }

  /** After validation every group that a lookup can give, other than `default`, has an upstream. */
  lemma LookedUpGroupsAreServed(c: Config, client: Addr, dst: Addr, domain: Option<string>)
    requires GroupsOk(c) && BuildRoutes(ParsedRoutes(c)).Some?
    ensures var g := LookupGroup(BuildRoutes(ParsedRoutes(c)).value, client, dst, domain);
            g == DEFAULT || Served(c, g)
  {
    hide LookupGroup, BuildRoutes, Referenced, ParsedRoutes, Served, ClientsOk, DomainsOk, DstOk;
    var g := LookupGroup(BuildRoutes(ParsedRoutes(c)).value, client, dst, domain);
    LookupIsReferenced(ParsedRoutes(c), client, dst, domain);
    if g != DEFAULT {
      ReferencedIsCounted(c, g);
      ServedMeansListed(c, g);
      var u :| u in c.upstreams && g in CountedGroups(u);
      assert g in BuiltGroups(u);
    }
  }

  /** Some upstream gives an empty list of groups. */
  predicate HasEmptyGroups(c: Config) {
    exists u | u in c.upstreams :: u.groups == Some([])
  }

  /** An upstream that belongs to `default` in both readings. */
  predicate HasRealDefault(c: Config) {
    exists u | u in c.upstreams :: u.groups.None? || DEFAULT in u.groups.value
  }

  /**
   Without routes, a validated configuration serves `default` exactly when some upstream leaves
   its groups out or names `default`.
   */
  lemma DefaultIsServed(c: Config)
    requires GroupsOk(c) && !HasRoutes(c)
    ensures Served(c, DEFAULT) <==> HasRealDefault(c)
    ensures !HasEmptyGroups(c) ==> Served(c, DEFAULT)
  {
    hide Served;
    ServedMeansListed(c, DEFAULT);
    if u :| u in c.upstreams && (u.groups.None? || DEFAULT in u.groups.value) {
      assert DEFAULT in BuiltGroups(u);
    }
  }

  /** The gap is real: one upstream with an empty list passes validation and leaves `default` empty. */
  lemma EmptyListPassesValidation()
    ensures var c := Config([UpstreamConfig("a", Some([]))], [], [], []);
            GroupsOk(c) && IdsOk(c) && !Served(c, DEFAULT)
  {
    var u := UpstreamConfig("a", Some([]));
    var c := Config([u], [], [], []);
    assert Counted(c, DEFAULT) by {
      assert u in c.upstreams && DEFAULT in CountedGroups(u);
    }
    ServedMeansListed(c, DEFAULT);
  }
}
