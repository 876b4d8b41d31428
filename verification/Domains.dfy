/**
 Domain names and the sets compiled from them (src/util.rs, src/state.rs): canonical form,
 suffix matching, configured domain lists and geosite rules.
 */
module Domains {
  import opened Common

  function LowerChar(c: char): char {
    if 'A' <= c <= 'Z' then c - 'A' + 'a' else c
  }

  function Lower(s: string): (r: string)
    ensures |r| == |s|
  {
    seq(|s|, i requires 0 <= i < |s| => LowerChar(s[i]))
  }

  function TrimStart(s: string): string {
    if s != [] && s[0] == '.' then TrimStart(s[1..]) else s
  }

  function TrimEnd(s: string): string {
    if s != [] && s[|s| - 1] == '.' then TrimEnd(s[..|s| - 1]) else s
  }

  /** `canonical_domain`. */
  function Canonical(domain: string): string {
    Lower(TrimEnd(TrimStart(domain)))
  }

  predicate NoDotAtEnds(s: string) {
    s != [] ==> s[0] != '.' && s[|s| - 1] != '.'
  }

  lemma {:induction false} TrimStartEnds(s: string)
    ensures TrimStart(s) != [] ==> TrimStart(s)[0] != '.'
    ensures s != [] && s[0] != '.' ==> TrimStart(s) == s
  {
    if s != [] && s[0] == '.' {
      TrimStartEnds(s[1..]);
    }
  }

  lemma {:induction false} TrimEndEnds(s: string)
    ensures TrimEnd(s) <= s
    ensures TrimEnd(s) != [] ==> TrimEnd(s)[|TrimEnd(s)| - 1] != '.'
    ensures s != [] && s[|s| - 1] != '.' ==> TrimEnd(s) == s
  {
    if s != [] && s[|s| - 1] == '.' {
      TrimEndEnds(s[..|s| - 1]);
    }
  }

  lemma LowerTwice(s: string)
    ensures Lower(Lower(s)) == Lower(s)
  {
  }

  /** A canonical name has no dot at either end, and canonical form is final. */
  lemma CanonicalIsFinal(domain: string)
    ensures NoDotAtEnds(Canonical(domain))
    ensures Canonical(Canonical(domain)) == Canonical(domain)
  {
    var a := TrimStart(domain);
    var b := TrimEnd(a);
    TrimStartEnds(domain);
    TrimEndEnds(a);
    var c := Lower(b);
    assert NoDotAtEnds(c);
    TrimStartEnds(c);
    TrimEndEnds(c);
    LowerTwice(b);
  }

  // ----- suffixes

  predicate EndsWith(s: string, end: string) {
    |end| <= |s| && s[|s| - |end|..] == end
  }

  /** `domain_matches_suffix`. */
  predicate DomainMatchesSuffix(domain: string, suffix: string) {
    var d := Canonical(domain);
    var s := Canonical(suffix);
    if |d| < |s| then false
    else if |d| == |s| then d == s
    else EndsWith(d, s) && d[|d| - |s| - 1] == '.'
  }

  /** The rest of the name behind one of its dots, or the name itself. */
  predicate IsTail(d: string, t: string) {
    d == t || exists i | 0 <= i < |d| :: d[i] == '.' && d[i + 1..] == t
  }

  /** Only one dot leaves a rest of this length. */
  lemma TailAt(d: string, s: string, i: nat)
    requires i < |d| && d[i] == '.' && d[i + 1..] == s
    ensures |s| < |d| && i == |d| - |s| - 1 && EndsWith(d, s)
  {
  }

  lemma IsTailByLength(d: string, s: string)
    ensures IsTail(d, s) <==> d == s || (|s| < |d| && EndsWith(d, s) && d[|d| - |s| - 1] == '.')
  {
    if |s| < |d| && EndsWith(d, s) && d[|d| - |s| - 1] == '.' {
      var i := |d| - |s| - 1;
      assert d[i + 1..] == s;
    }
    if IsTail(d, s) && d != s {
      hide EndsWith;
      var i :| 0 <= i < |d| && d[i] == '.' && d[i + 1..] == s;
      TailAt(d, s, i);
    }
  }

  lemma MatchesSuffixIsTail(domain: string, suffix: string)
    ensures DomainMatchesSuffix(domain, suffix) <==> IsTail(Canonical(domain), Canonical(suffix))
  {
    hide Canonical, IsTail, EndsWith;
    IsTailByLength(Canonical(domain), Canonical(suffix));
  }

  // ----- configured domain lists

  datatype DomainSet = DomainSet(exact: set<string>, suffixes: set<string>)

  predicate IsSuffixPattern(pattern: string) {
    pattern != [] && pattern[0] == '.'
  }

  /** What one configured pattern means; a pattern of dots alone means nothing. */
  predicate PatternMatches(pattern: string, domain: string) {
    && Canonical(pattern) != []
    && if IsSuffixPattern(pattern) then DomainMatchesSuffix(domain, pattern)
       else Canonical(domain) == Canonical(pattern)
  }

  ghost predicate HoldsPattern(ds: DomainSet, patterns: seq<string>) {
    && (forall x :: x in ds.exact <==>
                    exists p | p in patterns :: !IsSuffixPattern(p) && x == Canonical(p) && x != [])
    && (forall x :: x in ds.suffixes <==>
                    exists p | p in patterns :: IsSuffixPattern(p) && x == Canonical(p) && x != [])
  }

  /** `DomainSet::compile`. */
  method Compile(patterns: seq<string>) returns (ds: DomainSet)
    ensures HoldsPattern(ds, patterns)
  {
    hide Canonical, IsSuffixPattern;
    var exact: set<string>, suffixes: set<string> := {}, {};
    for i := 0 to |patterns|
      invariant HoldsPattern(DomainSet(exact, suffixes), patterns[..i])
    {
      var raw := patterns[i];
      assert patterns[..i + 1] == patterns[..i] + [raw];
      if IsSuffixPattern(raw) {
        StripDot(raw);
        var norm := Canonical(raw[1..]);
        if norm != [] {
          suffixes := suffixes + {norm};
        }
      } else {
        var norm := Canonical(raw);
        if norm != [] {
          exact := exact + {norm};
        }
      }
    }
    assert patterns[..|patterns|] == patterns;
    ds := DomainSet(exact, suffixes);
  }

  lemma StripDot(pattern: string)
    requires IsSuffixPattern(pattern)
    ensures pattern != [] && Canonical(pattern[1..]) == Canonical(pattern)
  {
  }

  /** The tail search both indexes use: some tail of the name is a member. */
  predicate SomeTailIn(d: string, suffixes: set<string>) {
    exists t | t in suffixes :: IsTail(d, t)
  }

  lemma FirstDot(d: string, k: nat, pos: nat)
    requires k <= |d| && pos <= |d| - k && "." <= d[k..][pos..]
    requires forall j | 0 <= j < pos :: !("." <= d[k..][j..])
    ensures k + pos < |d| && d[k + pos] == '.'
    ensures forall i | k <= i < k + pos :: d[i] != '.'
  {
    assert d[k..][pos..] == d[k + pos..];
    forall i | k <= i < k + pos
      ensures d[i] != '.'
    {
      assert d[k..][i - k..][0] == d[i];
      assert !("." <= d[k..][i - k..]);
    }
  }

  lemma NoDot(d: string, k: nat)
    requires k <= |d| && forall j | 0 <= j <= |d| - k :: !("." <= d[k..][j..])
    ensures forall i | k <= i < |d| :: d[i] != '.'
  {
    forall i | k <= i < |d|
      ensures d[i] != '.'
    {
      assert d[k..][i - k..][0] == d[i];
      assert !("." <= d[k..][i - k..]);
    }
  }

  /** A tail begins at the start of the name or behind a dot. */
  predicate StartsTail(d: string, k: nat)
    requires k <= |d|
  {
    k == 0 || d[k - 1] == '.'
  }

  /** No tail that begins before `k` is a member. */
  predicate NoneBefore(d: string, k: nat, suffixes: set<string>)
    requires k <= |d|
  {
    forall i: nat | i < k && StartsTail(d, i) :: d[i..] !in suffixes
  }

  lemma FoundTail(d: string, k: nat, suffixes: set<string>)
    requires k <= |d| && StartsTail(d, k) && d[k..] in suffixes
    ensures SomeTailIn(d, suffixes)
  {
    assert IsTail(d, d[k..]) by {
      if k == 0 {
        assert d[k..] == d;
      }
    }
  }

  lemma NoTail(d: string, suffixes: set<string>)
    requires NoneBefore(d, |d|, suffixes) && (StartsTail(d, |d|) ==> d[|d|..] !in suffixes)
    ensures !SomeTailIn(d, suffixes)
  {
    forall t | t in suffixes
      ensures !IsTail(d, t)
    {
      assert d[0..] == d;
      assert StartsTail(d, 0);
      forall i | 0 <= i < |d| && d[i] == '.'
        ensures d[i + 1..] != t
      {
        assert StartsTail(d, i + 1);
      }
    }
  }

  lemma StepOver(d: string, k: nat, next: nat, suffixes: set<string>)
    requires k < next <= |d| && NoneBefore(d, k, suffixes) && d[k..] !in suffixes
    requires forall i | k <= i < next - 1 :: d[i] != '.'
    ensures NoneBefore(d, next, suffixes)
  {
  }

  /** `DomainSet::matches_canonical`: steps from label to label. */
  method MatchesCanonical(ds: DomainSet, d: string) returns (r: bool)
    ensures r <==> d in ds.exact || SomeTailIn(d, ds.suffixes)
  {
    hide NoneBefore, SomeTailIn, IsTail;
    if d in ds.exact {
      return true;
    }
    var k := 0;
    assert NoneBefore(d, 0, ds.suffixes) by { NothingBefore(d, ds.suffixes); }
    while true
      invariant k <= |d| && StartsTail(d, k) && NoneBefore(d, k, ds.suffixes)
      decreases |d| - k
    {
      var candidate := d[k..];
      if candidate in ds.suffixes {
        FoundTail(d, k, ds.suffixes);
        return true;
      }
      FindIsFirst(candidate, ".");
      match Find(candidate, ".") {
        case Some(pos) => {
          FirstDot(d, k, pos);
          StepOver(d, k, k + pos + 1, ds.suffixes);
          k := k + pos + 1;
        }
        case None => {
          NoDot(d, k);
          LastTail(d, k, ds.suffixes);
          return false;
        }
      }
    }
  }

  lemma NothingBefore(d: string, suffixes: set<string>)
    ensures NoneBefore(d, 0, suffixes)
  {
  }

  lemma LastTail(d: string, k: nat, suffixes: set<string>)
    requires k <= |d| && NoneBefore(d, k, suffixes) && d[k..] !in suffixes
    requires forall i | k <= i < |d| :: d[i] != '.'
    ensures !SomeTailIn(d, suffixes)
  {
    if k < |d| {
      StepOver(d, k, |d|, suffixes);
    }
    NoTail(d, suffixes);
  }

  /** A compiled set holds only canonical names. */
  predicate AllCanonical(names: set<string>) {
    forall x | x in names :: Canonical(x) == x
  }

  /** Stepping through the labels is the same as asking each stored suffix. */
  lemma LabelsAreSuffixes(suffixes: set<string>, domain: string)
    requires AllCanonical(suffixes)
    ensures SomeTailIn(Canonical(domain), suffixes) <==> exists s | s in suffixes :: DomainMatchesSuffix(domain, s)
  {
    hide Canonical, DomainMatchesSuffix, IsTail;
    forall s | s in suffixes
      ensures DomainMatchesSuffix(domain, s) <==> IsTail(Canonical(domain), s)
    {
      MatchesSuffixIsTail(domain, s);
    }
  }

  /** A compiled list answers for every domain what its patterns say one by one. */
  lemma CompiledListIsPatterns(ds: DomainSet, patterns: seq<string>, domain: string)
    requires HoldsPattern(ds, patterns)
    ensures (Canonical(domain) in ds.exact || SomeTailIn(Canonical(domain), ds.suffixes))
            <==> exists p | p in patterns :: PatternMatches(p, domain)
  {
    hide Canonical, DomainMatchesSuffix, IsTail, IsSuffixPattern;
    var d := Canonical(domain);
    forall p | p in patterns
      ensures IsSuffixPattern(p) ==> (DomainMatchesSuffix(domain, p) <==> IsTail(d, Canonical(p)))
    {
      MatchesSuffixIsTail(domain, p);
    }
    if p :| p in patterns && PatternMatches(p, domain) {
      if IsSuffixPattern(p) {
        assert Canonical(p) in ds.suffixes;
      }
    }
    if SomeTailIn(d, ds.suffixes) {
      var t :| t in ds.suffixes && IsTail(d, t);
      var p :| p in patterns && IsSuffixPattern(p) && t == Canonical(p) && t != [];
      assert PatternMatches(p, domain);
    }
    if d in ds.exact {
      var p :| p in patterns && !IsSuffixPattern(p) && d == Canonical(p) && d != [];
      assert PatternMatches(p, domain);
    }
  }

  // ----- geosite rules

  /** The rule types by their number in the file: 0, 1, 2, 3 and the rest. */
  datatype RuleType = Plain | Regex | Domain | Full | Unknown(code: int)

  function RuleTypeOf(code: int): RuleType {
    match code
    case 0 => Plain
    case 1 => Regex
    case 2 => Domain
    case 3 => Full
    case _ => Unknown(code)
  }

  datatype Rule = Rule(code: int, value: string)

  /** `str::contains`. */
  predicate Contains(s: string, part: string) {
    exists i | 0 <= i <= |s| :: part <= s[i..]
  }

  /** `geosite_domain_match`: one rule against one name. */
  predicate RuleMatches(rule: Rule, domain: string) {
    var d := Canonical(domain);
    var v := Canonical(rule.value);
    match RuleTypeOf(rule.code)
    case Plain => v != [] && Contains(d, v)
    case Regex => false
    case Domain => DomainMatchesSuffix(d, v)
    case Full => v != [] && d == v
    case Unknown(_) => false
  }

  datatype CompiledTag = CompiledTag(exact: set<string>, suffixes: set<string>, plain: seq<string>)

  /** `xs` holds the names of the rules of one type, but no empty one. */
  ghost predicate HoldsNames(xs: set<string>, rules: seq<Rule>, t: RuleType) {
    forall x :: x in xs <==> exists r | r in rules :: RuleTypeOf(r.code) == t && x == Canonical(r.value) && x != []
  }

  ghost predicate HoldsRules(tag: CompiledTag, rules: seq<Rule>) {
    && HoldsNames(tag.exact, rules, Full)
    && HoldsNames(tag.suffixes, rules, Domain)
    && HoldsNames(ToSet(tag.plain), rules, Plain)
  }

  lemma HoldsOneMore(xs: set<string>, rules: seq<Rule>, r: Rule, t: RuleType)
    requires HoldsNames(xs, rules, t)
    ensures RuleTypeOf(r.code) == t && Canonical(r.value) != [] ==>
              HoldsNames(xs + {Canonical(r.value)}, rules + [r], t)
    ensures !(RuleTypeOf(r.code) == t && Canonical(r.value) != []) ==> HoldsNames(xs, rules + [r], t)
  {
    hide Canonical, RuleTypeOf;
    assert forall q :: q in rules + [r] <==> q in rules || q == r;
  }

  /** `compile_geosite`, for one tag. */
  method CompileTag(rules: seq<Rule>) returns (tag: CompiledTag)
    ensures HoldsRules(tag, rules)
  {
    tag := CompiledTag({}, {}, []);
    NothingHeld();
    hide Canonical, RuleTypeOf, HoldsNames;
    for i := 0 to |rules|
      invariant HoldsRules(tag, rules[..i])
    {
      var rule := rules[i];
      assert rules[..i + 1] == rules[..i] + [rule];
      ghost var plain := ToSet(tag.plain);
      HoldsOneMore(tag.exact, rules[..i], rule, Full);
      HoldsOneMore(tag.suffixes, rules[..i], rule, Domain);
      HoldsOneMore(plain, rules[..i], rule, Plain);
      var value := Canonical(rule.value);
      if value != [] {
        match RuleTypeOf(rule.code) {
          case Full => tag := tag.(exact := tag.exact + {value});
          case Domain => tag := tag.(suffixes := tag.suffixes + {value});
          case Plain => {
            assert ToSet(tag.plain + [value]) == plain + {value};
            tag := tag.(plain := tag.plain + [value]);
          }
          case _ =>
        }
      }
    }
    assert rules[..|rules|] == rules;
  }

  lemma NothingHeld()
    ensures HoldsRules(CompiledTag({}, {}, []), [])
  {
  }

  /** What the compiled tag answers. */
  predicate TagHolds(tag: CompiledTag, d: string) {
    d in tag.exact || SomeTailIn(d, tag.suffixes) || exists p | p in tag.plain :: Contains(d, p)
  }

  /** `compiled_geosite_contains`; without such a tag the answer is no. */
  method CompiledContains(compiled: map<string, CompiledTag>, tag: string, domain: string) returns (r: bool)
    ensures r <==> tag in compiled && TagHolds(compiled[tag], Canonical(domain))
  {
    hide Canonical, Contains;
    if tag !in compiled {
      return false;
    }
    var ct := compiled[tag];
    var d := Canonical(domain);
    if d in ct.exact || d in ct.suffixes {
      return true;
    }
    for i := 0 to |d|
      invariant forall j | 0 <= j < i && d[j] == '.' :: d[j + 1..] !in ct.suffixes
    {
      if d[i] == '.' && d[i + 1..] in ct.suffixes {
        return true;
      }
    }
    assert !SomeTailIn(d, ct.suffixes);
    for i := 0 to |ct.plain|
      invariant forall j | 0 <= j < i :: !Contains(d, ct.plain[j])
    {
      if Contains(d, ct.plain[i]) {
        return true;
      }
    }
    return false;
  }

  /** Some rule for whole domains has no name in it. */
  predicate HasEmptyDomainRule(rules: seq<Rule>) {
    exists r | r in rules :: RuleTypeOf(r.code).Domain? && Canonical(r.value) == []
  }

  lemma ContainsPart(d: string, v: string)
    ensures v != [] && Contains(d, v) ==> d != []
  {
  }

  lemma TailOfEmpty(d: string, t: string)
    requires NoDotAtEnds(d) && IsTail(d, t)
    ensures d != [] <==> t != []
  {
  }

  /** One rule, seen from its place in the index. */
  lemma RuleInIndex(rule: Rule, domain: string)
    ensures var d := Canonical(domain); var v := Canonical(rule.value);
            RuleMatches(rule, domain) <==>
            match RuleTypeOf(rule.code)
            case Plain => v != [] && Contains(d, v)
            case Domain => IsTail(d, v)
            case Full => v != [] && d == v
            case _ => false
  {
    var d, v := Canonical(domain), Canonical(rule.value);
    CanonicalIsFinal(domain);
    CanonicalIsFinal(rule.value);
    hide Canonical, IsTail, Contains;
    MatchesSuffixIsTail(d, v);
  }

  /** Found in the index: then some rule matches. */
  lemma IndexedMeansMatched(tag: CompiledTag, rules: seq<Rule>, domain: string)
    requires HoldsRules(tag, rules) && TagHolds(tag, Canonical(domain))
    ensures Canonical(domain) != [] && exists r | r in rules :: RuleMatches(r, domain)
  {
    CanonicalIsFinal(domain);
    hide Canonical, IsTail, Contains, RuleTypeOf, RuleMatches, NoDotAtEnds;
    var d := Canonical(domain);
    if d in tag.exact {
      var r :| r in rules && RuleTypeOf(r.code) == Full && d == Canonical(r.value) && d != [];
      RuleInIndex(r, domain);
    } else if SomeTailIn(d, tag.suffixes) {
      var t :| t in tag.suffixes && IsTail(d, t);
      var r :| r in rules && RuleTypeOf(r.code) == Domain && t == Canonical(r.value) && t != [];
      RuleInIndex(r, domain);
      TailOfEmpty(d, t);
    } else {
      var p :| p in tag.plain && Contains(d, p);
      assert p in ToSet(tag.plain);
      var r :| r in rules && RuleTypeOf(r.code) == Plain && p == Canonical(r.value) && p != [];
      RuleInIndex(r, domain);
      ContainsPart(d, p);
    }
  }

  /** A rule matches a real name: then the index has it. */
  lemma MatchedMeansIndexed(tag: CompiledTag, rules: seq<Rule>, rule: Rule, domain: string)
    requires HoldsRules(tag, rules) && rule in rules && RuleMatches(rule, domain) && Canonical(domain) != []
    ensures TagHolds(tag, Canonical(domain))
  {
    CanonicalIsFinal(domain);
    hide Canonical, IsTail, Contains, RuleTypeOf, RuleMatches, NoDotAtEnds;
    RuleInIndex(rule, domain);
    var d, v := Canonical(domain), Canonical(rule.value);
    if RuleTypeOf(rule.code).Domain? {
      TailOfEmpty(d, v);
    } else if RuleTypeOf(rule.code).Plain? {
      assert v in ToSet(tag.plain);
    }
  }

  /** The index agrees with the rules one by one, except for an empty name and a rule without a name. */
  lemma IndexAgreesWithRules(tag: CompiledTag, rules: seq<Rule>, domain: string)
    requires HoldsRules(tag, rules)
    ensures (TagHolds(tag, Canonical(domain)) <==> exists r | r in rules :: RuleMatches(r, domain))
            <==> !(Canonical(domain) == [] && HasEmptyDomainRule(rules))
  {
    if TagHolds(tag, Canonical(domain)) {
      IndexedMeansMatched(tag, rules, domain);
    } else if Canonical(domain) != [] {
      NotIndexed(tag, rules, domain);
    } else {
      EmptyNameMatches(rules, domain);
    }
  }

  lemma NotIndexed(tag: CompiledTag, rules: seq<Rule>, domain: string)
    requires HoldsRules(tag, rules) && Canonical(domain) != [] && !TagHolds(tag, Canonical(domain))
    ensures !exists r | r in rules :: RuleMatches(r, domain)
  {
    hide Canonical, RuleMatches, HoldsRules, TagHolds;
    if r :| r in rules && RuleMatches(r, domain) {
      MatchedMeansIndexed(tag, rules, r, domain);
    }
  }

  /** An empty name is matched only by a rule for whole domains without a name in it. */
  lemma EmptyNameMatches(rules: seq<Rule>, domain: string)
    requires Canonical(domain) == []
    ensures (exists r | r in rules :: RuleMatches(r, domain)) <==> HasEmptyDomainRule(rules)
  {
    forall r | r in rules
      ensures RuleMatches(r, domain) <==> RuleTypeOf(r.code).Domain? && Canonical(r.value) == []
    {
      RuleInIndex(r, domain);
      ContainsPart([], Canonical(r.value));
      EmptyTail(Canonical(r.value));
    }
  }

  lemma EmptyTail(v: string)
    ensures IsTail([], v) <==> v == []
  {
  }

  // a whole index

  ghost predicate HoldsIndex(compiled: map<string, CompiledTag>, index: map<string, seq<Rule>>) {
    compiled.Keys == index.Keys && forall tag | tag in index :: HoldsRules(compiled[tag], index[tag])
  }

  /** `compile_geosite`: every tag of the index. */
  method CompileIndex(index: map<string, seq<Rule>>) returns (compiled: map<string, CompiledTag>)
    ensures HoldsIndex(compiled, index)
  {
    hide HoldsRules;
    compiled := map[];
    var tags := index.Keys;
    while tags != {}
      invariant tags <= index.Keys && compiled.Keys == index.Keys - tags
      invariant forall tag | tag in compiled :: HoldsRules(compiled[tag], index[tag])
      decreases tags
    {
      var tag :| tag in tags;
      var ct := CompileTag(index[tag]);
      compiled := compiled[tag := ct];
      tags := tags - {tag};
    }
  }

  /** Some rule of the tag matches the name; a tag that is not in the index has no rules. */
  predicate TagMatches(index: map<string, seq<Rule>>, tag: string, domain: string) {
    tag in index && exists r | r in index[tag] :: RuleMatches(r, domain)
  }

  /**
   Compiling a whole index and asking it for any tag and any name answers what the rules say,
   with the one exception.
   */
  method AskIndex(index: map<string, seq<Rule>>, tag: string, domain: string) returns (r: bool)
    ensures (r <==> TagMatches(index, tag, domain))
            <==> !(tag in index && Canonical(domain) == [] && HasEmptyDomainRule(index[tag]))
    ensures r ==> TagMatches(index, tag, domain)
  {
    hide HoldsRules, TagHolds, RuleMatches, Canonical, HasEmptyDomainRule;
    var compiled := CompileIndex(index);
    r := CompiledContains(compiled, tag, domain);
    if tag in index {
      IndexAgreesWithRules(compiled[tag], index[tag], domain);
      if r {
        IndexedMeansMatched(compiled[tag], index[tag], domain);
      }
    }
  }

  /** The exception is real: an empty name against a rule without a name. */
  lemma IndexCanDisagree(tag: CompiledTag)
    requires HoldsRules(tag, [Rule(2, "")])
    ensures RuleMatches(Rule(2, ""), ".") && !TagHolds(tag, Canonical("."))
  {
    assert Canonical(".") == [] by {
      assert TrimStart(".") == TrimStart([]) == [];
    }
    assert HasEmptyDomainRule([Rule(2, "")]) by {
      assert Rule(2, "") in [Rule(2, "")];
    }
    EmptyNameMatches([Rule(2, "")], ".");
    if TagHolds(tag, Canonical(".")) {
      IndexedMeansMatched(tag, [Rule(2, "")], ".");
    }
  }

  // ----- names and rules spelled out

  function Dots(n: nat): string {
    seq(n, _ => '.')
  }

  lemma {:induction false} TrimStartCuts(s: string) returns (a: nat)
    ensures s == Dots(a) + TrimStart(s)
  {
    if s != [] && s[0] == '.' {
      var rest := TrimStartCuts(s[1..]);
      a := rest + 1;
      assert Dots(a) == ['.'] + Dots(rest);
      assert s == ['.'] + s[1..];
    } else {
      a := 0;
    }
  }

  lemma {:induction false} TrimEndCuts(s: string) returns (b: nat)
    ensures s == TrimEnd(s) + Dots(b)
  {
    if s != [] && s[|s| - 1] == '.' {
      var rest := TrimEndCuts(s[..|s| - 1]);
      b := rest + 1;
      assert Dots(b) == Dots(rest) + ['.'];
      assert s == s[..|s| - 1] + ['.'];
    } else {
      b := 0;
    }
  }

  /** The canonical form is what is left between dots at the ends, with capital letters made small. */
  lemma CanonicalMeans(domain: string) returns (a: nat, name: string, b: nat)
    ensures domain == Dots(a) + name + Dots(b) && NoDotAtEnds(name) && |Canonical(domain)| == |name|
    ensures forall i | 0 <= i < |name| ::
              if 'A' <= name[i] <= 'Z' then Canonical(domain)[i] as int == name[i] as int + 32
              else Canonical(domain)[i] == name[i]
  {
    a := TrimStartCuts(domain);
    b := TrimEndCuts(TrimStart(domain));
    name := TrimEnd(TrimStart(domain));
    TrimStartEnds(domain);
    TrimEndEnds(TrimStart(domain));
    assert domain == Dots(a) + (name + Dots(b)) == Dots(a) + name + Dots(b);
  }

  lemma {:induction false} TrimStartOfLower(s: string)
    ensures TrimStart(Lower(s)) == Lower(TrimStart(s))
  {
    if s != [] && s[0] == '.' {
      assert Lower(s)[1..] == Lower(s[1..]);
      TrimStartOfLower(s[1..]);
    }
  }

  lemma {:induction false} TrimEndOfLower(s: string)
    ensures TrimEnd(Lower(s)) == Lower(TrimEnd(s))
  {
    if s != [] && s[|s| - 1] == '.' {
      assert Lower(s)[..|s| - 1] == Lower(s[..|s| - 1]);
      TrimEndOfLower(s[..|s| - 1]);
    }
  }

  /** Names that differ only in the case of letters have one canonical form. */
  lemma CaseDoesNotMatter(s: string, t: string)
    requires |s| == |t|
    requires forall i | 0 <= i < |s| ::
               || s[i] == t[i]
               || ('A' <= s[i] <= 'Z' && t[i] as int == s[i] as int + 32)
               || ('A' <= t[i] <= 'Z' && s[i] as int == t[i] as int + 32)
    ensures Canonical(s) == Canonical(t)
  {
    assert Lower(s) == Lower(t);
    TrimStartOfLower(s);
    TrimStartOfLower(t);
    TrimEndOfLower(TrimStart(s));
    TrimEndOfLower(TrimStart(t));
  }

  /** A pattern with a dot in front is for a domain and all below it, any other for one name. */
  lemma PatternMeans(pattern: string, domain: string)
    ensures var p, d := Canonical(pattern), Canonical(domain);
            PatternMatches(pattern, domain) <==>
            p != [] && (d == p || (pattern[..1] == "." && exists i | 0 <= i < |d| :: d[i] == '.' && d[i + 1..] == p))
  {
    MatchesSuffixIsTail(domain, pattern);
    EmptyIsCanonical();
    hide Canonical, DomainMatchesSuffix;
  }

  lemma EmptyIsCanonical()
    ensures Canonical([]) == []
  {
  }

  /**
   Types 3, 2 and 0 mean the name itself, the domain and all below it, and a part of the name;
   no other type matches.
   */
  lemma RuleMeans(rule: Rule, domain: string)
    requires Canonical(domain) != []
    ensures var d, v := Canonical(domain), Canonical(rule.value);
            RuleMatches(rule, domain) <==>
            && v != []
            && (|| (rule.code == 3 && d == v)
                || (rule.code == 2 && (d == v || exists i | 0 <= i < |d| :: d[i] == '.' && d[i + 1..] == v))
                || (rule.code == 0 && exists i | 0 <= i <= |d| :: v <= d[i..]))
  {
    var d, v := Canonical(domain), Canonical(rule.value);
    CanonicalIsFinal(domain);
    RuleInIndex(rule, domain);
    hide Canonical, RuleMatches;
    if IsTail(d, v) {
      TailOfEmpty(d, v);
    }
  }
}
