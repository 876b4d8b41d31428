/**
 The checker of IPv6 ranges (contrib/usr/libexec/xtp-rs/update-chnroute.sh): it accepts
 literals without regular expressions and compares addresses as strings.
 The reference is section 2.2 of RFC 4291, forms 1 and 2.
 */
module Ip6Range {
  import opened Common

  const COLON := ':'

  predicate IsHex(c: char) {
    '0' <= c <= '9' || 'a' <= c <= 'f' || 'A' <= c <= 'F'
  }

  predicate IsGroup(g: string) {
    1 <= |g| <= 4 && forall c | c in g :: IsHex(c)
  }

  predicate AreGroups(gs: seq<string>) {
    forall g | g in gs :: IsGroup(g)
  }

  // ----- the grammar

  /** Eight groups, or two runs of groups around "::". */
  datatype Literal = Full(groups: seq<string>) | Compressed(left: seq<string>, right: seq<string>)

  predicate WellFormed(l: Literal) {
    match l
    case Full(groups) => AreGroups(groups) && |groups| == 8
    case Compressed(left, right) => AreGroups(left) && AreGroups(right) && |left| + |right| <= 7
  }

  function Print(l: Literal): string {
    match l
    case Full(groups) => Join(groups, COLON)
    case Compressed(left, right) => Join(left, COLON) + "::" + Join(right, COLON)
  }

  // ----- what the checker computes

  /** `ip6_groups`: how many groups a piece without "::" has, -1 if it is malformed. */
  function GroupCount(seg: string): int {
    if seg == "" then 0
    else if AreGroups(Split(seg, COLON)) then |Split(seg, COLON)|
    else -1
  }

  /** `ip6_ok`. */
  predicate Accepts(t: string) {
    && t != "" && COLON in t
    && Find(t, ":::").None?
    && match Find(t, "::")
       case None => GroupCount(t) == 8
       case Some(pos) =>
         && GroupCount(t[..pos]) >= 0
         && GroupCount(t[pos + 2..]) >= 0
         && GroupCount(t[..pos]) + GroupCount(t[pos + 2..]) < 8
  }

  /** The groups of a piece; an empty piece has none. */
  function Pieces(seg: string): seq<string> {
    if seg == "" then [] else Split(seg, COLON)
  }

  /** The literal a text stands for. */
  function Parse(t: string): Literal {
    match Find(t, "::")
    case None => Full(Split(t, COLON))
    case Some(pos) => Compressed(Pieces(t[..pos]), Pieces(t[pos + 2..]))
  }

  // ----- acceptance is the grammar

  lemma CountOfPieces(seg: string)
    ensures GroupCount(seg) >= 0 <==> AreGroups(Pieces(seg))
    ensures GroupCount(seg) >= 0 ==> GroupCount(seg) == |Pieces(seg)|
    ensures Join(Pieces(seg), COLON) == seg
  {
    JoinSplit(seg, COLON);
  }

  /** Whatever is accepted is the printed form of a well-formed literal. */
  lemma AcceptedIsWellFormed(t: string)
    requires Accepts(t)
    ensures WellFormed(Parse(t)) && Print(Parse(t)) == t
  {
    hide Split, Join;
    match Find(t, "::")
    case None => JoinSplit(t, COLON);
    case Some(pos) =>
      CountOfPieces(t[..pos]);
      CountOfPieces(t[pos + 2..]);
      FindIsFirst(t, "::");
      assert t[pos..][..2] == "::";
      assert t == t[..pos] + "::" + t[pos + 2..];
  }

  /** No two colons side by side, and none at the ends. */
  predicate Clean(s: string) {
    && (forall i | 0 <= i < |s| - 1 :: !(s[i] == COLON && s[i + 1] == COLON))
    && (s != "" ==> s[0] != COLON && s[|s| - 1] != COLON)
  }

  lemma GroupHasNoColon(g: string)
    requires IsGroup(g)
    ensures COLON !in g && Clean(g)
  {
    assert !IsHex(COLON);
    assert forall i | 0 <= i < |g| :: g[i] in g;
  }

  lemma {:induction false} JoinIsClean(gs: seq<string>)
    requires AreGroups(gs)
    ensures Clean(Join(gs, COLON))
    ensures Join(gs, COLON) == "" <==> gs == []
    decreases |gs|
  {
    if gs == [] {
    } else {
      assert IsGroup(gs[0]) by { assert gs[0] in gs; }
      GroupHasNoColon(gs[0]);
      if |gs| > 1 {
        assert AreGroups(gs[1..]);
        JoinIsClean(gs[1..]);
        CleanJoins(gs[0], Join(gs[1..], COLON));
      }
    }
  }

  lemma CleanJoins(a: string, b: string)
    requires Clean(a) && Clean(b) && a != "" && b != ""
    ensures Clean(a + [COLON] + b)
  {
  }

  lemma CleanHasNoDoubleColon(s: string)
    requires Clean(s)
    ensures Find(s, "::").None? && Find(s, ":::").None?
  {
    forall j | 0 <= j <= |s| ensures !("::" <= s[j..]) && !(":::" <= s[j..]) {
      if |s| - j >= 2 {
        assert s[j..][0] == s[j] && s[j..][1] == s[j + 1];
      }
    }
    FindNone(s, "::");
    FindNone(s, ":::");
  }

  lemma FindBetweenClean(a: string, b: string)
    requires Clean(a) && Clean(b)
    ensures Find(a + "::" + b, "::") == Some(|a|)
  {
    hide Find;
    var t := a + "::" + b;
    assert t[|a|] == COLON && t[|a| + 1] == COLON;
    assert "::" <= t[|a|..] by { assert t[|a|..][..2] == "::"; }
    forall j | 0 <= j < |a| ensures !("::" <= t[j..]) {
      assert t[j..][0] == t[j] && t[j..][1] == t[j + 1];
      assert t[j] == a[j];
      if j + 1 < |a| { assert t[j + 1] == a[j + 1]; }
    }
    FindAt(t, "::", |a|);
  }

  lemma NoTripleBetweenClean(a: string, b: string)
    requires Clean(a) && Clean(b)
    ensures Find(a + "::" + b, ":::").None?
  {
    hide Find, Clean;
    var t := a + "::" + b;
    forall j | 0 <= j <= |t| ensures !(":::" <= t[j..]) {
      if |t| - j >= 3 {
        assert t[j..][0] == t[j] && t[j..][1] == t[j + 1] && t[j..][2] == t[j + 2];
        NoThreeColons(a, b, j);
      }
    }
    FindNone(t, ":::");
  }

  lemma NoThreeColons(a: string, b: string, j: nat)
    requires Clean(a) && Clean(b) && j + 3 <= |a| + 2 + |b|
    ensures var t := a + "::" + b; !(t[j] == COLON && t[j + 1] == COLON && t[j + 2] == COLON)
  {
    var t := a + "::" + b;
    if j < |a| {
      assert t[j] == a[j];
      assert j + 1 < |a| ==> t[j + 1] == a[j + 1];
    } else if j == |a| {
      assert t[j + 2] == b[0];
    } else {
      assert t[j + 2] == b[j - |a|];
      assert j - |a| > 0 ==> t[j + 1] == b[j - |a| - 1];
    }
  }

  lemma GroupsHaveNoColon(gs: seq<string>)
    requires AreGroups(gs)
    ensures forall g | g in gs :: COLON !in g
  {
    forall g | g in gs ensures COLON !in g {
      GroupHasNoColon(g);
    }
  }

  lemma PiecesOfJoin(gs: seq<string>)
    requires AreGroups(gs)
    ensures Pieces(Join(gs, COLON)) == gs
  {
    JoinIsClean(gs);
    GroupsHaveNoColon(gs);
    if gs != [] {
      SplitJoin(gs, COLON);
    }
  }

  /** Every well-formed literal is accepted and read back as itself. */
  lemma WellFormedIsAccepted(l: Literal)
    requires WellFormed(l)
    ensures Accepts(Print(l)) && Parse(Print(l)) == l
  {
    hide Split, Join, Find;
    match l
    case Full(groups) =>
      JoinIsClean(groups);
      CleanHasNoDoubleColon(Print(l));
      PiecesOfJoin(groups);
      CountOfPieces(Print(l));
      ColonInJoin(groups);
    case Compressed(left, right) =>
      var a, b := Join(left, COLON), Join(right, COLON);
      JoinIsClean(left);
      JoinIsClean(right);
      FindBetweenClean(a, b);
      NoTripleBetweenClean(a, b);
      var t := Print(l);
      assert t[..|a|] == a && t[|a| + 2..] == b && t[|a|] == COLON;
      PiecesOfJoin(left);
      PiecesOfJoin(right);
      CountOfPieces(a);
      CountOfPieces(b);
  }

  lemma ColonInJoin(gs: seq<string>)
    requires |gs| > 1
    ensures COLON in Join(gs, COLON)
  {
    assert Join(gs, COLON)[|gs[0]|] == COLON;
  }

  /** The checker accepts exactly the literals of the grammar. */
  lemma AcceptsExactlyTheGrammar(t: string)
    ensures Accepts(t) <==> exists l :: WellFormed(l) && Print(l) == t
  {
    hide Accepts, Parse, Print, WellFormed;
    if Accepts(t) {
      AcceptedIsWellFormed(t);
    }
    if l :| WellFormed(l) && Print(l) == t {
      WellFormedIsAccepted(l);
    }
  }

  // ----- the counting loop of the script

  lemma SplitOne(c: char)
    ensures Split([c], COLON) == if c == COLON then ["", ""] else [[c]]
  {
    assert [c][1..] == "";
    assert Split("", COLON) == [""];
    assert [c] + "" == [c];
  }

  /** The groups seen so far: the finished ones are well formed, the last one is still growing. */
  predicate Counted(done: string, groups: nat, glen: nat) {
    var parts := Split(done, COLON);
    && |parts| == groups + 1 && AreGroups(parts[..groups])
    && |parts[groups]| == glen <= 4 && forall c | c in parts[groups] :: IsHex(c)
  }

  /** One more character keeps the count, or shows that the piece is malformed. */
  lemma CountOneMore(done: string, c: char, rest: string, groups: nat, glen: nat)
    requires Counted(done, groups, glen)
    ensures c == COLON && glen > 0 ==> Counted(done + [c], groups + 1, 0)
    ensures c != COLON && IsHex(c) && glen < 4 ==> Counted(done + [c], groups, glen + 1)
    ensures (c == COLON && glen == 0) || (c != COLON && !IsHex(c)) || (c != COLON && glen == 4)
            ==> !AreGroups(Split(done + [c] + rest, COLON))
  {
    hide Split;
    SplitAppend(done, [c], COLON);
    SplitOne(c);
    var parts := Split(done, COLON);
    var last := parts[groups];
    var longer := Split(done + [c], COLON);
    if c == COLON {
      assert last + "" == last;
      assert longer == parts + [""];
      assert longer[..groups + 1] == parts;
      if glen > 0 { FinishGroup(parts, groups); }
    } else {
      assert longer == parts[..groups] + [last + [c]];
      assert longer[..groups] == parts[..groups];
      assert c in last + [c] && forall d | d in last + [c] :: d in last || d == c;
    }
    CountStuck(done + [c], rest, groups, if c == COLON then last else last + [c]);
  }

  lemma FinishGroup(parts: seq<string>, groups: nat)
    requires |parts| == groups + 1 && AreGroups(parts[..groups]) && IsGroup(parts[groups])
    ensures AreGroups(parts)
  {
    assert parts == parts[..groups] + [parts[groups]];
  }

  /** A piece that is already wrong stays wrong. */
  lemma CountStuck(done: string, rest: string, groups: nat, piece: string)
    requires |Split(done, COLON)| > groups && Split(done, COLON)[groups] == piece
    ensures piece == "" && |Split(done, COLON)| > groups + 1 ==> !AreGroups(Split(done + rest, COLON))
    ensures |piece| > 4 || (exists c :: c in piece && !IsHex(c)) ==> !AreGroups(Split(done + rest, COLON))
  {
    hide Split;
    SplitAppend(done, rest, COLON);
    var whole := Split(done + rest, COLON);
    assert piece <= whole[groups];
    assert whole[groups] in whole;
    assert forall c | c in piece :: c in whole[groups];
  }

  method CountGroups(seg: string) returns (r: int)
    ensures r == GroupCount(seg)
  {
    hide Split, AreGroups, Counted;
    var n := |seg|;
    if n == 0 {
      return 0;
    }
    var i: nat, glen: nat, groups: nat := 0, 0, 0;
    NothingCounted();
    while i < n
      invariant 0 <= i <= n
      invariant Counted(seg[..i], groups, glen)
    {
      var c := seg[i];
      CountOneMore(seg[..i], c, seg[i + 1..], groups, glen);
      assert seg[..i] + [c] + seg[i + 1..] == seg;
      assert seg[..i + 1] == seg[..i] + [c];
      CountBound(seg[..i], groups, glen);
      if c == COLON {
        if glen == 0 {
          return -1;
        }
        groups, glen, i := groups + 1, 0, i + 1;
        continue;
      }
      if !IsHex(c) {
        return -1;
      }
      glen := glen + 1;
      if glen > 4 {
        return -1;
      }
      i := i + 1;
    }
    assert seg[..n] == seg;
    CountDone(seg, groups, glen);
    if glen == 0 {
      return -1;
    }
    return groups + 1;
  }

  lemma NothingCounted()
    ensures Counted("", 0, 0)
  {
  }

  lemma CountBound(done: string, groups: nat, glen: nat)
    requires Counted(done, groups, glen)
    ensures glen <= 4
  {
  }

  lemma CountDone(seg: string, groups: nat, glen: nat)
    requires Counted(seg, groups, glen)
    ensures |Split(seg, COLON)| == groups + 1
    ensures AreGroups(Split(seg, COLON)) <==> glen > 0
  {
    hide Split;
    var parts := Split(seg, COLON);
    if glen > 0 {
      FinishGroup(parts, groups);
    } else {
      assert parts[groups] in parts;
    }
  }

  method IsLiteral(t: string) returns (r: bool)
    ensures r == Accepts(t)
  {
    hide Split, Find, GroupCount;
    if t == "" || COLON !in t {
      return false;
    }
    if Find(t, ":::").Some? {
      return false;
    }
    var pos := Find(t, "::");
    if pos.None? {
      var n := CountGroups(t);
      return n == 8;
    }
    var nl := CountGroups(t[..pos.value]);
    if nl < 0 {
      return false;
    }
    var nr := CountGroups(t[pos.value + 2..]);
    if nr < 0 {
      return false;
    }
    return nl + nr < 8;
  }

  // ----- addresses and keys

  function HexDigit(c: char): (d: nat)
    requires IsHex(c)
    ensures d < 16
  {
    if c <= '9' then c as int - '0' as int
    else if c <= 'F' then c as int - 'A' as int + 10
    else c as int - 'a' as int + 10
  }

  predicate AllHex(s: string) {
    forall c | c in s :: IsHex(c)
  }

  function HexValue(s: string): nat
    requires AllHex(s)
  {
    if s == "" then 0
    else
      assert s[|s| - 1] in s;
      assert forall c | c in s[..|s| - 1] :: c in s;
      16 * HexValue(s[..|s| - 1]) + HexDigit(s[|s| - 1])
  }

  function Zeros(n: nat): (gs: seq<string>)
    ensures |gs| == n && AreGroups(gs)
  {
    seq(n, _ => "0")
  }

  /** The eight groups of the address. */
  function Expand(l: Literal): (gs: seq<string>)
    requires WellFormed(l)
    ensures |gs| == 8 && AreGroups(gs)
  {
    match l
    case Full(groups) => groups
    case Compressed(left, right) => left + Zeros(8 - |left| - |right|) + right
  }

  function Number(gs: seq<string>): nat
    requires AreGroups(gs)
  {
    if gs == [] then 0
    else
      assert gs[|gs| - 1] in gs;
      65536 * Number(gs[..|gs| - 1]) + HexValue(gs[|gs| - 1])
  }

  /** The 128-bit address of a literal. */
  function Address(l: Literal): nat
    requires WellFormed(l)
  {
    Number(Expand(l))
  }

  function Upper(c: char): char {
    if 'a' <= c <= 'z' then (c as int - 32) as char else c
  }

  function UpperAll(s: string): (r: string)
    ensures |r| == |s|
  {
    seq(|s|, i requires 0 <= i < |s| => Upper(s[i]))
  }

  /** A group in upper case, padded to four digits. */
  function Padded(g: string): (r: string)
    requires |g| <= 4
    ensures |r| == 4
  {
    seq(4 - |g|, _ => '0') + UpperAll(g)
  }

  function PaddedAll(gs: seq<string>): (r: string)
    requires AreGroups(gs)
    ensures |r| == 4 * |gs|
  {
    if gs == [] then ""
    else
      assert gs[|gs| - 1] in gs;
      PaddedAll(gs[..|gs| - 1]) + Padded(gs[|gs| - 1])
  }

  /** `ip6_key`, for accepted texts: 32 digits. */
  function KeyOf(t: string): (key: string)
    requires Accepts(t)
    ensures |key| == 32
  {
    AcceptedIsWellFormed(t);
    PaddedAll(Expand(Parse(t)))
  }

  // ----- the key loop of the script

  method PadGroup(part: string) returns (g: string)
    requires |part| <= 4
    ensures g == Padded(part)
  {
    hide UpperAll;
    g := UpperAll(part);
    ghost var zeros := 0;
    assert seq(0, _ => '0') + g == g;
    while |g| < 4
      invariant |g| == zeros + |part| <= 4
      invariant g == seq(zeros, _ => '0') + UpperAll(part)
    {
      OneMoreZero(zeros, UpperAll(part));
      g := "0" + g;
      zeros := zeros + 1;
    }
  }

  lemma OneMoreZero(n: nat, s: string)
    ensures "0" + (seq(n, _ => '0') + s) == seq(n + 1, _ => '0') + s
  {
  }

  method AppendPadded(out: string, parts: seq<string>) returns (r: string)
    requires AreGroups(parts)
    ensures r == out + PaddedAll(parts)
  {
    hide Padded;
    r := out;
    for i := 0 to |parts|
      invariant r == out + PaddedAll(parts[..i])
    {
      assert parts[i] in parts;
      var g := PadGroup(parts[i]);
      assert parts[..i + 1][..i] == parts[..i];
      r := r + g;
    }
    assert parts[..|parts|] == parts;
  }

  method AppendZeros(out: string, miss: nat) returns (r: string)
    ensures AreGroups(Zeros(miss)) && r == out + PaddedAll(Zeros(miss))
  {
    r := out;
    for i := 0 to miss
      invariant r == out + PaddedAll(Zeros(i))
    {
      assert Zeros(i + 1)[..i] == Zeros(i);
      assert Padded("0") == "0000";
      r := r + "0000";
    }
  }

  method MakeKey(t: string) returns (key: string)
    requires Accepts(t)
    ensures key == KeyOf(t)
  {
    hide Accepts, Split, Find, PaddedAll, AreGroups;
    AcceptedIsWellFormed(t);
    var pos := Find(t, "::");
    if pos.None? {
      key := AppendPadded("", Split(t, COLON));
    } else {
      var head, tail := Pieces(t[..pos.value]), Pieces(t[pos.value + 2..]);
      var miss := 8 - |head| - |tail|;
      key := AppendPadded("", head);
      key := AppendZeros(key, miss);
      key := AppendPadded(key, tail);
      PaddedOfThree(head, Zeros(miss), tail);
    }
  }

  lemma PaddedOfThree(a: seq<string>, b: seq<string>, c: seq<string>)
    requires AreGroups(a) && AreGroups(b) && AreGroups(c)
    ensures AreGroups(a + b + c) && PaddedAll(a + b + c) == "" + PaddedAll(a) + PaddedAll(b) + PaddedAll(c)
  {
    PaddedAppend(a, b);
    PaddedAppend(a + b, c);
  }

  lemma {:induction false} PaddedAppend(a: seq<string>, b: seq<string>)
    requires AreGroups(a) && AreGroups(b)
    ensures PaddedAll(a + b) == PaddedAll(a) + PaddedAll(b)
    decreases |b|
  {
    if b == [] {
      assert a + b == a;
    } else {
      var n := |b| - 1;
      assert (a + b)[..|a| + n] == a + b[..n];
      PaddedAppend(a, b[..n]);
    }
  }

  // ----- dictionary order is numeric order

  function Pow16(n: nat): (p: nat)
    ensures p > 0
  {
    if n == 0 then 1 else 16 * Pow16(n - 1)
  }

  /** The strict dictionary order of the C locale. */
  predicate Before(s: string, t: string) {
    if s == "" || t == "" then s == "" && t != ""
    else s[0] < t[0] || (s[0] == t[0] && Before(s[1..], t[1..]))
  }

  predicate IsUpperHex(c: char) {
    '0' <= c <= '9' || 'A' <= c <= 'F'
  }

  predicate AllUpperHex(s: string) {
    forall c | c in s :: IsUpperHex(c)
  }

  lemma HexSnoc(s: string, c: char)
    requires AllHex(s) && IsHex(c)
    ensures AllHex(s + [c]) && HexValue(s + [c]) == 16 * HexValue(s) + HexDigit(c)
  {
    assert (s + [c])[..|s|] == s;
  }

  lemma ShiftOnce(v: nat, p: nat)
    ensures v * (16 * p) == 16 * (v * p)
  {
  }

  lemma {:induction false} HexAppend(s: string, t: string)
    requires AllHex(s) && AllHex(t)
    ensures AllHex(s + t) && HexValue(s + t) == HexValue(s) * Pow16(|t|) + HexValue(t)
    decreases |t|
  {
    hide HexValue, IsHex;
    if t == "" {
      assert s + t == s;
      NoDigits();
    } else {
      var n := |t| - 1;
      assert t[n] in t && forall c | c in t[..n] :: c in t;
      HexAppend(s, t[..n]);
      assert s + t == (s + t[..n]) + [t[n]];
      assert t == t[..n] + [t[n]];
      HexSnoc(s + t[..n], t[n]);
      HexSnoc(t[..n], t[n]);
      ShiftOnce(HexValue(s), Pow16(n));
    }
  }

  lemma {:induction false} HexBound(s: string)
    requires AllHex(s)
    ensures HexValue(s) < Pow16(|s|)
  {
    if s != "" {
      assert forall c | c in s[..|s| - 1] :: c in s;
      HexBound(s[..|s| - 1]);
    }
  }

  lemma HexFront(s: string)
    requires AllHex(s) && s != ""
    ensures IsHex(s[0]) && AllHex(s[1..])
    ensures HexValue(s) == HexDigit(s[0]) * Pow16(|s| - 1) + HexValue(s[1..]) && HexValue(s[1..]) < Pow16(|s| - 1)
  {
    assert s[0] in s && forall c | c in s[1..] :: c in s;
    assert s == [s[0]] + s[1..];
    HexAppend([s[0]], s[1..]);
    assert HexValue([s[0]]) == HexDigit(s[0]) by { assert [s[0]][..0] == ""; }
    HexBound(s[1..]);
  }

  lemma HeadDecides(a: nat, b: nat, p: nat, x: nat, y: nat)
    requires x < p && y < p
    ensures a < b ==> a * p + x < b * p + y
    ensures a == b ==> (a * p + x < b * p + y <==> x < y)
  {
    if a < b {
      assert (a + 1) * p <= b * p;
    }
  }

  lemma {:induction false} OrderIsNumeric(s: string, t: string)
    requires |s| == |t| && AllUpperHex(s) && AllUpperHex(t)
    ensures AllHex(s) && AllHex(t)
    ensures Before(s, t) <==> HexValue(s) < HexValue(t)
    decreases |s|
  {
    if s != "" {
      HexFront(s);
      HexFront(t);
      assert s[0] in s && t[0] in t;
      assert forall c | c in s[1..] :: c in s;
      assert forall c | c in t[1..] :: c in t;
      OrderIsNumeric(s[1..], t[1..]);
      var p := Pow16(|s| - 1);
      HeadDecides(HexDigit(s[0]), HexDigit(t[0]), p, HexValue(s[1..]), HexValue(t[1..]));
      HeadDecides(HexDigit(t[0]), HexDigit(s[0]), p, HexValue(t[1..]), HexValue(s[1..]));
    }
  }

  lemma {:induction false} ZerosAreNothing(n: nat)
    ensures AllHex(seq(n, _ => '0')) && HexValue(seq(n, _ => '0')) == 0
  {
    if n == 0 {
    } else {
      ZerosAreNothing(n - 1);
      assert seq(n, _ => '0')[..n - 1] == seq(n - 1, _ => '0');
    }
  }

  lemma UpperKeepsDigit(c: char)
    requires IsHex(c)
    ensures IsUpperHex(Upper(c)) && IsHex(Upper(c)) && HexDigit(Upper(c)) == HexDigit(c)
  {
  }

  lemma {:induction false} UpperKeepsValue(g: string)
    requires AllHex(g)
    ensures AllHex(UpperAll(g)) && AllUpperHex(UpperAll(g)) && HexValue(UpperAll(g)) == HexValue(g)
  {
    hide HexValue, IsHex, IsUpperHex, Upper;
    if g == "" {
      assert UpperAll(g) == g;
    } else {
      var n := |g| - 1;
      assert g[n] in g && forall c | c in g[..n] :: c in g;
      UpperKeepsValue(g[..n]);
      UpperKeepsDigit(g[n]);
      assert UpperAll(g) == UpperAll(g[..n]) + [Upper(g[n])];
      assert g == g[..n] + [g[n]];
      HexSnoc(g[..n], g[n]);
      HexSnoc(UpperAll(g[..n]), Upper(g[n]));
    }
  }

  lemma PaddedKeepsValue(g: string)
    requires IsGroup(g)
    ensures AllHex(Padded(g)) && AllUpperHex(Padded(g)) && HexValue(Padded(g)) == HexValue(g)
  {
    ZerosAreNothing(4 - |g|);
    UpperKeepsValue(g);
    HexAppend(seq(4 - |g|, _ => '0'), UpperAll(g));
  }

  lemma {:induction false} KeyKeepsValue(gs: seq<string>)
    requires AreGroups(gs)
    ensures AllHex(PaddedAll(gs)) && AllUpperHex(PaddedAll(gs)) && HexValue(PaddedAll(gs)) == Number(gs)
    decreases |gs|
  {
    hide HexValue, Padded, IsHex, IsUpperHex;
    if gs != [] {
      var n := |gs| - 1;
      assert gs[n] in gs;
      KeyKeepsValue(gs[..n]);
      PaddedKeepsValue(gs[n]);
      HexAppend(PaddedAll(gs[..n]), Padded(gs[n]));
      assert Pow16(4) == 65536 by { assert Pow16(2) == 256; }
    } else {
      NoDigits();
    }
  }

  lemma NoDigits()
    ensures HexValue("") == 0
  {
  }

  /** Comparing keys as strings compares addresses as numbers. */
  lemma KeyOrder(a: string, b: string)
    requires Accepts(a) && Accepts(b)
    ensures WellFormed(Parse(a)) && WellFormed(Parse(b))
    ensures Before(KeyOf(a), KeyOf(b)) <==> Address(Parse(a)) < Address(Parse(b))
  {
    hide Accepts, Parse, WellFormed, Before, PaddedAll, HexValue, Number, AllHex, AllUpperHex, Expand;
    AcceptedIsWellFormed(a);
    AcceptedIsWellFormed(b);
    KeyKeepsValue(Expand(Parse(a)));
    KeyKeepsValue(Expand(Parse(b)));
    OrderIsNumeric(KeyOf(a), KeyOf(b));
  }

  // ----- lines

  predicate IsBlank(c: char) {
    c == ' ' || c == '\t'
  }

  /** What is cut off at both ends of a line. */
  predicate IsEdge(c: char) {
    IsBlank(c) || c == '\r'
  }

  function TrimLeft(s: string): string {
    if s != "" && IsEdge(s[0]) then TrimLeft(s[1..]) else s
  }

  function TrimRight(s: string): string {
    if s != "" && IsEdge(s[|s| - 1]) then TrimRight(s[..|s| - 1]) else s
  }

  function TrimEdges(s: string): string {
    TrimRight(TrimLeft(s))
  }

  /** How many characters at the front are blank, or are not. */
  function RunLength(s: string, blank: bool): (n: nat)
    ensures n <= |s|
    ensures forall i | 0 <= i < n :: IsBlank(s[i]) == blank
    ensures n < |s| ==> IsBlank(s[n]) != blank
  {
    if s != "" && IsBlank(s[0]) == blank then 1 + RunLength(s[1..], blank) else 0
  }

  /** Columns between runs of blanks. */
  function Fields(s: string): seq<string>
    decreases |s|
  {
    var n := RunLength(s, false);
    if n == |s| then [s]
    else [s[..n]] + Fields(s[n + RunLength(s[n..], true)..])
  }

  datatype Judgement = Skip | Bad | Emit(first: string, last: string)

  function Judge(line: string): Judgement {
    var t := TrimEdges(line);
    if t == "" || t[0] == '#' then Skip
    else
      var f := Fields(t);
      if |f| != 2 || !Accepts(f[0]) || !Accepts(f[1]) then Bad
      else if Before(KeyOf(f[1]), KeyOf(f[0])) then Bad
      else Emit(f[0], f[1])
  }

  /** The output for the lines of a file, in order. */
  function Emitted(lines: seq<string>): seq<string> {
    if lines == [] then []
    else
      var j := Judge(lines[|lines| - 1]);
      Emitted(lines[..|lines| - 1]) + (if j.Emit? then ["      " + j.first + "-" + j.last + ",\n"] else [])
  }

  function Refused(lines: seq<string>): nat {
    if lines == [] then 0
    else Refused(lines[..|lines| - 1]) + (if Judge(lines[|lines| - 1]).Bad? then 1 else 0)
  }

  method JudgeLine(line: string) returns (j: Judgement)
    ensures j == Judge(line)
  {
    hide Accepts, KeyOf, TrimEdges, Fields;
    var t := TrimEdges(line);
    if t == "" || t[0] == '#' {
      return Skip;
    }
    var f := Fields(t);
    if |f| != 2 {
      return Bad;
    }
    var first := IsLiteral(f[0]);
    var last := IsLiteral(f[1]);
    if !first || !last {
      return Bad;
    }
    var low := MakeKey(f[0]);
    var high := MakeKey(f[1]);
    if Before(high, low) {
      return Bad;
    }
    return Emit(f[0], f[1]);
  }

  /** The whole program: its output, the number of bad lines, and its exit code. */
  method CheckRanges(lines: seq<string>) returns (out: seq<string>, bad: nat, exit: nat)
    ensures out == Emitted(lines) && bad == Refused(lines)
    ensures exit == 1 <==> out == []
  {
    hide Judge;
    out, bad := [], 0;
    var cnt := 0;
    for i := 0 to |lines|
      invariant out == Emitted(lines[..i]) && bad == Refused(lines[..i]) && cnt == |out|
    {
      assert lines[..i + 1][..i] == lines[..i];
      var j := JudgeLine(lines[i]);
      match j {
        case Skip =>
        case Bad => bad := bad + 1;
        case Emit(first, last) =>
          out := out + ["      " + first + "-" + last + ",\n"];
          cnt := cnt + 1;
      }
    }
    assert lines[..|lines|] == lines;
    exit := if cnt == 0 then 1 else 0;
  }

  // ----- what is emitted

  predicate AllEdges(s: string) {
    forall c | c in s :: IsEdge(c)
  }

  predicate AllBlank(s: string) {
    forall c | c in s :: IsBlank(c)
  }

  /** A column: not empty, no blanks, no carriage return. */
  predicate IsColumn(s: string) {
    s != "" && forall c | c in s :: !IsEdge(c)
  }

  lemma {:induction false} TrimLeftOfPadded(pad: string, s: string)
    requires AllEdges(pad) && s != "" && !IsEdge(s[0])
    ensures TrimLeft(pad + s) == s
  {
    if pad == "" {
      assert pad + s == s;
    } else {
      assert pad[0] in pad && (pad + s)[1..] == pad[1..] + s;
      assert forall c | c in pad[1..] :: c in pad;
      TrimLeftOfPadded(pad[1..], s);
    }
  }

  lemma {:induction false} TrimRightOfPadded(s: string, pad: string)
    requires AllEdges(pad) && s != "" && !IsEdge(s[|s| - 1])
    ensures TrimRight(s + pad) == s
  {
    if pad == "" {
      assert s + pad == s;
    } else {
      var n := |pad| - 1;
      assert pad[n] in pad && (s + pad)[..|s + pad| - 1] == s + pad[..n];
      assert forall c | c in pad[..n] :: c in pad;
      TrimRightOfPadded(s, pad[..n]);
    }
  }

  /** A run ends where the other kind of character begins. */
  lemma RunThen(run: string, tail: string, blank: bool)
    requires forall c | c in run :: IsBlank(c) == blank
    requires tail != "" ==> IsBlank(tail[0]) != blank
    ensures RunLength(run + tail, blank) == |run|
  {
    var s := run + tail;
    assert forall i | 0 <= i < |run| :: s[i] == run[i] && run[i] in run;
    if tail != "" {
      assert s[|run|] == tail[0];
    }
  }

  lemma ColumnIsOneField(b: string)
    requires IsColumn(b)
    ensures Fields(b) == [b]
  {
    RunThen(b, "", false);
    assert b + "" == b;
  }

  lemma FieldsStep(s: string, n: nat, m: nat)
    requires RunLength(s, false) == n < |s| && RunLength(s[n..], true) == m
    ensures Fields(s) == [s[..n]] + Fields(s[n + m..])
  {
  }

  lemma CutThree(a: string, b: string, c: string)
    ensures var s := a + (b + c); s[..|a|] == a && s[|a|..] == b + c && s[|a| + |b|..] == c
  {
  }

  lemma FieldThen(a: string, gap: string, b: string)
    requires IsColumn(a) && gap != "" && AllBlank(gap) && b != "" && !IsBlank(b[0])
    ensures Fields(a + (gap + b)) == [a] + Fields(b)
  {
    hide RunLength, Fields;
    assert gap[0] in gap;
    RunThen(a, gap + b, false);
    RunThen(gap, b, true);
    CutThree(a, gap, b);
    FieldsStep(a + (gap + b), |a|, |gap|);
  }

  lemma TwoFields(a: string, gap: string, b: string)
    requires IsColumn(a) && IsColumn(b) && gap != "" && AllBlank(gap)
    ensures Fields(a + (gap + b)) == [a, b]
  {
    hide Fields;
    assert b[0] in b;
    FieldThen(a, gap, b);
    ColumnIsOneField(b);
  }

  lemma FieldsOfTwoColumns(pad: string, a: string, gap: string, b: string, pad': string)
    requires AllEdges(pad) && AllEdges(pad') && IsColumn(a) && IsColumn(b) && gap != "" && AllBlank(gap)
    ensures TrimEdges(pad + ((a + (gap + b)) + pad')) == a + (gap + b)
  {
    hide TrimLeft, TrimRight;
    var s := a + (gap + b);
    assert a[0] in a && s[0] == a[0];
    assert b[|b| - 1] in b && s[|s| - 1] == b[|b| - 1];
    TrimLeftOfPadded(pad, s + pad');
    TrimRightOfPadded(s, pad');
  }

  /**
   A line of two columns is emitted exactly when both are literals of the grammar and the
   first address is not above the second; otherwise it counts as bad, unless it is a comment.
   */
  lemma EmittedIffOrdered(pad: string, a: string, gap: string, b: string, pad': string)
    requires AllEdges(pad) && AllEdges(pad') && IsColumn(a) && IsColumn(b) && gap != "" && AllBlank(gap)
    requires a[0] != '#'
    ensures var good := exists l, h ::
              WellFormed(l) && WellFormed(h) && Print(l) == a && Print(h) == b && Address(l) <= Address(h);
            Judge(pad + ((a + (gap + b)) + pad')) == if good then Emit(a, b) else Bad
  {
    hide Accepts, Parse, WellFormed, Print, Before, KeyOf, Expand, TrimEdges, Fields;
    var s := a + (gap + b);
    FieldsOfTwoColumns(pad, a, gap, b, pad');
    TwoFields(a, gap, b);
    assert s[0] == a[0];
    if Accepts(a) && Accepts(b) {
      AcceptedIsWellFormed(a);
      AcceptedIsWellFormed(b);
      KeyOrder(b, a);
    }
    forall l, h | WellFormed(l) && WellFormed(h) && Print(l) == a && Print(h) == b
      ensures Accepts(a) && Accepts(b) && Parse(a) == l && Parse(b) == h
    {
      WellFormedIsAccepted(l);
      WellFormedIsAccepted(h);
    }
  }

  // ----- the numbers and the output, spelled out

  /** Digits are the hexadecimal ones in either case. */
  lemma DigitsAreHexadecimal(c: char)
    ensures IsHex(c) <==> c in "0123456789abcdefABCDEF"
  {
    var all := "0123456789abcdefABCDEF";
    if '0' <= c <= '9' {
      assert all[c as int - '0' as int] == c;
    } else if 'a' <= c <= 'f' {
      assert all[10 + c as int - 'a' as int] == c;
    } else if 'A' <= c <= 'F' {
      assert all[16 + c as int - 'A' as int] == c;
    }
  }

  /** They have their usual values. */
  lemma DigitValues(i: nat)
    requires i < 16
    ensures IsHex("0123456789abcdef"[i]) && HexDigit("0123456789abcdef"[i]) == i
    ensures IsHex("0123456789ABCDEF"[i]) && HexDigit("0123456789ABCDEF"[i]) == i
  {
  }

  lemma HexOne(s: string, c: char)
    requires AllHex(s) && IsHex(c)
    ensures AllHex(s + [c]) && HexValue(s + [c]) == 16 * HexValue(s) + HexDigit(c)
  {
    HexSnoc(s, c);
  }

  /** Four digits of a group, most significant first. */
  lemma GroupValue(a: char, b: char, c: char, d: char)
    requires IsHex(a) && IsHex(b) && IsHex(c) && IsHex(d)
    ensures AllHex([a, b, c, d])
    ensures HexValue([a, b, c, d]) == 4096 * HexDigit(a) + 256 * HexDigit(b) + 16 * HexDigit(c) + HexDigit(d)
  {
    hide HexValue;
    NoDigits();
    assert "" + [a] == [a] && [a] + [b] == [a, b] && [a, b] + [c] == [a, b, c] && [a, b, c] + [d] == [a, b, c, d];
    HexOne("", a);
    HexOne([a], b);
    HexOne([a, b], c);
    HexOne([a, b, c], d);
  }

  lemma NumberOneMore(gs: seq<string>, g: string)
    requires AreGroups(gs) && IsGroup(g)
    ensures AreGroups(gs + [g]) && Number(gs + [g]) == 65536 * Number(gs) + HexValue(g)
  {
    hide HexValue;
    assert (gs + [g])[..|gs|] == gs;
  }

  /** The "::" stands for the zero groups between its two sides. */
  lemma CompressedAddress(left: seq<string>, right: seq<string>)
    requires WellFormed(Compressed(left, right))
    ensures var full := Full(left + seq(8 - |left| - |right|, _ => "0") + right);
            WellFormed(full) && Address(Compressed(left, right)) == Address(full)
  {
    hide Number;
    assert left + seq(8 - |left| - |right|, _ => "0") + right == Expand(Compressed(left, right));
  }

  /** Four more groups. */
  lemma NumberFourMore(gs: seq<string>, a: string, b: string, c: string, d: string)
    requires AreGroups(gs) && IsGroup(a) && IsGroup(b) && IsGroup(c) && IsGroup(d)
    ensures AreGroups(gs + [a, b, c, d])
    ensures Number(gs + [a, b, c, d]) == 0x1_0000_0000_0000_0000 * Number(gs)
            + 65536 * (65536 * (65536 * HexValue(a) + HexValue(b)) + HexValue(c)) + HexValue(d)
  {
    hide Number, HexValue;
    NumberOneMore(gs, a);
    NumberOneMore(gs + [a], b);
    NumberOneMore(gs + [a] + [b], c);
    NumberOneMore(gs + [a] + [b] + [c], d);
    assert gs + [a] + [b] + [c] + [d] == gs + [a, b, c, d];
  }

  /** Eight groups are eight digits to the base 65536, most significant first. */
  lemma FullAddress(a: string, b: string, c: string, d: string, e: string, f: string, g: string, h: string)
    requires IsGroup(a) && IsGroup(b) && IsGroup(c) && IsGroup(d)
    requires IsGroup(e) && IsGroup(f) && IsGroup(g) && IsGroup(h)
    ensures WellFormed(Full([a, b, c, d, e, f, g, h]))
    ensures var high := 65536 * (65536 * (65536 * HexValue(a) + HexValue(b)) + HexValue(c)) + HexValue(d);
            var low := 65536 * (65536 * (65536 * HexValue(e) + HexValue(f)) + HexValue(g)) + HexValue(h);
            Address(Full([a, b, c, d, e, f, g, h])) == 0x1_0000_0000_0000_0000 * high + low
  {
    hide Number, HexValue;
    NoGroups();
    NumberFourMore([], a, b, c, d);
    assert [] + [a, b, c, d] == [a, b, c, d];
    NumberFourMore([a, b, c, d], e, f, g, h);
    assert [a, b, c, d] + [e, f, g, h] == [a, b, c, d, e, f, g, h];
  }

  lemma NoGroups()
    ensures Number([]) == 0
  {
  }

  /** Each line speaks for itself. */
  lemma {:induction false} EmittedAppend(xs: seq<string>, ys: seq<string>)
    ensures Emitted(xs + ys) == Emitted(xs) + Emitted(ys) && Refused(xs + ys) == Refused(xs) + Refused(ys)
    decreases |ys|
  {
    hide Judge;
    if ys == [] {
      assert xs + ys == xs;
    } else {
      var n := |ys| - 1;
      assert (xs + ys)[..|xs| + n] == xs + ys[..n] && (xs + ys)[|xs| + n] == ys[n];
      EmittedAppend(xs, ys[..n]);
    }
  }

  /** A range is printed with its start first; a bad one is counted and not printed. */
  lemma PrintedRange(pad: string, a: string, gap: string, b: string, pad': string)
    requires forall c | c in pad + pad' :: c in {' ', '\t', '\r'}
    requires gap != "" && forall c | c in gap :: c in {' ', '\t'}
    requires a != "" && b != "" && a[0] != '#' && forall c | c in a + b :: c !in {' ', '\t', '\r'}
    ensures var line := pad + ((a + (gap + b)) + pad');
            var good := exists l, h ::
              WellFormed(l) && WellFormed(h) && Print(l) == a && Print(h) == b && Address(l) <= Address(h);
            && Emitted([line]) == (if good then ["      " + a + "-" + b + ",\n"] else [])
            && Refused([line]) == (if good then 0 else 1)
  {
    hide Judge, WellFormed, Print, Address;
    assert forall c | c in a :: c in a + b;
    assert forall c | c in b :: c in a + b;
    assert forall c | c in pad :: c in pad + pad';
    assert forall c | c in pad' :: c in pad + pad';
    assert AllEdges(pad) && AllEdges(pad') && IsColumn(a) && IsColumn(b) && AllBlank(gap);
    EmittedIffOrdered(pad, a, gap, b, pad');
    OneLine(pad + ((a + (gap + b)) + pad'));
  }

  lemma OneLine(line: string)
    ensures Emitted([line]) == (match Judge(line) case Emit(a, b) => ["      " + a + "-" + b + ",\n"] case _ => [])
    ensures Refused([line]) == if Judge(line).Bad? then 1 else 0
  {
    hide Judge;
    assert [line][..0] == [];
    assert Emitted([]) == [] && Refused([]) == 0;
  }

  /** Blank lines and comments are neither printed nor counted. */
  lemma CommentsAreSkipped(pad: string, text: string)
    requires forall c | c in pad :: c in {' ', '\t', '\r'}
    requires text == "" || text[0] == '#'
    ensures Emitted([pad + text]) == [] && Refused([pad + text]) == 0
  {
    hide Accepts, Fields, KeyOf;
    assert AllEdges(pad);
    TrimKeepsComment(pad, text);
    OneLine(pad + text);
  }

  lemma {:induction false} TrimLeftOnlyEdges(s: string)
    requires AllEdges(s)
    ensures TrimLeft(s) == ""
  {
    if s == "" {
    } else {
      TrimLeftOnlyEdges(s[1..]);
    }
  }

  lemma {:induction false} TrimRightKeepsFront(s: string)
    requires s != "" && !IsEdge(s[0])
    ensures TrimRight(s) != "" && TrimRight(s)[0] == s[0]
  {
    if !IsEdge(s[|s| - 1]) {
    } else {
      TrimRightKeepsFront(s[..|s| - 1]);
    }
  }

  lemma TrimKeepsComment(pad: string, text: string)
    requires AllEdges(pad) && (text == "" || text[0] == '#')
    ensures TrimEdges(pad + text) == "" || TrimEdges(pad + text)[0] == '#'
  {
    if text == "" {
      assert pad + text == pad;
      TrimLeftOnlyEdges(pad);
    } else {
      TrimLeftOfPadded(pad, text);
      TrimRightKeepsFront(text);
    }
  }
}
