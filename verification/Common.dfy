/** Types shared by the models. */
module Common {

  datatype Option<+T> = None | Some(value: T)

  datatype Result<+T, +E> = Ok(value: T) | Err(error: E)

  /** An octet, as the parsers see it. */
  type Byte = b: int | 0 <= b < 256

  type Bytes = seq<Byte>

  /** The largest value of a 64-bit unsigned counter. */
  const U64_MAX: nat := 0xFFFF_FFFF_FFFF_FFFF

  /** The group of upstreams that serves what no route names. */
  const DEFAULT: string := "default"

  function ToSet<T(==)>(xs: seq<T>): set<T> {
    set x | x in xs
  }

  lemma SubsetSize<T>(a: set<T>, b: set<T>)
    requires a <= b
    ensures |a| <= |b|
  {
    assert b == a + (b - a);
  }

  function Min(a: int, b: int): int {
    if a <= b then a else b
  }

  function Max(a: int, b: int): int {
    if a <= b then b else a
  }

  /** `u64::saturating_sub`. */
  function SaturatingSub(a: nat, b: nat): nat {
    if a >= b then a - b else 0
  }

  /** The pieces of `s` between the occurrences of `sep`, as `str::split` and `split` of awk give them. */
  function Split<T(==)>(s: seq<T>, sep: T): (r: seq<seq<T>>)
    ensures |r| >= 1
  {
    if s == [] then [[]]
    else
      var rest := Split(s[1..], sep);
      if s[0] == sep then [[]] + rest else [[s[0]] + rest[0]] + rest[1..]
  }

  /** The inverse of `Split`. */
  function Join<T>(parts: seq<seq<T>>, sep: T): seq<T> {
    if parts == [] then []
    else if |parts| == 1 then parts[0]
    else parts[0] + [sep] + Join(parts[1..], sep)
  }

  lemma {:induction false} JoinSplit<T>(s: seq<T>, sep: T)
    ensures Join(Split(s, sep), sep) == s
  {
    if s == [] {
    } else {
      JoinSplit(s[1..], sep);
      var rest := Split(s[1..], sep);
      if s[0] == sep {
        assert Split(s, sep)[1..] == rest;
      } else {
        assert Split(s, sep)[1..] == rest[1..];
        assert s == [s[0]] + s[1..];
      }
    }
  }

  lemma {:induction false} SplitHasNoSeparator<T>(s: seq<T>, sep: T)
    ensures forall p | p in Split(s, sep) :: sep !in p
  {
    if s == [] {
    } else {
      SplitHasNoSeparator(s[1..], sep);
      assert Split(s[1..], sep)[0] in Split(s[1..], sep);
    }
  }

  lemma JoinHead<T>(parts: seq<seq<T>>, sep: T)
    requires parts != [] && parts[0] != []
    ensures Join(parts, sep) == [parts[0][0]] + Join([parts[0][1..]] + parts[1..], sep)
  {
    var tail := [parts[0][1..]] + parts[1..];
    assert tail[1..] == parts[1..];
    assert parts[0] == [parts[0][0]] + tail[0];
  }

  lemma {:induction false} SplitJoin<T>(parts: seq<seq<T>>, sep: T)
    requires parts != [] && forall p | p in parts :: sep !in p
    ensures Split(Join(parts, sep), sep) == parts
    decreases |parts|, |parts[0]|
  {
    var j := Join(parts, sep);
    if parts[0] == [] {
      if |parts| > 1 {
        SplitJoin(parts[1..], sep);
        assert j[1..] == Join(parts[1..], sep);
        assert j[0] == sep;
        assert parts == [[]] + parts[1..];
      } else {
        assert parts == [[]];
      }
    } else {
      var tail := [parts[0][1..]] + parts[1..];
      assert forall p | p in tail :: sep !in p by {
        forall p | p in tail ensures sep !in p {
          if p == parts[0][1..] { assert parts[0] in parts; }
        }
      }
      SplitJoin(tail, sep);
      JoinHead(parts, sep);
      assert parts[0] in parts && parts[0][0] in parts[0];
      SplitHead(parts[0][0], Join(tail, sep), sep);
      assert [parts[0][0]] + tail[0] == parts[0];
    }
  }

  lemma SplitHead<T>(x: T, rest: seq<T>, sep: T)
    requires x != sep
    ensures Split([x] + rest, sep) == [[x] + Split(rest, sep)[0]] + Split(rest, sep)[1..]
  {
    assert ([x] + rest)[1..] == rest;
  }

  lemma WholeTail<T>(s: seq<T>, start: nat)
    requires start <= |s|
    ensures s[start..] == s[start..|s|]
  {
  }

  lemma SliceOfSlice<T>(s: seq<T>, a: nat, b: nat, c: nat, d: nat)
    requires a <= b <= |s| && c <= d <= b - a
    ensures s[a..b][c..d] == s[a + c..a + d]
  {
    var left, right := s[a..b][c..d], s[a + c..a + d];
    forall i | 0 <= i < d - c ensures left[i] == right[i] {
      assert left[i] == s[a..b][c + i] == s[a + (c + i)];
    }
  }

  /** Where `pattern` first occurs in `s`. */
  function Find<T(==)>(s: seq<T>, pattern: seq<T>): (r: Option<nat>)
    ensures r.Some? ==> r.value + |pattern| <= |s|
  {
    if pattern <= s then Some(0)
    else if s == [] then None
    else match Find(s[1..], pattern)
      case None => None
      case Some(i) => Some(i + 1)
  }

  lemma {:induction false} FindIsFirst<T>(s: seq<T>, pattern: seq<T>)
    ensures match Find(s, pattern)
            case None => forall j | 0 <= j <= |s| :: !(pattern <= s[j..])
            case Some(i) => pattern <= s[i..] && forall j | 0 <= j < i :: !(pattern <= s[j..])
  {
    assert s[0..] == s;
    if !(pattern <= s) && s != [] {
      FindIsFirst(s[1..], pattern);
      forall j | 0 < j <= |s| ensures s[1..][j - 1..] == s[j..] {
      }
      if Find(s[1..], pattern).None? {
        forall j | 0 <= j <= |s| ensures !(pattern <= s[j..]) {
          if j > 0 { assert s[j..] == s[1..][j - 1..]; }
        }
      } else {
        var i := Find(s[1..], pattern).value;
        assert s[i + 1..] == s[1..][i..];
        forall j | 0 <= j < i + 1 ensures !(pattern <= s[j..]) {
          if j > 0 { assert s[j..] == s[1..][j - 1..]; }
        }
      }
    }
  }

  /** An occurrence stays the first one when text is added behind. */
  lemma {:induction false} FindIsStable<T>(s: seq<T>, pattern: seq<T>, more: seq<T>)
    requires Find(s, pattern).Some?
    ensures Find(s + more, pattern) == Find(s, pattern)
  {
    if !(pattern <= s) {
      assert (s + more)[1..] == s[1..] + more;
      FindIsStable(s[1..], pattern, more);
    } else {
      assert pattern == s[..|pattern|] == (s + more)[..|pattern|];
    }
  }

  lemma {:induction false} FindSkips<T>(skipped: seq<T>, s: seq<T>, pattern: seq<T>)
    requires pattern != [] && pattern[0] !in skipped
    ensures Find(skipped + s, pattern) ==
            match Find(s, pattern) case None => None case Some(i) => Some(|skipped| + i)
  {
    if skipped == [] {
      assert skipped + s == s;
    } else {
      assert (skipped + s)[1..] == skipped[1..] + s;
      assert !(pattern <= skipped + s) by { assert (skipped + s)[0] == skipped[0]; }
      FindSkips(skipped[1..], s, pattern);
    }
  }

  /** The first occurrence is the only one without an earlier one. */
  lemma FindAt<T>(s: seq<T>, pattern: seq<T>, i: nat)
    requires i <= |s| && pattern <= s[i..] && forall j | 0 <= j < i :: !(pattern <= s[j..])
    ensures Find(s, pattern) == Some(i)
  {
    FindIsFirst(s, pattern);
  }

  lemma FindNone<T>(s: seq<T>, pattern: seq<T>)
    requires forall j | 0 <= j <= |s| :: !(pattern <= s[j..])
    ensures Find(s, pattern).None?
  {
    FindIsFirst(s, pattern);
  }

  /** Two splits joined where they meet. */
  function Merge<T>(l: seq<seq<T>>, r: seq<seq<T>>): seq<seq<T>>
    requires l != [] && r != []
  {
    l[..|l| - 1] + [l[|l| - 1] + r[0]] + r[1..]
  }

  lemma MergeBehind<T>(head: seq<T>, l: seq<seq<T>>, r: seq<seq<T>>)
    requires l != [] && r != []
    ensures Merge([head] + l, r) == [head] + Merge(l, r)
  {
    var longer := [head] + l;
    assert longer[..|longer| - 1] == [head] + l[..|l| - 1];
  }

  lemma MergeGrows<T>(x: T, l: seq<seq<T>>, r: seq<seq<T>>)
    requires l != [] && r != []
    ensures Merge([[x] + l[0]] + l[1..], r) == [[x] + Merge(l, r)[0]] + Merge(l, r)[1..]
  {
    if |l| == 1 {
      assert [x] + l[0] + r[0] == [x] + (l[0] + r[0]);
    } else {
      assert l == [l[0]] + l[1..];
      MergeBehind(l[0], l[1..], r);
      MergeBehind([x] + l[0], l[1..], r);
    }
  }

  /** Splitting a concatenation: the last piece of the first part and the first piece of the second grow together. */
  lemma {:induction false} SplitAppend<T>(a: seq<T>, b: seq<T>, sep: T)
    ensures Split(a + b, sep) == Merge(Split(a, sep), Split(b, sep))
  {
    hide Merge;
    if a == [] {
      assert a + b == b;
      MergeNothing(Split(b, sep));
    } else {
      SplitAppend(a[1..], b, sep);
      assert (a + b)[1..] == a[1..] + b;
      if a[0] == sep {
        MergeBehind([], Split(a[1..], sep), Split(b, sep));
      } else {
        MergeGrows(a[0], Split(a[1..], sep), Split(b, sep));
      }
    }
  }

  lemma MergeNothing<T>(r: seq<seq<T>>)
    requires r != []
    ensures Merge([[]], r) == r
  {
    assert [] + r[0] == r[0];
  }
}
