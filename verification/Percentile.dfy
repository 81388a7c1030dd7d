/** The nearest-rank percentile of load.go, sorted in place. */
module Percentile {
  import opened Prelude
  import opened StableSort

  ghost predicate Ascending(s: seq<int>) {
    forall i, j :: 0 <= i < j < |s| ==> s[i] <= s[j]
  }

  function ByValue(x: int): Key { Key(x, 0) }

  lemma ProductNotNegative(x: real, y: real)
    requires x >= 0.0 && y >= 0.0
    ensures x * y >= 0.0
  {
  }

  /** The index the source rounds to, over exact rationals. */
  function RankIndex(p: real, n: nat): (idx: nat)
    requires p >= 0.0 && n > 0
    ensures idx < n
  {
    ProductNotNegative(p, (n - 1) as real);
    Min((p * (n - 1) as real + 0.5).Floor, n - 1)
  }

  /** The element of that rank, or 0 for no elements. */
  function Quantile(s: seq<int>, p: real): int
    requires p >= 0.0
  {
    if s == [] then 0 else
      SortProperties(s, ByValue);
      Sort(s, ByValue)[RankIndex(p, |s|)]
  }

  lemma TailsAgree(s: seq<int>, t: seq<int>)
    requires s != [] && t != [] && s[0] == t[0] && multiset(s) == multiset(t)
    ensures multiset(s[1..]) == multiset(t[1..])
  {
    assert s == [s[0]] + s[1..] && t == [t[0]] + t[1..];
    var m, n := multiset(s[1..]), multiset(t[1..]);
    assert multiset{s[0]} + m == multiset{s[0]} + n;
    forall x ensures m[x] == n[x] {
      assert (multiset{s[0]} + m)[x] == (multiset{s[0]} + n)[x];
    }
  }

  lemma LeastFirst(s: seq<int>, t: seq<int>)
    requires Ascending(s) && s != [] && t != [] && multiset(s) == multiset(t)
    ensures s[0] <= t[0]
  {
    assert t[0] in multiset(s);
    assert t[0] in s;
  }

  lemma {:induction false} AscendingIsUnique(s: seq<int>, t: seq<int>)
    requires Ascending(s) && Ascending(t) && multiset(s) == multiset(t)
    ensures s == t
  {
    assert |multiset(s)| == |multiset(t)|;
    if s != [] {
      LeastFirst(s, t);
      LeastFirst(t, s);
      TailsAgree(s, t);
      AscendingIsUnique(s[1..], t[1..]);
      assert s == [s[0]] + s[1..] && t == [t[0]] + t[1..];
    }
  }

  lemma SortAscends(s: seq<int>)
    ensures Ascending(Sort(s, ByValue)) && multiset(Sort(s, ByValue)) == multiset(s) && |Sort(s, ByValue)| == |s|
  {
    SortProperties(s, ByValue);
  }

  /** Any in-place sort that permutes the values finds the quantile at the rank index. */
  lemma SortedIsQuantile(before: seq<int>, after: seq<int>, p: real)
    requires p >= 0.0 && before != [] && Ascending(after) && multiset(after) == multiset(before)
    ensures |after| == |before| && after[RankIndex(p, |before|)] == Quantile(before, p)
  {
    SortAscends(before);
    AscendingIsUnique(after, Sort(before, ByValue));
  }

  /** The order in which the values were gathered does not matter. */
  lemma QuantileIgnoresOrder(s: seq<int>, t: seq<int>, p: real)
    requires p >= 0.0 && multiset(s) == multiset(t)
    ensures Quantile(s, p) == Quantile(t, p)
  {
    assert |s| == |multiset(s)| == |multiset(t)| == |t|;
    SortAscends(s);
    SortAscends(t);
    AscendingIsUnique(Sort(s, ByValue), Sort(t, ByValue));
  }

  // ----- the quantile is an order statistic -----

  function AtMost(s: seq<int>, v: int): nat {
    if s == [] then 0 else AtMost(s[..|s| - 1], v) + (if s[|s| - 1] <= v then 1 else 0)
  }

  function AtLeast(s: seq<int>, v: int): nat {
    if s == [] then 0 else AtLeast(s[..|s| - 1], v) + (if s[|s| - 1] >= v then 1 else 0)
  }

  lemma NoQuantile(p: real)
    requires p >= 0.0
    ensures Quantile([], p) == 0
  {
  }

  lemma {:induction false} CountsConcat(s: seq<int>, t: seq<int>, v: int)
    ensures AtMost(s + t, v) == AtMost(s, v) + AtMost(t, v)
    ensures AtLeast(s + t, v) == AtLeast(s, v) + AtLeast(t, v)
  {
    if t == [] {
      assert s + t == s;
    } else {
      assert (s + t)[..|s + t| - 1] == s + t[..|t| - 1];
      CountsConcat(s, t[..|t| - 1], v);
    }
  }

  lemma {:induction false} InsertKeepsCounts(s: seq<int>, x: int, v: int)
    ensures AtMost(Insert(s, x, ByValue), v) == AtMost(s + [x], v)
    ensures AtLeast(Insert(s, x, ByValue), v) == AtLeast(s + [x], v)
  {
    if s != [] && Before(ByValue(x), ByValue(s[|s| - 1])) {
      var front, last := s[..|s| - 1], s[|s| - 1];
      assert s == front + [last];
      InsertKeepsCounts(front, x, v);
      CountsConcat(Insert(front, x, ByValue), [last], v);
      CountsConcat(front, [x], v);
      CountsConcat(front, [last], v);
      CountsConcat(s, [x], v);
    }
  }

  lemma {:induction false} SortKeepsCounts(s: seq<int>, v: int)
    ensures AtMost(Sort(s, ByValue), v) == AtMost(s, v)
    ensures AtLeast(Sort(s, ByValue), v) == AtLeast(s, v)
  {
    if s != [] {
      var front, last := s[..|s| - 1], s[|s| - 1];
      SortKeepsCounts(front, v);
      InsertKeepsCounts(Sort(front, ByValue), last, v);
      CountsConcat(Sort(front, ByValue), [last], v);
    }
  }

  lemma {:induction false} AllAtMost(s: seq<int>, v: int)
    requires forall i :: 0 <= i < |s| ==> s[i] <= v
    ensures AtMost(s, v) == |s|
  {
    if s != [] {
      AllAtMost(s[..|s| - 1], v);
    }
  }

  lemma {:induction false} AllAtLeast(s: seq<int>, v: int)
    requires forall i :: 0 <= i < |s| ==> s[i] >= v
    ensures AtLeast(s, v) == |s|
  {
    if s != [] {
      AllAtLeast(s[..|s| - 1], v);
    }
  }

  lemma AscendingCounts(t: seq<int>, idx: nat)
    requires Ascending(t) && idx < |t|
    ensures AtMost(t, t[idx]) >= idx + 1 && AtLeast(t, t[idx]) >= |t| - idx
  {
    hide AtMost, AtLeast;
    var v := t[idx];
    assert t == t[..idx + 1] + t[idx + 1..] && t == t[..idx] + t[idx..];
    CountsConcat(t[..idx + 1], t[idx + 1..], v);
    CountsConcat(t[..idx], t[idx..], v);
    AllAtMost(t[..idx + 1], v);
    AllAtLeast(t[idx..], v);
  }

  /** At least `idx + 1` of the values are at or below the quantile and at least `n - idx` at or above it. */
  lemma QuantileIsOrderStatistic(s: seq<int>, p: real)
    requires p >= 0.0 && s != []
    ensures Quantile(s, p) in s
    ensures AtMost(s, Quantile(s, p)) >= RankIndex(p, |s|) + 1
    ensures AtLeast(s, Quantile(s, p)) >= |s| - RankIndex(p, |s|)
  {
    hide Sort, AtMost, AtLeast, RankIndex, Ascending;
    var t, idx := Sort(s, ByValue), RankIndex(p, |s|);
    SortAscends(s);
    SortKeepsCounts(s, t[idx]);
    AscendingCounts(t, idx);
    assert t[idx] in multiset(t);
  }

  /** The rank is the nearest to `p` of the way up, halves up, and the last one beyond that. */
  lemma RankIsNearest(p: real, n: nat, x: real)
    requires p >= 0.0 && n > 0 && x == p * (n - 1) as real
    ensures x < n as real - 0.5 ==> RankIndex(p, n) as real - 0.5 <= x < RankIndex(p, n) as real + 0.5
    ensures x >= n as real - 0.5 ==> RankIndex(p, n) == n - 1
  {
    ProductNotNegative(p, (n - 1) as real);
    var y := x + 0.5;
    assert y.Floor as real <= y < y.Floor as real + 1.0;
    assert RankIndex(p, n) == Min(y.Floor, n - 1);
  }

  /** So more than `x` plus a half of the values are at or below it, and at least `n - x` less a half at or above it. */
  lemma QuantileSplits(s: seq<int>, p: real, x: real)
    requires p >= 0.0 && s != [] && x == p * (|s| - 1) as real && x < |s| as real - 0.5
    ensures AtMost(s, Quantile(s, p)) as real > x + 0.5
    ensures AtLeast(s, Quantile(s, p)) as real >= |s| as real - x - 0.5
  {
    RankIsNearest(p, |s|, x);
    QuantileIsOrderStatistic(s, p);
    hide AtMost, AtLeast, Quantile, RankIndex;
  }

  // ----- the in-place exchange sort -----

  /** The first `i` places hold their final values. */
  ghost predicate Settled(s: seq<int>, i: nat) {
    forall a, b :: 0 <= a < i && a < b < |s| ==> s[a] <= s[b]
  }

  /** Place `i` holds the least of the values from `i` to before `j`. */
  ghost predicate LeastOf(s: seq<int>, i: nat, j: nat) {
    i < |s| && forall b :: i < b < j && b < |s| ==> s[i] <= s[b]
  }

  lemma SwapSettles(s: seq<int>, t: seq<int>, i: nat, j: nat)
    requires i < j < |s| && Settled(s, i) && LeastOf(s, i, j)
    requires t == if s[j] < s[i] then s[i := s[j]][j := s[i]] else s
    ensures Settled(t, i) && LeastOf(t, i, j + 1) && multiset(t) == multiset(s)
  {
  }

  /** The source's double loop, and its nearest-rank lookup. */
  method NearestRank(vals: array<int>, p: real) returns (r: int)
    requires p >= 0.0
    modifies vals
    ensures r == Quantile(old(vals[..]), p)
    ensures Ascending(vals[..]) && multiset(vals[..]) == old(multiset(vals[..]))
  {
    hide Quantile, Settled, LeastOf, Ascending;
    ghost var before := vals[..];
    if vals.Length == 0 {
      NoQuantile(p);
      Extremes(before);
      return 0;
    }
    Extremes(before);
    for i := 0 to vals.Length
      invariant multiset(vals[..]) == multiset(before) && Settled(vals[..], i)
    {
      LeastAlone(vals[..], i);
      for j := i + 1 to vals.Length
        invariant multiset(vals[..]) == multiset(before) && Settled(vals[..], i) && LeastOf(vals[..], i, j)
      {
        ghost var s := vals[..];
        if vals[j] < vals[i] {
          vals[i], vals[j] := vals[j], vals[i];
        }
        SwapSettles(s, vals[..], i, j);
      }
      OneMoreSettled(vals[..], i);
    }
    Extremes(vals[..]);
    var idx := (p * (vals.Length - 1) as real + 0.5).Floor;
    if idx >= vals.Length {
      idx := vals.Length - 1;
    }
    SortedIsQuantile(before, vals[..], p);
    r := vals[idx];
  }

  lemma Extremes(s: seq<int>)
    ensures Settled(s, 0) && (Settled(s, |s|) ==> Ascending(s)) && (s == [] ==> Ascending(s))
  {
  }

  lemma LeastAlone(s: seq<int>, i: nat)
    requires i < |s|
    ensures LeastOf(s, i, i + 1)
  {
  }

  lemma OneMoreSettled(s: seq<int>, i: nat)
    requires Settled(s, i) && LeastOf(s, i, |s|)
    ensures Settled(s, i + 1)
  {
  }
}
