/** The hourly histogram and its spread behind the usage-spike detector (anomaly.go). */
module Histogram {
  /** Event times are in seconds. */
  const HOUR: nat := 3600

  /** The start of the hour an event falls in. */
  function HourOf(t: nat): int { t - t % HOUR }

  /** The events whose hour starts from `lo` to before `hi`. */
  function Within(evs: seq<nat>, lo: int, hi: int): nat {
    if evs == [] then 0 else Within(evs[..|evs| - 1], lo, hi) + (if lo <= HourOf(evs[|evs| - 1]) < hi then 1 else 0)
  }

  /** The end of the last event's hour. */
  function EndOf(evs: seq<nat>): int
    requires evs != []
  {
    HourOf(evs[|evs| - 1]) + HOUR
  }

  /** Bucket `i` of `hours` starts this long before the end. */
  function SlotStart(evs: seq<nat>, hours: nat, i: int): int
    requires evs != []
  {
    EndOf(evs) - (hours - i) * HOUR
  }

  function Sum(s: seq<nat>): nat {
    if s == [] then 0 else Sum(s[..|s| - 1]) + s[|s| - 1]
  }

  ghost predicate IsHistogram(evs: seq<nat>, hours: nat, out: seq<nat>)
    requires evs != []
  {
    |out| == hours && forall i :: 0 <= i < hours ==>
      out[i] == Within(evs, SlotStart(evs, hours, i), SlotStart(evs, hours, i + 1))
  }

  /** Every whole hour's bucket counts the events of that hour. */
  ghost predicate Tallied(buckets: map<int, nat>, evs: seq<nat>) {
    forall h :: h % HOUR == 0 ==> Count(buckets, h) == Within(evs, h, h + HOUR)
  }

  lemma NothingTallied()
    ensures Tallied(map[], [])
  {
  }

  lemma TallyOne(buckets: map<int, nat>, evs: seq<nat>, t: nat)
    requires Tallied(buckets, evs)
    ensures Tallied(buckets[HourOf(t) := Count(buckets, HourOf(t)) + 1], evs + [t])
  {
    var more := buckets[HourOf(t) := Count(buckets, HourOf(t)) + 1];
    forall h | h % HOUR == 0 ensures Count(more, h) == Within(evs + [t], h, h + HOUR) {
      HoursApart(h, t);
      WithinAppend(evs, t, h, h + HOUR);
      hide HourOf, Within;
      assert Count(buckets, h) == Within(evs, h, h + HOUR);
    }
  }

  lemma WithinAppend(evs: seq<nat>, t: nat, lo: int, hi: int)
    ensures Within(evs + [t], lo, hi) == Within(evs, lo, hi) + (if lo <= HourOf(t) < hi then 1 else 0)
  {
    assert (evs + [t])[..|evs|] == evs;
  }

  method HourlyBuckets(evs: seq<nat>, hours: nat) returns (out: seq<nat>)
    ensures evs == [] ==> out == []
    ensures evs != [] ==> IsHistogram(evs, hours, out)
  {
    if |evs| == 0 {
      return [];
    }
    hide Within, HourOf, Count;
    var end := EndOf(evs);
    var buckets: map<int, nat> := map[];
    NothingTallied();
    for k := 0 to |evs|
      invariant Tallied(buckets, evs[..k])
    {
      assert evs[..k + 1] == evs[..k] + [evs[k]];
      TallyOne(buckets, evs[..k], evs[k]);
      var h := HourOf(evs[k]);
      buckets := buckets[h := Count(buckets, h) + 1];
    }
    assert evs[..|evs|] == evs;
    var slots := new nat[hours];
    for i := 0 to hours
      invariant forall j :: 0 <= j < i ==>
        slots[j] == Within(evs, SlotStart(evs, hours, j), SlotStart(evs, hours, j + 1))
    {
      var t := end - (hours - i) * HOUR;
      SlotIsHour(evs, hours, i);
      slots[i] := Count(buckets, t);
    }
    out := slots[..];
  }

  /** Reading a missing bucket gives zero. */
  function Count(buckets: map<int, nat>, h: int): nat {
    if h in buckets then buckets[h] else 0
  }

  lemma HoursApart(g: int, t: nat)
    requires g % HOUR == 0
    ensures g <= HourOf(t) < g + HOUR <==> g == HourOf(t)
  {
  }

  lemma SlotIsHour(evs: seq<nat>, hours: nat, i: nat)
    requires evs != [] && i < hours
    ensures SlotStart(evs, hours, i) % HOUR == 0 && SlotStart(evs, hours, i + 1) == SlotStart(evs, hours, i) + HOUR
  {
  }

  // ----- conservation -----

  lemma {:induction false} WithinSplits(evs: seq<nat>, lo: int, mid: int, hi: int)
    requires lo <= mid <= hi
    ensures Within(evs, lo, hi) == Within(evs, lo, mid) + Within(evs, mid, hi)
  {
    if evs != [] {
      WithinSplits(evs[..|evs| - 1], lo, mid, hi);
    }
  }

  lemma {:induction false} WithinNothing(evs: seq<nat>, lo: int)
    ensures Within(evs, lo, lo) == 0
  {
    if evs != [] {
      WithinNothing(evs[..|evs| - 1], lo);
    }
  }

  lemma {:induction false} PrefixSum(evs: seq<nat>, hours: nat, out: seq<nat>, k: nat)
    requires evs != [] && IsHistogram(evs, hours, out) && k <= hours
    ensures Sum(out[..k]) == Within(evs, SlotStart(evs, hours, 0), SlotStart(evs, hours, k))
  {
    if k == 0 {
      WithinNothing(evs, SlotStart(evs, hours, 0));
    } else {
      PrefixSum(evs, hours, out, k - 1);
      assert out[..k][..k - 1] == out[..k - 1];
      WithinSplits(evs, SlotStart(evs, hours, 0), SlotStart(evs, hours, k - 1), SlotStart(evs, hours, k));
    }
  }

  /** The buckets hold exactly the events of the window that ends with the last event's hour. */
  lemma HistogramConserves(evs: seq<nat>, hours: nat, out: seq<nat>)
    requires evs != [] && IsHistogram(evs, hours, out)
    ensures Sum(out) == Within(evs, EndOf(evs) - hours * HOUR, EndOf(evs))
    ensures hours >= 1 ==> out[hours - 1] == Within(evs, HourOf(evs[|evs| - 1]), EndOf(evs))
  {
    PrefixSum(evs, hours, out, hours);
    assert out[..hours] == out;
  }

  /** The events of a span, counted by their places `w`. */
  lemma {:induction false} WithinIsSize(evs: seq<nat>, lo: int, hi: int, w: set<int>)
    requires forall i :: i in w <==> 0 <= i < |evs| && lo <= HourOf(evs[i]) < hi
    ensures Within(evs, lo, hi) == |w|
  {
    hide HourOf;
    if evs == [] {
      assert forall i :: i in w ==> 0 <= i < |evs|;
      assert w <= {};
    } else {
      var last := |evs| - 1;
      var v := w - {last};
      forall i ensures i in v <==> 0 <= i < last && lo <= HourOf(evs[..last][i]) < hi {
        assert i in v <==> i in w && i != last;
      }
      WithinIsSize(evs[..last], lo, hi, v);
      assert last in w <==> lo <= HourOf(evs[last]) < hi;
      assert w == if lo <= HourOf(evs[last]) < hi then v + {last} else v;
    }
  }

  /** In plain hours since the epoch: bucket `k` from the end counts the events `k` hours before the last one's hour. */
  lemma BucketCounts(evs: seq<nat>, hours: nat, out: seq<nat>, k: nat)
    requires evs != [] && IsHistogram(evs, hours, out) && k < hours
    ensures out[hours - 1 - k] == |set i | 0 <= i < |evs| && evs[i] / 3600 == evs[|evs| - 1] / 3600 - k|
  {
    var w := set i | 0 <= i < |evs| && evs[i] / 3600 == evs[|evs| - 1] / 3600 - k;
    var lo, hi := SlotStart(evs, hours, hours - 1 - k), SlotStart(evs, hours, hours - k);
    forall i | 0 <= i < |evs| ensures lo <= HourOf(evs[i]) < hi <==> evs[i] / 3600 == evs[|evs| - 1] / 3600 - k {
      HourNumber(evs[i]);
      HourNumber(evs[|evs| - 1]);
    }
    WithinIsSize(evs, lo, hi, w);
  }

  lemma HourNumber(t: nat)
    ensures HourOf(t) == 3600 * (t / 3600)
  {
  }

  lemma {:induction false} AllWithin(evs: seq<nat>, lo: int, hi: int)
    requires forall i :: 0 <= i < |evs| ==> lo <= HourOf(evs[i]) < hi
    ensures Within(evs, lo, hi) == |evs|
  {
    if evs != [] {
      AllWithin(evs[..|evs| - 1], lo, hi);
    }
  }

  /** For events in ascending time none is lost when the first is young enough. */
  lemma HistogramLosesNothing(evs: seq<nat>, hours: nat, out: seq<nat>)
    requires evs != [] && IsHistogram(evs, hours, out)
    requires forall i, j :: 0 <= i < j < |evs| ==> evs[i] <= evs[j]
    requires EndOf(evs) - hours * HOUR <= HourOf(evs[0])
    ensures Sum(out) == |evs|
  {
    HistogramConserves(evs, hours, out);
    var lo := EndOf(evs) - hours * HOUR;
    forall i | 0 <= i < |evs| ensures lo <= HourOf(evs[i]) < EndOf(evs) {
      HourGrows(evs[0], evs[i]);
      HourGrows(evs[i], evs[|evs| - 1]);
    }
    AllWithin(evs, lo, EndOf(evs));
  }

  lemma HourGrows(a: nat, b: nat)
    requires a <= b
    ensures HourOf(a) <= HourOf(b)
  {
  }

  // ----- mean and variance, over rationals -----

  function Total(vals: seq<nat>): real {
    if vals == [] then 0.0 else Total(vals[..|vals| - 1]) + vals[|vals| - 1] as real
  }

  function Times(x: real, y: real): real { x * y }

  /** A value's squared distance from the mean. */
  function Gap(v: nat, mean: real): real { Times(v as real - mean, v as real - mean) }

  function SquaredGaps(vals: seq<nat>, mean: real): real {
    if vals == [] then 0.0 else SquaredGaps(vals[..|vals| - 1], mean) + Gap(vals[|vals| - 1], mean)
  }

  /** The mean and the variance whose square root the source returns; both zero for no values. */
  method MeanVariance(vals: seq<nat>) returns (mean: real, variance: real)
    ensures vals == [] ==> mean == 0.0 && variance == 0.0
    ensures vals != [] ==> mean == Total(vals) / |vals| as real && variance == SquaredGaps(vals, mean) / |vals| as real
  {
    if |vals| == 0 {
      return 0.0, 0.0;
    }
    var sum := 0.0;
    for i := 0 to |vals|
      invariant sum == Total(vals[..i])
    {
      assert vals[..i + 1][..i] == vals[..i];
      sum := sum + vals[i] as real;
    }
    assert vals[..|vals|] == vals;
    mean := sum / |vals| as real;
    var gaps := 0.0;
    for i := 0 to |vals|
      invariant gaps == SquaredGaps(vals[..i], mean)
    {
      assert vals[..i + 1][..i] == vals[..i];
      var d := vals[i] as real - mean;
      gaps := gaps + Times(d, d);
    }
    variance := gaps / |vals| as real;
  }

  function Squares(vals: seq<nat>): real {
    if vals == [] then 0.0
    else Squares(vals[..|vals| - 1]) + vals[|vals| - 1] as real * vals[|vals| - 1] as real
  }

  lemma OneGap(v: nat, m: real)
    ensures Gap(v, m) == v as real * v as real - 2.0 * Times(m, v as real) + Times(m, m)
  {
  }

  lemma TimesSum(m: real, a: real, b: real)
    ensures Times(m, a + b) == Times(m, a) + Times(m, b) && Times(m, 1.0) == m && Times(m, 0.0) == 0.0
  {
  }

  /** Squared distances from any `m`: the squares, less twice `m` times the total, plus `m` squared for each value. */
  lemma {:induction false} GapsExpand(vals: seq<nat>, m: real)
    ensures SquaredGaps(vals, m)
      == Squares(vals) - 2.0 * Times(m, Total(vals)) + Times(Times(m, m), |vals| as real)
  {
    if vals == [] {
      TimesSum(m, 0.0, 0.0);
      TimesSum(Times(m, m), 0.0, 0.0);
    } else {
      var front, v := vals[..|vals| - 1], vals[|vals| - 1];
      GapsExpand(front, m);
      OneGap(v, m);
      TimesSum(m, Total(front), v as real);
      TimesSum(Times(m, m), |front| as real, 1.0);
      hide Gap, Times;
    }
  }

  lemma PositiveTimes(x: real, y: real)
    requires x > 0.0 && y > 0.0
    ensures Times(x, y) > 0.0
  {
  }

  lemma NegativeTimes(x: real, y: real)
    requires x < 0.0 && y < 0.0
    ensures Times(x, y) > 0.0
  {
  }

  lemma GapSign(v: nat, mean: real)
    ensures Gap(v, mean) >= 0.0 && (Gap(v, mean) == 0.0 <==> v as real == mean)
  {
    var d := v as real - mean;
    if d > 0.0 {
      PositiveTimes(d, d);
    } else if d < 0.0 {
      NegativeTimes(d, d);
    }
  }

  lemma {:induction false} GapsSign(vals: seq<nat>, mean: real)
    ensures SquaredGaps(vals, mean) >= 0.0
    ensures SquaredGaps(vals, mean) == 0.0 <==> forall i :: 0 <= i < |vals| ==> vals[i] as real == mean
  {
    if vals != [] {
      hide Gap;
      var front, last := vals[..|vals| - 1], vals[|vals| - 1];
      GapsSign(front, mean);
      GapSign(last, mean);
      assert (forall i :: 0 <= i < |vals| ==> vals[i] as real == mean)
        <==> (forall i :: 0 <= i < |front| ==> front[i] as real == mean) && last as real == mean;
    }
  }

  lemma {:induction false} TotalOfEqual(vals: seq<nat>, v: nat)
    requires forall i :: 0 <= i < |vals| ==> vals[i] == v
    ensures Total(vals) == |vals| as real * v as real
  {
    if vals != [] {
      TotalOfEqual(vals[..|vals| - 1], v);
    }
  }

  lemma QuotientSign(a: real, n: real)
    requires n > 0.0
    ensures (a / n == 0.0 <==> a == 0.0) && (a >= 0.0 ==> a / n >= 0.0)
  {
  }

  lemma Cancels(n: real, v: real)
    requires n > 0.0
    ensures (n * v) / n == v
  {
  }

  /**
   * The variance is zero exactly when all counts are equal, so the z-score divides by zero only where the
   * detector has already returned.
   */
  lemma ZeroVarianceIffEqual(vals: seq<nat>, mean: real, variance: real)
    requires vals != [] && mean == Total(vals) / |vals| as real && variance == SquaredGaps(vals, mean) / |vals| as real
    ensures variance >= 0.0
    ensures variance == 0.0 <==> forall i :: 0 <= i < |vals| ==> vals[i] == vals[0]
  {
    GapsSign(vals, mean);
    var n := |vals| as real;
    QuotientSign(SquaredGaps(vals, mean), n);
    if forall i :: 0 <= i < |vals| ==> vals[i] == vals[0] {
      TotalOfEqual(vals, vals[0]);
      Cancels(n, vals[0] as real);
      assert mean == vals[0] as real;
    }
    if variance == 0.0 {
      assert vals[0] as real == mean;
    }
  }
}
