/** Benchmark runs: latency summaries, the accumulation of totals, and the checker that recomputes them. */
module Bench {
  import opened Bytes

  const MAX_ITERATIONS: nat := 100
  const MAX_CASES: nat := 100_000

  // ---------------------------------------------------------------------------------------------
  // Latency
  // ---------------------------------------------------------------------------------------------

  datatype Latency = Latency(minimum: nat, p50: nat, p95: nat, p99: nat, maximum: nat, mean: nat)

  predicate Sorted(s: seq<nat>) { forall i, j :: 0 <= i <= j < |s| ==> s[i] <= s[j] }

  function Insert(x: nat, s: seq<nat>): (r: seq<nat>)
    ensures |r| == |s| + 1
  {
    if s == [] || x <= s[0] then [x] + s else [s[0]] + Insert(x, s[1..])
  }

  function Ordered(s: seq<nat>): (r: seq<nat>)
    ensures |r| == |s|
  {
    if s == [] then [] else Insert(s[0], Ordered(s[1..]))
  }

  /** How many samples satisfy `p`. */
  function Count(s: seq<nat>, p: nat -> bool): nat {
    if s == [] then 0 else (if p(s[0]) then 1 else 0) + Count(s[1..], p)
  }

  function Sum(s: seq<nat>): nat { if s == [] then 0 else s[0] + Sum(s[1..]) }

  lemma {:induction false} InsertOrders(x: nat, s: seq<nat>)
    requires Sorted(s)
    ensures Sorted(Insert(x, s)) && (forall y :: y in Insert(x, s) <==> y == x || y in s)
  {
    if s != [] && x > s[0] {
      InsertOrders(x, s[1..]);
      var t := Insert(x, s[1..]);
      assert s == [s[0]] + s[1..];
      forall j | 0 <= j < |t| ensures s[0] <= t[j] {
        assert t[j] in t;
      }
    }
  }

  lemma {:induction false} OrderedIsSorted(s: seq<nat>)
    ensures Sorted(Ordered(s)) && forall y :: y in Ordered(s) <==> y in s
  {
    if s != [] {
      OrderedIsSorted(s[1..]);
      InsertOrders(s[0], Ordered(s[1..]));
      assert s == [s[0]] + s[1..];
    }
  }

  lemma {:induction false} InsertCounts(x: nat, s: seq<nat>, p: nat -> bool)
    ensures Count(Insert(x, s), p) == Count(s, p) + if p(x) then 1 else 0
    ensures Sum(Insert(x, s)) == Sum(s) + x
  {
    if s == [] || x <= s[0] {
      assert ([x] + s)[1..] == s;
    } else {
      InsertCounts(x, s[1..], p);
      assert ([s[0]] + Insert(x, s[1..]))[1..] == Insert(x, s[1..]);
    }
  }

  /** Sorting changes no count and no sum. */
  lemma {:induction false} OrderedCounts(s: seq<nat>, p: nat -> bool)
    ensures Count(Ordered(s), p) == Count(s, p) && Sum(Ordered(s)) == Sum(s)
  {
    if s != [] {
      OrderedCounts(s[1..], p);
      InsertCounts(s[0], Ordered(s[1..]), p);
    }
  }

  /** `(percentile * len).div_ceil(100)` */
  function Rank(percentile: nat, n: nat): nat { (percentile * n + 99) / 100 }

  function Percentile(ordered: seq<nat>, percentile: nat): nat
    requires ordered != [] && percentile <= 100
  {
    RankInRange(percentile, |ordered|);
    ordered[if Rank(percentile, |ordered|) == 0 then 0 else Rank(percentile, |ordered|) - 1]
  }

  lemma RankInRange(percentile: nat, n: nat)
    requires percentile <= 100
    ensures Rank(percentile, n) <= n
    ensures percentile > 0 && n > 0 ==> Rank(percentile, n) > 0
  {
    assert percentile * n <= 100 * n;
    if percentile > 0 && n > 0 {
      assert percentile * n >= 1;
    }
  }

  lemma RankGrows(p: nat, q: nat, n: nat)
    requires p <= q
    ensures Rank(p, n) <= Rank(q, n)
  {
    assert p * n <= q * n;
  }

  lemma {:induction false} CountAtLeast(s: seq<nat>, k: nat, p: nat -> bool)
    requires k <= |s| && forall i :: 0 <= i < k ==> p(s[i])
    ensures Count(s, p) >= k
  {
    if k > 0 {
      CountAtLeast(s[1..], k - 1, p);
    }
  }

  lemma {:induction false} CountAtMost(s: seq<nat>, k: nat, p: nat -> bool)
    requires k <= |s| && forall i :: k <= i < |s| ==> !p(s[i])
    ensures Count(s, p) <= k
  {
    if s != [] {
      CountAtMost(s[1..], if k == 0 then 0 else k - 1, p);
    }
  }

  /** The nearest-rank percentile of the samples: at least that share of them is at most this, and less of them is
      below it. */
  ghost predicate IsNearestRank(samples: seq<nat>, percentile: nat, value: nat) {
    && value in samples
    && 100 * Count(samples, (x: nat) => x <= value) >= percentile * |samples|
    && 100 * Count(samples, (x: nat) => x < value) < percentile * |samples|
  }

  lemma RankIsShare(percentile: nat, n: nat)
    requires 1 <= percentile <= 100 && n > 0
    ensures 100 * Rank(percentile, n) >= percentile * n > 100 * (Rank(percentile, n) - 1)
  {
  }

  /** No other value is: the percentile is determined by the samples. */
  lemma NearestRankIsUnique(samples: seq<nat>, percentile: nat, v: nat, w: nat)
    requires IsNearestRank(samples, percentile, v) && IsNearestRank(samples, percentile, w)
    ensures v == w
  {
    if v < w {
      CountGrows(samples, (x: nat) => x <= v, (x: nat) => x < w);
    } else if w < v {
      CountGrows(samples, (x: nat) => x <= w, (x: nat) => x < v);
    }
  }

  lemma {:induction false} CountGrows(s: seq<nat>, p: nat -> bool, q: nat -> bool)
    ensures (forall x :: p(x) ==> q(x)) ==> Count(s, p) <= Count(s, q)
  {
    if s != [] {
      CountGrows(s[1..], p, q);
    }
  }

  lemma PercentileIsNearestRank(samples: seq<nat>, percentile: nat)
    requires samples != [] && 1 <= percentile <= 100
    ensures IsNearestRank(samples, percentile, Percentile(Ordered(samples), percentile))
  {
    var s, rank := Ordered(samples), Rank(percentile, |samples|);
    var value := Percentile(s, percentile);
    RankInRange(percentile, |samples|);
    RankIsShare(percentile, |samples|);
    OrderedIsSorted(samples);
    assert value == s[rank - 1];
    CountAtLeast(s, rank, (x: nat) => x <= value);
    CountAtMost(s, rank - 1, (x: nat) => x < value);
    OrderedCounts(samples, (x: nat) => x <= value);
    OrderedCounts(samples, (x: nat) => x < value);
  }

  lemma {:induction false} SumIsBetween(s: seq<nat>, low: nat, high: nat)
    requires forall i :: 0 <= i < |s| ==> low <= s[i] <= high
    ensures low * |s| <= Sum(s) <= high * |s|
  {
    if s != [] {
      SumIsBetween(s[1..], low, high);
      assert low * |s| == low * (|s| - 1) + low && high * |s| == high * (|s| - 1) + high;
    }
  }

  /** `valid_latency` */
  predicate ValidLatency(l: Latency) {
    l.minimum <= l.p50 <= l.p95 <= l.p99 <= l.maximum && l.minimum <= l.mean <= l.maximum
  }

  function SummaryOf(samples: seq<nat>): Latency
    requires samples != []
  {
    var s := Ordered(samples);
    Latency(s[0], Percentile(s, 50), Percentile(s, 95), Percentile(s, 99), s[|s| - 1], Sum(s) / |s|)
  }

  lemma MulOrder(a: nat, b: nat, n: nat, r: nat)
    ensures r < n && a * n <= b * n + r ==> a <= b
  {
    if a > b {
      assert a * n == (a - b - 1) * n + b * n + n;
    }
  }

  lemma MeanIsBetween(sum: nat, n: nat, low: nat, high: nat)
    requires n > 0 && low * n <= sum <= high * n
    ensures low <= sum / n <= high
  {
    var q, r := sum / n, sum % n;
    assert sum == q * n + r;
    MulOrder(low, q, n, r);
    MulOrder(q, high, n, 0);
  }

  lemma RanksAreOrdered(s: seq<nat>)
    requires s != [] && Sorted(s)
    ensures s[0] <= Percentile(s, 50) <= Percentile(s, 95) <= Percentile(s, 99) <= s[|s| - 1]
  {
    RankInRange(50, |s|);
    RankInRange(99, |s|);
    RankInRange(95, |s|);
    RankGrows(50, 95, |s|);
    RankGrows(95, 99, |s|);
  }

  lemma MeanIsInside(s: seq<nat>)
    requires s != [] && Sorted(s)
    ensures s[0] <= Sum(s) / |s| <= s[|s| - 1]
  {
    SumIsBetween(s, s[0], s[|s| - 1]);
    MeanIsBetween(Sum(s), |s|, s[0], s[|s| - 1]);
  }

  lemma SummaryIsValid(samples: seq<nat>)
    requires samples != []
    ensures ValidLatency(SummaryOf(samples))
  {
    OrderedIsSorted(samples);
    RanksAreOrdered(Ordered(samples));
    MeanIsInside(Ordered(samples));
  }

  /** The extremes bound every sample, and the mean is that of the samples. */
  predicate Bounds(samples: seq<nat>, l: Latency) {
    && l.minimum in samples && l.maximum in samples
    && forall x :: x in samples ==> l.minimum <= x <= l.maximum
  }

  lemma SummaryBounds(samples: seq<nat>)
    requires samples != []
    ensures Bounds(samples, SummaryOf(samples)) && SummaryOf(samples).mean == Sum(samples) / |samples|
  {
    var s := Ordered(samples);
    OrderedIsSorted(samples);
    OrderedCounts(samples, (x: nat) => true);
    assert s[0] in s && s[|s| - 1] in s;
    forall x | x in samples ensures s[0] <= x <= s[|s| - 1] {
      assert x in s;
    }
  }

  /** `summarize_latency`: the nearest-rank percentiles of the samples, in a summary that the checker accepts. */
  lemma SummaryIsExact(samples: seq<nat>)
    requires samples != []
    ensures
      var l := SummaryOf(samples);
      && IsNearestRank(samples, 50, l.p50) && IsNearestRank(samples, 95, l.p95) && IsNearestRank(samples, 99, l.p99)
      && Bounds(samples, l) && l.mean == Sum(samples) / |samples| && ValidLatency(l)
  {
    PercentileIsNearestRank(samples, 50);
    PercentileIsNearestRank(samples, 95);
    PercentileIsNearestRank(samples, 99);
    SummaryBounds(samples);
    SummaryIsValid(samples);
  }
}
