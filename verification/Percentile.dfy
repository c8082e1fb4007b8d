/**
 Nearest-rank percentiles and the latency summary of the benchmark harness, over exact reals.
 */
module Percentile {
  import opened Options

  datatype StatsError = EmptySample

  predicate IsSorted(s: seq<real>) {
    forall i, k | 0 <= i < k < |s| :: s[i] <= s[k]
  }

  function Ceil(x: real): int {
    -(-x).Floor
  }

  function Rank(n: nat, p: real): int {
    Ceil(p / 100.0 * n as real)
  }

  function Clamp(rank: int, n: nat): int {
    var low := if rank <= n then rank else n;
    if low < 1 then 1 else low
  }

  function NearestRank(sorted: seq<real>, p: real): Result<real, StatsError> {
    if sorted == [] then Err(EmptySample)
    else if p <= 0.0 then Ok(sorted[0])
    else if p >= 100.0 then Ok(sorted[|sorted| - 1])
    else Ok(sorted[Clamp(Rank(|sorted|, p), |sorted|) - 1])
  }

  // ----- the counting definition -----

  function CountAtMost(s: seq<real>, v: real): nat {
    if s == [] then 0 else CountAtMost(s[..|s| - 1], v) + (if s[|s| - 1] <= v then 1 else 0)
  }

  /** At least p percent of the samples are at most v. */
  predicate Covers(s: seq<real>, v: real, p: real) {
    Reaches(CountAtMost(s, v), |s|, p)
  }

  predicate Reaches(count: nat, n: nat, p: real) {
    count as real >= p / 100.0 * n as real
  }

  lemma {:induction false} CountLow(s: seq<real>, v: real, k: nat)
    requires IsSorted(s) && k <= |s| && forall i | k <= i < |s| :: v < s[i]
    ensures CountAtMost(s, v) <= k
  {
    if |s| > k {
      CountLow(s[..|s| - 1], v, k);
    } else if s != [] {
      CountLow(s[..|s| - 1], v, k - 1);
    }
  }

  lemma {:induction false} CountHigh(s: seq<real>, v: real, k: nat)
    requires k <= |s| && forall i | 0 <= i < k :: s[i] <= v
    ensures CountAtMost(s, v) >= k
  {
    if s != [] {
      CountHigh(s[..|s| - 1], v, if k == |s| then k - 1 else k);
    }
  }

  lemma CeilBounds(x: real)
    ensures (Ceil(x) - 1) as real < x <= Ceil(x) as real
  {
  }

  lemma Fraction(n: nat, p: real)
    requires n > 0 && 0.0 < p <= 100.0
    ensures 0.0 < p / 100.0 * n as real <= n as real
  {
    var f, m := p / 100.0, n as real;
    assert 0.0 < f <= 1.0;
    assert f * m > 0.0;
    assert (1.0 - f) * m >= 0.0;
    assert (1.0 - f) * m == m - f * m;
  }

  /** In exact arithmetic the rank is already within the sample. */
  lemma RankIsWithin(n: nat, p: real)
    requires n > 0 && 0.0 < p <= 100.0
    ensures 1 <= Rank(n, p) <= n && Clamp(Rank(n, p), n) == Rank(n, p)
  {
    Fraction(n, p);
    CeilBounds(p / 100.0 * n as real);
  }

  lemma RankOfHundred(n: nat)
    ensures Rank(n, 100.0) == n
  {
    assert 100.0 / 100.0 * n as real == n as real;
    CeilBounds(n as real);
  }

  lemma PercentileAtRank(sorted: seq<real>, p: real)
    requires sorted != [] && 0.0 < p <= 100.0
    ensures 1 <= Rank(|sorted|, p) <= |sorted|
    ensures NearestRank(sorted, p) == Ok(sorted[Rank(|sorted|, p) - 1])
  {
    RankIsWithin(|sorted|, p);
    RankOfHundred(|sorted|);
  }

  /**
   For 0 < p <= 100 the percentile of a sorted sample is its smallest value that at least p
   percent of the samples do not exceed.
   */
  lemma NearestRankIsSmallestCovering(sorted: seq<real>, p: real)
    requires sorted != [] && IsSorted(sorted) && 0.0 < p <= 100.0
    ensures NearestRank(sorted, p).Ok?
    ensures var r := NearestRank(sorted, p).value;
            && r in sorted && Covers(sorted, r, p)
            && forall v | v in sorted && Covers(sorted, v, p) :: r <= v
  {
    PercentileAtRank(sorted, p);
    var k := Rank(|sorted|, p);
    var r := sorted[k - 1];
    CeilBounds(p / 100.0 * |sorted| as real);
    CountHigh(sorted, r, k);
    forall v | v in sorted && Covers(sorted, v, p)
      ensures r <= v
    {
      if v < r {
        CountLow(sorted, v, k - 1);
      }
    }
  }

  lemma CeilMonotone(x: real, y: real)
    requires x <= y
    ensures Ceil(x) <= Ceil(y)
  {
  }

  lemma RankMonotone(n: nat, p: real, q: real)
    requires p <= q
    ensures Rank(n, p) <= Rank(n, q)
  {
    var m := n as real;
    assert (q / 100.0 - p / 100.0) * m >= 0.0;
    assert (q / 100.0 - p / 100.0) * m == q / 100.0 * m - p / 100.0 * m;
    CeilMonotone(p / 100.0 * m, q / 100.0 * m);
  }

  /** A higher percentile is never a smaller value, clamped ends included. */
  lemma PercentileIsMonotone(sorted: seq<real>, p: real, q: real)
    requires sorted != [] && IsSorted(sorted) && p <= q
    ensures NearestRank(sorted, p).Ok? && NearestRank(sorted, q).Ok?
    ensures sorted[0] <= NearestRank(sorted, p).value <= NearestRank(sorted, q).value <= sorted[|sorted| - 1]
  {
    RankMonotone(|sorted|, p, q);
  }

  // ----- the summary -----

  function Insert(x: real, s: seq<real>): (r: seq<real>)
    ensures multiset(r) == multiset(s) + multiset{x}
  {
    if s == [] then [x]
    else if x <= s[0] then
      assert multiset([x] + s) == multiset(s) + multiset{x};
      [x] + s
    else
      var rest := Insert(x, s[1..]);
      assert s == [s[0]] + s[1..] && multiset([s[0]] + rest) == multiset{s[0]} + multiset(rest);
      [s[0]] + rest
  }

  function Sort(s: seq<real>): (r: seq<real>)
    ensures multiset(r) == multiset(s) && |r| == |s|
  {
    if s == [] then []
    else
      assert s == [s[0]] + s[1..];
      var r := Insert(s[0], Sort(s[1..]));
      assert |multiset(r)| == |multiset(s)|;
      r
  }

  lemma {:induction false} InsertKeepsSorted(x: real, s: seq<real>)
    requires IsSorted(s)
    ensures IsSorted(Insert(x, s))
  {
    if s != [] && x > s[0] {
      InsertKeepsSorted(x, s[1..]);
      var rest := Insert(x, s[1..]);
      forall k | 0 <= k < |rest|
        ensures s[0] <= rest[k]
      {
        assert rest[k] in multiset(rest);
        assert rest[k] == x || rest[k] in s[1..];
      }
    }
  }

  lemma {:induction false} SortIsSorted(s: seq<real>)
    ensures IsSorted(Sort(s))
  {
    if s != [] {
      SortIsSorted(s[1..]);
      InsertKeepsSorted(s[0], Sort(s[1..]));
    }
  }

  function Sum(s: seq<real>): real {
    if s == [] then 0.0 else Sum(s[..|s| - 1]) + s[|s| - 1]
  }

  /** Addition over the pieces; with a single sample this says what a sum is. */
  lemma {:induction false} SumOfConcat(a: seq<real>, b: seq<real>, x: real)
    ensures Sum(a + b) == Sum(a) + Sum(b) && Sum([x]) == x
  {
    assert [x][..0] == [];
    if b == [] {
      assert a + b == a;
    } else {
      var front, last := b[..|b| - 1], b[|b| - 1];
      assert (a + b)[..|a + b| - 1] == a + front;
      SumOfConcat(a, front, x);
    }
  }

  lemma {:induction false} CountOfConcat(a: seq<real>, b: seq<real>, v: real)
    ensures CountAtMost(a + b, v) == CountAtMost(a, v) + CountAtMost(b, v)
  {
    if b == [] {
      assert a + b == a;
    } else {
      assert (a + b)[..|a + b| - 1] == a + b[..|b| - 1];
      CountOfConcat(a, b[..|b| - 1], v);
    }
  }

  lemma {:induction false} InsertKeepsTotals(x: real, s: seq<real>, v: real)
    ensures Sum(Insert(x, s)) == x + Sum(s)
    ensures CountAtMost(Insert(x, s), v) == CountAtMost([x], v) + CountAtMost(s, v)
  {
    if s == [] || x <= s[0] {
      assert Insert(x, s) == [x] + s;
      SumOfConcat([x], s, x);
      CountOfConcat([x], s, v);
    } else {
      var first, rest := s[0], s[1..];
      assert s == [first] + rest && Insert(x, s) == [first] + Insert(x, rest);
      InsertKeepsTotals(x, rest, v);
      SumOfConcat([first], rest, first);
      SumOfConcat([first], Insert(x, rest), first);
      CountOfConcat([first], rest, v);
      CountOfConcat([first], Insert(x, rest), v);
    }
  }

  /** Sorting changes neither the sum nor how many samples are at most a value. */
  lemma {:induction false} SortKeepsTotals(s: seq<real>, v: real)
    ensures Sum(Sort(s)) == Sum(s) && CountAtMost(Sort(s), v) == CountAtMost(s, v)
  {
    if s != [] {
      assert s == [s[0]] + s[1..];
      SortKeepsTotals(s[1..], v);
      InsertKeepsTotals(s[0], Sort(s[1..]), v);
      SumOfConcat([s[0]], s[1..], s[0]);
      CountOfConcat([s[0]], s[1..], v);
    }
  }

  datatype Summary = Summary(count: nat, p50: real, p95: real, p99: real, min: real, max: real, mean: real)

  function SummarizeLatencies(samples: seq<real>): Result<Summary, StatsError> {
    if samples == [] then Err(EmptySample)
    else
      var ordered := Sort(samples);
      Ok(Summary(|ordered|,
                 NearestRank(ordered, 50.0).value, NearestRank(ordered, 95.0).value, NearestRank(ordered, 99.0).value,
                 ordered[0], ordered[|ordered| - 1], Mean(ordered)))
  }

  lemma {:induction false} SumWithin(s: seq<real>, lo: real, hi: real)
    requires forall i | 0 <= i < |s| :: lo <= s[i] <= hi
    ensures lo * |s| as real <= Sum(s) <= hi * |s| as real
  {
    if s != [] {
      SumWithin(s[..|s| - 1], lo, hi);
      var m := (|s| - 1) as real;
      assert lo * (m + 1.0) == lo * m + lo && hi * (m + 1.0) == hi * m + hi;
    }
  }

  lemma NotNegative(a: real, n: real)
    requires n > 0.0 && a * n >= 0.0
    ensures a >= 0.0
  {
  }

  lemma QuotientWithin(total: real, n: real, lo: real, hi: real)
    requires n > 0.0 && lo * n <= total <= hi * n
    ensures lo <= total / n <= hi
  {
    var mean := total / n;
    assert mean * n == total;
    assert (mean - lo) * n == mean * n - lo * n;
    NotNegative(mean - lo, n);
    assert (hi - mean) * n == hi * n - mean * n;
    NotNegative(hi - mean, n);
  }

  function Mean(s: seq<real>): real
    requires s != []
  {
    Quotient(Sum(s), |s|)
  }

  function Quotient(total: real, n: nat): real
    requires n > 0
  {
    total / n as real
  }

  lemma MeanWithin(s: seq<real>, lo: real, hi: real)
    requires s != [] && forall i | 0 <= i < |s| :: lo <= s[i] <= hi
    ensures lo <= Mean(s) <= hi
  {
    SumWithin(s, lo, hi);
    QuotientWithin(Sum(s), |s| as real, lo, hi);
  }

  lemma MeanIsBetween(sorted: seq<real>)
    requires sorted != [] && IsSorted(sorted)
    ensures sorted[0] <= Mean(sorted) <= sorted[|sorted| - 1]
  {
    MeanWithin(sorted, sorted[0], sorted[|sorted| - 1]);
  }

  /** The summary of any non-empty sample is ordered: min, p50, p95, p99, max, with the mean between the ends. */
  lemma SummaryIsOrdered(samples: seq<real>)
    requires samples != []
    ensures SummarizeLatencies(samples).Ok?
    ensures var r := SummarizeLatencies(samples).value;
            && r.count == |samples|
            && r.min <= r.p50 <= r.p95 <= r.p99 <= r.max
            && r.min <= r.mean <= r.max
            && forall x | x in samples :: r.min <= x <= r.max
  {
    var ordered := Sort(samples);
    SortIsSorted(samples);
    PercentileIsMonotone(ordered, 50.0, 95.0);
    PercentileIsMonotone(ordered, 95.0, 99.0);
    MeanIsBetween(ordered);
    forall x | x in samples
      ensures ordered[0] <= x <= ordered[|ordered| - 1]
    {
      assert x in multiset(samples);
      assert x in ordered;
    }
  }

  /** The smallest sample that at least p percent of the samples do not exceed. */
  predicate IsPercentile(samples: seq<real>, x: real, p: real) {
    x in samples && Covers(samples, x, p) && forall v | v in samples && Covers(samples, v, p) :: x <= v
  }

  lemma SameCover(samples: seq<real>, v: real, p: real)
    ensures Covers(Sort(samples), v, p) <==> Covers(samples, v, p)
  {
    SortKeepsTotals(samples, v);
  }

  lemma SameMembers(samples: seq<real>, x: real)
    ensures x in Sort(samples) <==> x in samples
  {
    assert x in Sort(samples) <==> x in multiset(Sort(samples));
    assert x in samples <==> x in multiset(samples);
  }

  lemma PercentileOfSorted(samples: seq<real>, p: real)
    requires samples != [] && 0.0 < p <= 100.0
    ensures NearestRank(Sort(samples), p).Ok? && IsPercentile(samples, NearestRank(Sort(samples), p).value, p)
  {
    var ordered := Sort(samples);
    SortIsSorted(samples);
    NearestRankIsSmallestCovering(ordered, p);
    var r := NearestRank(ordered, p).value;
    SameMembers(samples, r);
    SameCover(samples, r, p);
    forall v | v in samples && Covers(samples, v, p)
      ensures r <= v
    {
      SameMembers(samples, v);
      SameCover(samples, v, p);
    }
  }

  /** The value that, taken for every sample, gives the same sum. */
  predicate IsMean(samples: seq<real>, x: real) {
    EvensOut(x, |samples|, Sum(samples))
  }

  predicate EvensOut(x: real, n: nat, total: real) {
    x * n as real == total
  }

  lemma QuotientTimes(total: real, n: nat)
    requires n > 0
    ensures EvensOut(Quotient(total, n), n, total)
  {
  }

  lemma SameMean(samples: seq<real>)
    requires samples != []
    ensures Mean(Sort(samples)) == Quotient(Sum(samples), |samples|)
  {
    SortKeepsTotals(samples, 0.0);
  }

  lemma MeanOfSorted(samples: seq<real>)
    requires samples != []
    ensures IsMean(samples, Mean(Sort(samples)))
  {
    SameMean(samples);
    QuotientTimes(Sum(samples), |samples|);
  }

  lemma EndsAreSamples(samples: seq<real>)
    requires samples != []
    ensures Sort(samples)[0] in samples && Sort(samples)[|samples| - 1] in samples
  {
    SameMembers(samples, Sort(samples)[0]);
    SameMembers(samples, Sort(samples)[|samples| - 1]);
  }

  /** Every field of a summary, in terms of the samples as they came; no samples are an error. */
  lemma SummaryIsExact(samples: seq<real>)
    ensures samples == [] <==> SummarizeLatencies(samples) == Err(EmptySample)
    ensures samples != [] ==>
              && SummarizeLatencies(samples).Ok?
              && var r := SummarizeLatencies(samples).value;
              && r.count == |samples|
              && IsPercentile(samples, r.p50, 50.0) && IsPercentile(samples, r.p95, 95.0)
              && IsPercentile(samples, r.p99, 99.0)
              && r.min in samples && r.max in samples && (forall x | x in samples :: r.min <= x <= r.max)
              && IsMean(samples, r.mean)
  {
    if samples != [] {
      SummaryIsOrdered(samples);
      PercentileOfSorted(samples, 50.0);
      PercentileOfSorted(samples, 95.0);
      PercentileOfSorted(samples, 99.0);
      EndsAreSamples(samples);
      MeanOfSorted(samples);
    }
  }
}
