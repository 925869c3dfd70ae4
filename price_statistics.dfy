/** The summary of the final day's prices computed by
    `get_price_statistics` (monte_carlo.py:40-51): mean, median and the 5th
    and 95th percentiles, with numpy's default linear interpolation. */
module PriceStatistics {
  import opened Outcomes
  import opened Reductions

  datatype PriceStatistics = PriceStatistics(mean: real, median: real, p5: real, p95: real)

  /** `paths[-1]` on a matrix without rows raises; on an empty last row numpy
      has no real mean, median or percentile to give. */
  datatype StatisticsError = NoRows | NoPrices

  /** The distance a weight `f` covers on the way from `a` to `b`. */
  function Step(a: real, b: real, f: real): real
  {
    f * (b - a)
  }

  lemma ScaleNonnegative(f: real, d: real)
    requires 0.0 <= f && 0.0 <= d
    ensures 0.0 <= f * d
  {
  }

  lemma ScaleMonotone(f: real, g: real, d: real)
    requires f <= g && 0.0 <= d
    ensures f * d <= g * d
  {
    ScaleNonnegative(g - f, d);
  }

  lemma ScaleAtMost(f: real, d: real)
    requires f <= 1.0 && 0.0 <= d
    ensures f * d <= d
  {
    ScaleNonnegative(1.0 - f, d);
  }

  /** A weight in [0, 1] covers part of the gap and never more, and a larger
      weight covers at least as much. */
  lemma StepBounds(a: real, b: real, f: real, g: real)
    requires a <= b && 0.0 <= f <= g <= 1.0
    ensures 0.0 <= Step(a, b, f) <= Step(a, b, g) <= b - a
  {
    var d := b - a;
    ScaleNonnegative(f, d);
    ScaleMonotone(f, g, d);
    ScaleAtMost(g, d);
  }

  /** Linear interpolation at the virtual index `h` of a sorted sample: the
      order statistic at the floor of `h`, moved towards the next one by the
      fractional part of `h`. The result lies between the two order
      statistics that bracket `h`. */
  function Interpolate(s: seq<real>, h: real): (r: real)
    requires IsSorted(s)
    requires 0.0 <= h <= (|s| - 1) as real
    ensures s[h.Floor] <= r
    ensures h.Floor + 1 < |s| ==> r <= s[h.Floor + 1]
    ensures h.Floor + 1 == |s| ==> r == s[h.Floor]
  {
    var k := h.Floor;
    if k + 1 < |s| then
      StepBounds(s[k], s[k + 1], h - k as real, h - k as real);
      s[k] + Step(s[k], s[k + 1], h - k as real)
    else s[k]
  }

  /** Interpolating further along a sorted sample never gives a smaller value. */
  lemma InterpolateMonotone(s: seq<real>, h1: real, h2: real)
    requires IsSorted(s)
    requires 0.0 <= h1 <= h2 <= (|s| - 1) as real
    ensures Interpolate(s, h1) <= Interpolate(s, h2)
  {
    var k1, k2 := h1.Floor, h2.Floor;
    if k1 == k2 {
      if k1 + 1 < |s| {
        StepBounds(s[k1], s[k1 + 1], h1 - k1 as real, h2 - k2 as real);
      }
    } else {
      assert k1 + 1 <= k2;
      assert s[k1 + 1] <= s[k2];
    }
  }

  /** The virtual index numpy uses for the `p`-th percentile of `n` values:
      `p` percent of the way from the first to the last position. */
  function VirtualIndex(n: nat, p: real): (h: real)
    requires n > 0 && 0.0 <= p <= 100.0
    ensures 0.0 <= h <= (n - 1) as real
  {
    StepBounds(0.0, (n - 1) as real, p / 100.0, 1.0);
    Step(0.0, (n - 1) as real, p / 100.0)
  }

  /** A higher percentile never has a smaller virtual index. */
  lemma VirtualIndexMonotone(n: nat, p: real, q: real)
    requires n > 0 && 0.0 <= p <= q <= 100.0
    ensures VirtualIndex(n, p) <= VirtualIndex(n, q)
  {
    StepBounds(0.0, (n - 1) as real, p / 100.0, q / 100.0);
  }

  /** `np.percentile(xs, p)` with the default linear method. */
  function Percentile(xs: seq<real>, p: real): real
    requires |xs| > 0 && 0.0 <= p <= 100.0
  {
    Interpolate(Sort(xs), VirtualIndex(|xs|, p))
  }

  /** Every percentile lies between the smallest and largest value, and a
      higher percentile is never below a lower one. */
  lemma PercentileBounds(xs: seq<real>, p: real, q: real)
    requires |xs| > 0 && 0.0 <= p <= q <= 100.0
    ensures Min(xs) <= Percentile(xs, p) <= Percentile(xs, q) <= Max(xs)
  {
    var s, n := Sort(xs), |xs|;
    SortEnds(xs);
    VirtualIndexMonotone(n, p, q);
    InterpolateMonotone(s, VirtualIndex(n, p), VirtualIndex(n, q));
    InterpolateMonotone(s, 0.0, VirtualIndex(n, p));
    InterpolateMonotone(s, VirtualIndex(n, q), (n - 1) as real);
    assert (0.0).Floor == 0;
    assert ((n - 1) as real).Floor == n - 1;
  }

  /** `np.median`: the middle value of the sorted sample, or the mean of the
      two middle values when the sample has even length. */
  function Median(xs: seq<real>): real
    requires |xs| > 0
  {
    var s, n := Sort(xs), |xs|;
    if n % 2 == 1 then s[n / 2] else (s[n / 2 - 1] + s[n / 2]) / 2.0
  }

  /** The median is the 50th percentile under linear interpolation. */
  lemma MedianIsFiftiethPercentile(xs: seq<real>)
    requires |xs| > 0
    ensures Median(xs) == Percentile(xs, 50.0)
  {
    var n := |xs|;
    var h := VirtualIndex(n, 50.0);
    assert h == (n - 1) as real / 2.0;
    if n % 2 == 1 {
      var k := n / 2;
      assert h == k as real;
      assert h.Floor == k;
    } else {
      var k := n / 2 - 1;
      assert h == k as real + 0.5;
      assert h.Floor == k;
    }
  }

  /** The statistics of one non-empty sample of final prices. */
  function StatisticsOf(xs: seq<real>): (r: PriceStatistics)
    requires |xs| > 0
    ensures Min(xs) <= r.p5 <= r.median <= r.p95 <= Max(xs)
    ensures Min(xs) <= r.mean <= Max(xs)
    ensures |xs| == 1 ==> r.mean == r.median == r.p5 == r.p95 == xs[0]
  {
    MeanBounds(xs);
    PercentileBounds(xs, 5.0, 50.0);
    PercentileBounds(xs, 50.0, 95.0);
    MedianIsFiftiethPercentile(xs);
    if |xs| == 1 then
      assert Min(xs) == Max(xs) == xs[0];
      PriceStatistics(Mean(xs), Median(xs), Percentile(xs, 5.0), Percentile(xs, 95.0))
    else
      PriceStatistics(Mean(xs), Median(xs), Percentile(xs, 5.0), Percentile(xs, 95.0))
  }

  /** `paths[-1]`: the prices of the last simulated day. */
  function FinalRow(paths: array2<real>): (row: seq<real>)
    reads paths
    requires paths.Length0 > 0
    ensures |row| == paths.Length1
    ensures forall j :: 0 <= j < paths.Length1 ==> row[j] == paths[paths.Length0 - 1, j]
  {
    seq(paths.Length1, j requires 0 <= j < paths.Length1 reads paths => paths[paths.Length0 - 1, j])
  }

  /** `get_price_statistics`: the statistics of the last row of the matrix. */
  function GetPriceStatistics(paths: array2<real>): (r: Result<PriceStatistics, StatisticsError>)
    reads paths
    ensures r.Failure? <==> paths.Length0 == 0 || paths.Length1 == 0
    ensures r.Failure? ==> r.error == if paths.Length0 == 0 then NoRows else NoPrices
    ensures r.Success? ==>
      var last := FinalRow(paths);
      Min(last) <= r.value.p5 <= r.value.median <= r.value.p95 <= Max(last) &&
      Min(last) <= r.value.mean <= Max(last)
    ensures r.Success? && paths.Length1 == 1 ==>
      var price := paths[paths.Length0 - 1, 0];
      r.value == PriceStatistics(price, price, price, price)
  {
    if paths.Length0 == 0 then Failure(NoRows)
    else if paths.Length1 == 0 then Failure(NoPrices)
    else Success(StatisticsOf(FinalRow(paths)))
  }

  /** Only the last row matters: two matrices with the same last row have
      the same statistics, whatever their earlier rows hold. */
  lemma OnlyFinalRowMatters(a: array2<real>, b: array2<real>)
    requires a.Length0 > 0 && b.Length0 > 0
    requires FinalRow(a) == FinalRow(b)
    ensures GetPriceStatistics(a) == GetPriceStatistics(b)
  {
  }
}
