/** The truncating running average of query times. */
module QueryTimer {
  import opened Basics

  function Sum(xs: seq<nat>): (r: nat) {
    if xs == [] then 0 else Sum(xs[..|xs| - 1]) + xs[|xs| - 1]
  }

  /** One update: the stored average, weighted by the count, and a new sample. */
  function Blend(average: nat, count: nat, sample: nat): (r: nat) {
    (Product(average, count) + sample) / (count + 1)
  }

  /** The stored average after these samples. */
  function Average(xs: seq<nat>): (r: nat) {
    if xs == [] then 0 else Blend(Average(xs[..|xs| - 1]), |xs| - 1, xs[|xs| - 1])
  }

  lemma Divided(a: nat, n: nat)
    requires n > 0
    ensures (a / n) * n <= a <= (a / n) * n + n - 1
  {
  }

  lemma BlendFloors(average: nat, count: nat, sample: nat)
    ensures var r, total := Blend(average, count, sample), Product(average, count) + sample;
            Product(r, count + 1) <= total < Product(r, count + 1) + count + 1
  {
    Divided(Product(average, count) + sample, count + 1);
  }

  /** One more sample: the new average is the largest whose product with the new count
      does not exceed the old product and the sample together. */
  lemma OneMoreSample(xs: seq<nat>, sample: nat)
    ensures var r, total := Average(xs + [sample]), Product(Average(xs), |xs|) + sample;
            Product(r, |xs| + 1) <= total < Product(r, |xs| + 1) + |xs| + 1
  {
    var all := xs + [sample];
    assert all[..|xs|] == xs && all[|xs|] == sample;
    BlendFloors(Average(xs), |xs|, sample);
  }

  lemma DividedAtLeast(a: nat, n: nat, low: nat)
    requires n > 0 && a >= low * n
    ensures a / n >= low
  {
    Divided(a, n);
    var q := a / n;
    if q < low {
      Scaled(q + 1, low, n);
    }
  }

  /** One more sample, one more rounding of less than a unit per sample counted. */
  lemma BlendLag(average: nat, count: nat, sample: nat, sum: nat)
    requires average * count <= sum && 2 * (sum - average * count) <= count * count - count
    ensures var r := Blend(average, count, sample);
            r * (count + 1) <= sum + sample
            && 2 * (sum + sample - r * (count + 1)) <= (count + 1) * (count + 1) - (count + 1)
  {
    var total := Product(average, count) + sample;
    Divided(total, count + 1);
    assert (count + 1) * (count + 1) == count * count + 2 * count + 1;
  }

  /** Each division drops less than one millisecond per sample, so the average never
      exceeds the true mean and lags it by at most (n - 1) / 2. */
  lemma {:induction false} LagBound(xs: seq<nat>)
    requires xs != []
    ensures Average(xs) * |xs| <= Sum(xs)
    ensures 2 * (Sum(xs) - Average(xs) * |xs|) <= |xs| * (|xs| - 1)
  {
    var front := xs[..|xs| - 1];
    if |xs| > 1 {
      LagBound(front);
      Squared(|front|);
    }
    BlendLag(Average(front), |front|, xs[|xs| - 1], Sum(front));
    Squared(|xs|);
  }

  lemma Squared(n: int)
    ensures n * (n - 1) == n * n - n
  {
  }

  /** The average is never below the smallest sample. */
  lemma {:induction false} AboveSmallest(xs: seq<nat>, low: nat)
    requires xs != [] && forall i :: 0 <= i < |xs| ==> low <= xs[i]
    ensures low <= Average(xs)
  {
    var front := xs[..|xs| - 1];
    if |xs| > 1 {
      AboveSmallest(front, low);
    }
    BlendAtLeast(Average(front), |front|, xs[|xs| - 1], low);
  }

  lemma BlendAtLeast(average: nat, count: nat, sample: nat, low: nat)
    requires sample >= low && (count > 0 ==> average >= low)
    ensures Blend(average, count, sample) >= low
  {
    if count > 0 { Scaled(low, average, count); }
    assert low * count + low == low * (count + 1);
    DividedAtLeast(Product(average, count) + sample, count + 1, low);
  }

  /** The product formed on the way never exceeds the sum of the samples, so it fits in
      64 bits whenever that sum does. */
  lemma ProductFits(xs: seq<nat>, elapsed: nat)
    ensures Average(xs) * |xs| + elapsed <= Sum(xs + [elapsed])
  {
    assert (xs + [elapsed])[..|xs|] == xs;
    if xs != [] {
      LagBound(xs);
    }
  }

  function CountUp(n: nat): (r: seq<nat>)
    ensures |r| == n
  {
    if n == 0 then [] else CountUp(n - 1) + [n - 1]
  }

  lemma SmallerIsZero(a: nat, n: nat)
    requires a < n
    ensures a / n == 0
  {
  }

  lemma Triangle(m: int)
    ensures m * (m - 1) + 2 * m == (m + 1) * m
  {
  }

  lemma {:induction false} CountUpSum(n: nat)
    ensures 2 * Sum(CountUp(n)) == n * (n - 1)
  {
    if n > 0 {
      CountUpSum(n - 1);
      assert CountUp(n)[..n - 1] == CountUp(n - 1);
      Triangle(n - 1);
    }
  }

  lemma BlendStaysZero(m: nat)
    ensures Blend(0, m, m) == 0
  {
    assert Product(0, m) == 0;
    SmallerIsZero(m, m + 1);
  }

  /** The bound is met: on 0, 1, 2, ..., n - 1 the average stays 0 while the mean is
      (n - 1) / 2. */
  lemma {:induction false} LagIsTight(n: nat)
    ensures Average(CountUp(n)) == 0 && 2 * Sum(CountUp(n)) == n * (n - 1)
  {
    CountUpSum(n);
    if n > 0 {
      LagIsTight(n - 1);
      assert CountUp(n)[..n - 1] == CountUp(n - 1);
      BlendStaysZero(n - 1);
    }
  }

  /** At most the true mean, and at most (n - 1) / 2 below it. */
  ghost predicate WithinLag(average: nat, xs: seq<nat>) {
    && average * |xs| <= Sum(xs)
    && (xs == [] ==> Sum(xs) == 0)
    && (xs != [] ==> 2 * (Sum(xs) - average * |xs|) <= |xs| * (|xs| - 1))
  }

  lemma AverageWithinLag(xs: seq<nat>)
    ensures WithinLag(Average(xs), xs)
  {
    if xs != [] {
      LagBound(xs);
    }
  }

  lemma FirstBlend(sample: nat)
    ensures Blend(0, 0, sample) == sample
  {
    assert Product(0, 0) == 0;
  }

  lemma AverageAfter(xs: seq<nat>, sample: nat)
    ensures Average(xs + [sample])
            == if |xs| == 0 then sample else (Product(Average(xs), |xs|) + sample) / (|xs| + 1)
  {
    var all := xs + [sample];
    assert all[..|xs|] == xs && all[|xs|] == sample;
    assert Average(all) == Blend(Average(xs), |xs|, sample);
    if xs == [] {
      FirstBlend(sample);
    }
  }

  class Timer {
    var count: nat
    var average: nat
    ghost var samples: seq<nat>

    ghost predicate Valid()
      reads this
    {
      count == |samples| && average == Average(samples)
    }

    constructor ()
      ensures Valid() && samples == []
    {
      count, average, samples := 0, 0, [];
    }

    /** record_query_time: only successful queries count. */
    method Record(elapsed: nat, success: bool)
      requires Valid()
      modifies this
      ensures Valid()
      ensures samples == if success then old(samples) + [elapsed] else old(samples)
      ensures count == old(count) + (if success then 1 else 0) && (!success ==> average == old(average))
      ensures WithinLag(average, samples)
    {
      if success {
        var newCount := count + 1;
        var newAverage := if count == 0 then elapsed else (Product(average, count) + elapsed) / newCount;
        AverageAfter(samples, elapsed);
        samples := samples + [elapsed];
        count, average := newCount, newAverage;
      }
      AverageWithinLag(samples);
    }
  }
}
