// The statistics of one tier of a campaign, from the round-trip times of its sessions, and
// exactly when they cannot be computed.
module TierStatistics {
  import opened Basics
  import opened Modular
  import opened Sorting
  import opened WeightedKth
  import opened Bootstrap

  // The round-trip times of each session, equally many.
  predicate Measured(deltas: seq<seq<int>>, calls: nat) {
    deltas != [] && calls > 0 && forall i :: 0 <= i < |deltas| ==> |deltas[i]| == calls
  }

  function Sessions(deltas: seq<seq<int>>): (sessions: seq<seq<int>>)
    ensures |sessions| == |deltas|
    ensures forall i :: 0 <= i < |deltas| ==> sessions[i] == Sort(deltas[i], Less)
  {
    seq(|deltas|, i requires 0 <= i < |deltas| => Sort(deltas[i], Less))
  }

  // All values of all sessions, one session after the other.
  function Pooled(sessions: seq<seq<int>>): seq<int> {
    Pool(sessions, seq(|sessions|, _ => 1))
  }

  datatype Ci = Ci(lower: int, upper: int)

  datatype TierStats = TierStats(p50: int, p90: int, p99: int, max: int, ci50: Ci, ci99: Ci)

  ghost predicate IsCi(ci: Ci, sessions: seq<seq<int>>, draws: seq<seq<nat>>, percent: nat) {
    exists samples :: Resampled(sessions, draws, percent, 100, samples) && Interval95(samples, ci.lower, ci.upper)
  }

  // The point estimates are percentiles of all the values, the intervals bootstrap
  // intervals of the same percentiles.
  ghost predicate Describes(s: TierStats, deltas: seq<seq<int>>, calls: nat, draws: seq<seq<nat>>) {
    var sessions := Sessions(deltas);
    var pool := Pooled(sessions);
    && IsPercentile(pool, 50, 100, s.p50)
    && IsPercentile(pool, 90, 100, s.p90)
    && IsPercentile(pool, 99, 100, s.p99)
    && s.max in pool && (forall x :: x in pool ==> x <= s.max)
    && |pool| == |deltas| * calls
    && IsCi(s.ci50, sessions, draws, 50)
    && IsCi(s.ci99, sessions, draws, 99)
  }

  lemma SessionsMakeCampaign(deltas: seq<seq<int>>, calls: nat)
    requires Measured(deltas, calls)
    ensures Campaign(Sessions(deltas), calls)
    ensures |Pooled(Sessions(deltas))| == |deltas| * calls
  {
    hide Sort, Sorted, Pool;
    var sessions := Sessions(deltas);
    forall i | 0 <= i < |deltas|
      ensures |sessions[i]| == calls && Sorted(sessions[i], Less)
    {
      SortPermutes(deltas[i], Less);
      LessIsOrdering();
      SortSorts(deltas[i], Less);
    }
    SumOfOnes(|sessions|);
    PoolLength(sessions, seq(|sessions|, _ => 1), calls);
  }

  lemma LessIsOrdering()
    ensures Ordering(Less)
  {
  }

  lemma {:induction false} SumOfOnes(n: nat)
    ensures Sum(seq(n, _ => 1)) == n
    decreases n
  {
    if n > 0 {
      SumOfOnes(n - 1);
      var ones: seq<nat> := seq(n, _ => 1);
      assert ones[..n - 1] == seq(n - 1, _ => 1);
    }
  }

  // One percentile of the pooled values.
  method PooledPercentile(pooled: seq<int>, sorted: seq<int>, percent: nat) returns (v: int)
    requires Sorted(sorted, Less) && multiset(sorted) == multiset(pooled) && pooled != [] && 0 < percent <= 100
    ensures IsPercentile(pooled, percent, 100, v)
  {
    hide IsPercentile, NearestRank;
    PercentileIsKth(pooled, sorted, percent, 100);
    v := Percentile(sorted, percent, 100);
  }

  // arm_statistics, without the handshake times.
  method ArmStatistics(deltas: seq<seq<int>>, calls: nat, draws: seq<seq<nat>>) returns (s: TierStats)
    requires Measured(deltas, calls) && Draws(draws, |deltas|)
    ensures Describes(s, deltas, calls, draws)
  {
    hide Pool, CountAtMost, IsPercentile, NearestRank, Sort, Sorted, Interval95, Resampled, Campaign, Draws;
    SessionsMakeCampaign(deltas, calls);
    var sessions := Sessions(deltas);
    var values := Pooled(sessions);
    var pooled := Sort(values, Less);
    SortPermutes(values, Less);
    LessIsOrdering();
    SortSorts(values, Less);
    NothingMissing(deltas, calls);
    var p50 := PooledPercentile(values, pooled, 50);
    var p90 := PooledPercentile(values, pooled, 90);
    var p99 := PooledPercentile(values, pooled, 99);
    var max := pooled[|pooled| - 1];
    LastIsGreatest(values, pooled);
    var lower50, upper50 := BlockBootstrapCi(sessions, calls, 50, 100, draws);
    var lower99, upper99 := BlockBootstrapCi(sessions, calls, 99, 100, draws);
    s := TierStats(p50, p90, p99, max, Ci(lower50, upper50), Ci(lower99, upper99));
  }

  lemma LastIsGreatest(values: seq<int>, sorted: seq<int>)
    requires Sorted(sorted, Less) && multiset(sorted) == multiset(values) && sorted != []
    ensures sorted[|sorted| - 1] in values && forall x :: x in values ==> x <= sorted[|sorted| - 1]
  {
    var n := |sorted| - 1;
    assert sorted[n] in multiset(values);
    forall x | x in values
      ensures x <= sorted[n]
    {
      assert x in multiset(sorted);
      var i :| 0 <= i < |sorted| && sorted[i] == x;
      assert i < n ==> !Less(sorted[n], sorted[i]);
    }
  }

  lemma NothingMissing(deltas: seq<seq<int>>, calls: nat)
    requires Measured(deltas, calls)
    ensures |deltas| * calls > 0
  {
  }

  // ---- when the statistics fail ----

  // At least this percentage of the values is zero or less.
  predicate Low(pool: seq<int>, percent: nat) {
    100 * CountAtMost(pool, 0) >= percent * |pool|
  }

  // In how many draws so many of the values drawn are zero or less.
  function LowDraws(sessions: seq<seq<int>>, draws: seq<seq<nat>>, percent: nat): (n: nat)
    ensures n <= |draws|
  {
    if draws == [] then 0
    else
      var last := |draws| - 1;
      LowDraws(sessions, draws[..last], percent)
      + if Low(Pool(sessions, Weights(|sessions|, draws[last])), percent) then 1 else 0
  }

  // A percentile is at most zero exactly when that share of the values is.
  lemma PercentileAtMostZero(values: seq<int>, num: nat, den: nat, v: int)
    requires IsPercentile(values, num, den, v)
    ensures v <= 0 <==> den * CountAtMost(values, 0) >= num * |values|
  {
    hide CountAtMost;
    if v <= 0 {
      CountMonotone(values, v, 0);
      MulMonotone(CountAtMost(values, v), CountAtMost(values, 0), den);
    } else {
      CountMonotone(values, 0, v - 1);
      MulMonotone(CountAtMost(values, 0), CountAtMost(values, v - 1), den);
    }
  }

  lemma {:induction false} LowDrawsAreCounted(
      sessions: seq<seq<int>>, draws: seq<seq<nat>>, percent: nat, values: seq<int>)
    requires Resampled(sessions, draws, percent, 100, values)
    ensures CountAtMost(values, 0) == LowDraws(sessions, draws, percent)
    decreases |draws|
  {
    hide Pool, Weights, IsPercentile;
    if draws != [] {
      var last := |draws| - 1;
      LowDrawsAreCounted(sessions, draws[..last], percent, values[..last]);
      PercentileAtMostZero(Pool(sessions, Weights(|sessions|, draws[last])), percent, 100, values[last]);
    }
  }

  // The upper end of an interval is at most zero exactly when 97.5% of the draws are low.
  lemma UpperEndVanishes(ci: Ci, sessions: seq<seq<int>>, draws: seq<seq<nat>>, percent: nat)
    requires IsCi(ci, sessions, draws, percent)
    ensures ci.upper <= 0 <==> 1000 * LowDraws(sessions, draws, percent) >= 975 * |draws|
  {
    hide Pool, CountAtMost, IsPercentile, Weights;
    var samples :| Resampled(sessions, draws, percent, 100, samples) && Interval95(samples, ci.lower, ci.upper);
    LowDrawsAreCounted(sessions, draws, percent, samples);
    PercentileAtMostZero(samples, 975, 1000, ci.upper);
  }

  ghost predicate NonNegative(deltas: seq<seq<int>>) {
    forall i, x :: 0 <= i < |deltas| && x in deltas[i] ==> x >= 0
  }

  // Every pool holds only measured values.
  lemma PoolWasMeasured(deltas: seq<seq<int>>, weights: seq<nat>, x: int)
    requires |weights| == |deltas| && x in Pool(Sessions(deltas), weights)
    ensures exists i :: 0 <= i < |deltas| && x in deltas[i]
  {
    hide Pool, Sort;
    var sessions := Sessions(deltas);
    InPool(sessions, weights, x);
    var i :| 0 <= i < |sessions| && weights[i] > 0 && x in sessions[i];
    SortPermutes(deltas[i], Less);
    assert x in multiset(sessions[i]);
  }

  lemma EndsAreNotNegative(ci: Ci, deltas: seq<seq<int>>, draws: seq<seq<nat>>, percent: nat)
    requires IsCi(ci, Sessions(deltas), draws, percent) && NonNegative(deltas)
    ensures 0 <= ci.lower <= ci.upper
  {
    hide Pool, IsPercentile, Weights, Sort, Resampled;
    var samples :|
      Resampled(Sessions(deltas), draws, percent, 100, samples) && Interval95(samples, ci.lower, ci.upper);
    PercentileIsElement(samples, 25, 1000, ci.lower);
    var r :| 0 <= r < |samples| && samples[r] == ci.lower;
    SampleIsPercentile(Sessions(deltas), draws, percent, samples, r);
    PercentileIsElement(Pool(Sessions(deltas), Weights(|deltas|, draws[r])), percent, 100, ci.lower);
    PoolWasMeasured(deltas, Weights(|deltas|, draws[r]), ci.lower);
  }

  lemma SampleIsPercentile(
      sessions: seq<seq<int>>, draws: seq<seq<nat>>, percent: nat, samples: seq<int>, r: nat)
    requires Resampled(sessions, draws, percent, 100, samples) && r < |samples|
    ensures r < |draws| && IsPercentile(Pool(sessions, Weights(|sessions|, draws[r])), percent, 100, samples[r])
  {
  }

  // The headroom below the budget divides by the upper end of the p99 interval. It is zero
  // exactly when in 97.5% of the draws 99% of the values are.
  ghost predicate NoHeadroom(deltas: seq<seq<int>>, draws: seq<seq<nat>>) {
    1000 * LowDraws(Sessions(deltas), draws, 99) >= 975 * |draws|
  }

  // tier_statistics. None stands for its division by zero.
  method TierStatistics(deltas: seq<seq<int>>, calls: nat, draws: seq<seq<nat>>)
    returns (r: Option<(TierStats, real)>)
    requires Measured(deltas, calls) && Draws(draws, |deltas|) && NonNegative(deltas)
    ensures r.None? <==> NoHeadroom(deltas, draws)
    ensures r.Some? ==>
              && Describes(r.value.0, deltas, calls, draws)
              && r.value.0.ci99.upper > 0 && r.value.1 * r.value.0.ci99.upper as real == 100000.0
  {
    hide IsCi, Draws, NonNegative, LowDraws, IsPercentile, Measured;
    var s := ArmStatistics(deltas, calls, draws);
    UpperEndVanishes(s.ci99, Sessions(deltas), draws, 99);
    EndsAreNotNegative(s.ci99, deltas, draws, 99);
    if s.ci99.upper == 0 {
      return None;
    }
    var headroom := 100000.0 / s.ci99.upper as real;
    QuotientTimes(100000.0, s.ci99.upper as real);
    r := Some((s, headroom));
  }

  lemma QuotientTimes(x: real, y: real)
    requires y != 0.0
    ensures x / y * y == x
  {
  }

  // ---- comparing two arms ----

  datatype Comparisons = Comparisons(
    rust: TierStats, bun: TierStats, p50: Estimate, p99: Estimate, centralP50: real, centralP99: real)

  lemma {:induction false} SomeDrawIsLow(sessions: seq<seq<int>>, draws: seq<seq<nat>>, percent: nat)
    ensures LowDraws(sessions, draws, percent) > 0 <==>
            exists r :: 0 <= r < |draws| && Low(Pool(sessions, Weights(|sessions|, draws[r])), percent)
    decreases |draws|
  {
    hide Pool, Weights, Low;
    if draws != [] {
      var last := |draws| - 1;
      SomeDrawIsLow(sessions, draws[..last], percent);
      assert forall r :: 0 <= r < last ==> draws[..last][r] == draws[r];
    }
  }

  // A ratio divides by a percentile of the Rust arm: in each draw, where it must be
  // positive, and over all rounds, where it must not be zero.
  ghost predicate NoRatio(rust: seq<seq<int>>, draws: seq<seq<nat>>) {
    || LowDraws(Sessions(rust), draws, 50) > 0
    || IsPercentile(Pooled(Sessions(rust)), 50, 100, 0)
    || IsPercentile(Pooled(Sessions(rust)), 99, 100, 0)
  }

  // One interval of the comparison.
  method PairedInterval(rust: seq<seq<int>>, bun: seq<seq<int>>, calls: nat, percent: nat, draws: seq<seq<nat>>)
    returns (e: Option<Estimate>)
    requires Measured(rust, calls) && Measured(bun, calls) && |rust| == |bun| && Draws(draws, |rust|)
    requires 0 < percent <= 100
    ensures e.None? <==> LowDraws(Sessions(rust), draws, percent) > 0
    ensures e.Some? ==> exists v ::
              PairedValues(Sessions(rust), Sessions(bun), draws, percent, 100, v) && Estimates(e.value, v)
  {
    hide Pool, IsPercentile, Low, Weights, Campaign, Estimates, Draws, Measured;
    SessionsMakeCampaign(rust, calls);
    SessionsMakeCampaign(bun, calls);
    var sessions := Sessions(rust);
    e := PairedBootstrap(sessions, Sessions(bun), calls, calls, percent, 100, draws);
    SomeDrawIsLow(sessions, draws, percent);
    if e.None? {
      ghost var r, v :| 0 <= r < |draws| && v <= 0
        && IsPercentile(Pool(sessions, Weights(|sessions|, draws[r])), percent, 100, v);
      PercentileIsLow(Pool(sessions, Weights(|sessions|, draws[r])), percent, v);
    } else {
      ghost var v :| PairedValues(sessions, Sessions(bun), draws, percent, 100, v) && Estimates(e.value, v);
      RustIsPositive(sessions, Sessions(bun), draws, percent, v);
    }
  }

  lemma PercentileIsLow(pool: seq<int>, percent: nat, v: int)
    requires IsPercentile(pool, percent, 100, v)
    ensures v <= 0 <==> Low(pool, percent)
  {
    hide CountAtMost;
    PercentileAtMostZero(pool, percent, 100, v);
  }

  lemma RustIsPositive(rust: seq<seq<int>>, bun: seq<seq<int>>, draws: seq<seq<nat>>, percent: nat, v: Resamples)
    requires PairedValues(rust, bun, draws, percent, 100, v)
    ensures forall r :: 0 <= r < |draws| ==> !Low(Pool(rust, Weights(|rust|, draws[r])), percent)
  {
    hide Pool, Weights, IsPercentile, Low;
    forall r | 0 <= r < |draws|
      ensures !Low(Pool(rust, Weights(|rust|, draws[r])), percent)
    {
      PercentileIsLow(Pool(rust, Weights(|rust|, draws[r])), percent, v.rust[r]);
    }
  }

  // Fewer low draws at the higher percentage.
  lemma {:induction false} LowDrawsShrink(sessions: seq<seq<int>>, draws: seq<seq<nat>>, percent: nat, higher: nat)
    requires percent <= higher
    ensures LowDraws(sessions, draws, higher) <= LowDraws(sessions, draws, percent)
    decreases |draws|
  {
    hide Pool, Weights, CountAtMost;
    if draws != [] {
      LowDrawsShrink(sessions, draws[..|draws| - 1], percent, higher);
      MulMonotone(percent, higher, |Pool(sessions, Weights(|sessions|, draws[|draws| - 1]))|);
    }
  }

  // One tier of the paired campaign. None stands for its exceptions.
  method CompareArms(rust: seq<seq<int>>, bun: seq<seq<int>>, calls: nat, draws: seq<seq<nat>>)
    returns (r: Option<Comparisons>)
    requires Measured(rust, calls) && Measured(bun, calls) && |rust| == |bun| && Draws(draws, |rust|)
    ensures r.None? <==> NoRatio(rust, draws)
    ensures r.Some? ==>
              var c, s, t := r.value, Sessions(rust), Sessions(bun);
              && Describes(c.rust, rust, calls, draws) && Describes(c.bun, bun, calls, draws)
              && (exists v :: PairedValues(s, t, draws, 50, 100, v) && Estimates(c.p50, v))
              && (exists v :: PairedValues(s, t, draws, 99, 100, v) && Estimates(c.p99, v))
              && c.centralP50 * c.rust.p50 as real == c.bun.p50 as real
              && c.centralP99 * c.rust.p99 as real == c.bun.p99 as real
  {
    hide IsCi, Draws, IsPercentile, Measured, LowDraws, PairedValues, Estimates, Pooled;
    var rustStats := ArmStatistics(rust, calls, draws);
    var bunStats := ArmStatistics(bun, calls, draws);
    var p99 := PairedInterval(rust, bun, calls, 99, draws);
    LowDrawsShrink(Sessions(rust), draws, 50, 99);
    if p99.None? {
      return None;
    }
    var p50 := PairedInterval(rust, bun, calls, 50, draws);
    if p50.None? {
      return None;
    }
    ZeroPercentile(Pooled(Sessions(rust)), 50, rustStats.p50);
    ZeroPercentile(Pooled(Sessions(rust)), 99, rustStats.p99);
    if rustStats.p50 == 0 || rustStats.p99 == 0 {
      return None;
    }
    var central50 := bunStats.p50 as real / rustStats.p50 as real;
    var central99 := bunStats.p99 as real / rustStats.p99 as real;
    QuotientTimes(bunStats.p50 as real, rustStats.p50 as real);
    QuotientTimes(bunStats.p99 as real, rustStats.p99 as real);
    r := Some(Comparisons(rustStats, bunStats, p50.value, p99.value, central50, central99));
  }

  lemma ZeroPercentile(pool: seq<int>, percent: nat, v: int)
    requires IsPercentile(pool, percent, 100, v)
    ensures v == 0 <==> IsPercentile(pool, percent, 100, 0)
  {
    hide IsPercentile;
    if IsPercentile(pool, percent, 100, 0) {
      PercentilesRise(pool, percent, percent, 100, v, 0);
      PercentilesRise(pool, percent, percent, 100, 0, v);
    }
  }

  // ---- what callers can rely on ----

  lemma {:induction false} WeightsAddUp(count: nat, draw: seq<nat>)
    requires forall k :: 0 <= k < |draw| ==> draw[k] < count
    ensures Sum(Weights(count, draw)) == |draw|
    decreases |draw|
  {
    if draw == [] {
      assert Weights(count, draw) == seq(count, _ => 0);
      SumOfZeros(count);
    } else {
      var n := |draw| - 1;
      WeightsAddUp(count, draw[..n]);
      SumUpdate(Weights(count, draw[..n]), draw[n]);
      assert draw == draw[..n] + [draw[n]];
      var w := Weights(count, draw[..n]);
      assert Weights(count, draw) == w[draw[n] := w[draw[n]] + 1];
    }
  }

  // Positive times never fail, whatever is drawn.
  lemma PositiveTimesSucceed(deltas: seq<seq<int>>, calls: nat, draws: seq<seq<nat>>)
    requires Measured(deltas, calls) && Draws(draws, |deltas|)
    requires forall i, x :: 0 <= i < |deltas| && x in deltas[i] ==> x > 0
    ensures !NoHeadroom(deltas, draws) && !NoRatio(deltas, draws)
  {
    hide Pool, CountAtMost, Weights, LowDraws, Draws;
    var sessions := Sessions(deltas);
    SessionsMakeCampaign(deltas, calls);
    NothingMissing(deltas, calls);
    forall weights: seq<nat> | |weights| == |deltas|
      ensures CountAtMost(Pool(sessions, weights), 0) == 0
    {
      forall x | x in Pool(sessions, weights)
        ensures x > 0
      {
        PoolWasMeasured(deltas, weights, x);
      }
      CountOfNone(Pool(sessions, weights), 0);
    }
    forall r | 0 <= r < |draws|
      ensures |Pool(sessions, Weights(|sessions|, draws[r]))| > 0
    {
      DrawIsFull(deltas, calls, draws, r);
    }
    SomeDrawIsLow(sessions, draws, 50);
    SomeDrawIsLow(sessions, draws, 99);
    SomeDraw(draws, |deltas|);
  }

  lemma SomeDraw(draws: seq<seq<nat>>, count: nat)
    requires Draws(draws, count)
    ensures draws != []
  {
  }

  lemma DrawIsFull(deltas: seq<seq<int>>, calls: nat, draws: seq<seq<nat>>, r: nat)
    requires Measured(deltas, calls) && Draws(draws, |deltas|) && r < |draws|
    ensures |Pool(Sessions(deltas), Weights(|deltas|, draws[r]))| == |deltas| * calls > 0
  {
    hide Pool, Weights, Campaign;
    SessionsMakeCampaign(deltas, calls);
    NothingMissing(deltas, calls);
    WeightsAddUp(|deltas|, draws[r]);
    DrawnPoolIsFull(Sessions(deltas), Weights(|deltas|, draws[r]), calls, 99, 100);
  }

  // Times that are all zero pass the loader, but no draws give them statistics.
  lemma ZeroTimesFail(deltas: seq<seq<int>>, calls: nat, draws: seq<seq<nat>>)
    requires Measured(deltas, calls) && Draws(draws, |deltas|)
    requires forall i, x :: 0 <= i < |deltas| && x in deltas[i] ==> x == 0
    ensures NoHeadroom(deltas, draws) && NoRatio(deltas, draws)
  {
    hide Pool, CountAtMost, Weights, LowDraws, Draws;
    var sessions := Sessions(deltas);
    forall r | 0 <= r < |draws|
      ensures Low(Pool(sessions, Weights(|sessions|, draws[r])), 99)
    {
      var pool := Pool(sessions, Weights(|sessions|, draws[r]));
      forall x | x in pool
        ensures x <= 0
      {
        PoolWasMeasured(deltas, Weights(|sessions|, draws[r]), x);
      }
      CountOfAll(pool, 0);
    }
    AllDrawsAreLow(sessions, draws, 99);
    LowDrawsShrink(sessions, draws, 50, 99);
    SomeDraw(draws, |deltas|);
  }

  lemma {:induction false} AllDrawsAreLow(sessions: seq<seq<int>>, draws: seq<seq<nat>>, percent: nat)
    requires forall r :: 0 <= r < |draws| ==> Low(Pool(sessions, Weights(|sessions|, draws[r])), percent)
    ensures LowDraws(sessions, draws, percent) == |draws|
    decreases |draws|
  {
    hide Pool, Weights, Low;
    if draws != [] {
      AllDrawsAreLow(sessions, draws[..|draws| - 1], percent);
    }
  }
}
