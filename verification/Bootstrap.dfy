// Block-bootstrap confidence intervals over whole sessions, for one arm and for paired
// arms resampled with the same draws.
module Bootstrap {
  import opened Basics
  import opened Modular
  import opened Sorting
  import opened WeightedKth

  // math.ceil(num / den * n), one-indexed, at least 1.
  function NearestRank(num: nat, den: nat, n: nat): (rank: nat)
    requires den > 0
  {
    Max(1, (num * n + den - 1) / den)
  }

  lemma NearestRankInRange(num: nat, den: nat, n: nat)
    requires 0 < num <= den && n > 0
    ensures 1 <= NearestRank(num, den, n) <= n
  {
    var x := num * n + den - 1;
    MulMonotone(num, den, n);
    if x / den > n {
      assert x >= (n + 1) * den by {
        MulMonotone(n + 1, x / den, den);
      }
    }
  }

  // v is the num/den percentile: at least that share of the values is at most v, and
  // less than that share is below it.
  predicate IsPercentile(values: seq<int>, num: nat, den: nat, v: int) {
    den * CountAtMost(values, v) >= num * |values| > den * CountAtMost(values, v - 1)
  }

  // The rank is the least one that covers the share.
  lemma RankIsLeast(num: nat, den: nat, n: nat)
    requires 0 < num <= den && n > 0
    ensures den * NearestRank(num, den, n) >= num * n > den * (NearestRank(num, den, n) - 1)
  {
    var x := num * n + den - 1;
    assert num * n >= 1;
    assert x == den * (x / den) + x % den;
    if x / den < 1 {
      MulMonotone(x / den, 0, den);
    }
    assert den * (x / den - 1) == den * (x / den) - den;
  }

  // The value of that rank is the percentile, and the only one.
  lemma PercentileIsRank(values: seq<int>, num: nat, den: nat, v: int)
    requires 0 < num <= den && values != []
    ensures IsPercentile(values, num, den, v) <==> IsKth(values, NearestRank(num, den, |values|), v)
  {
    hide CountAtMost, NearestRank;
    RankIsLeast(num, den, |values|);
    Covers(CountAtMost(values, v), NearestRank(num, den, |values|), num * |values|, den);
    Covers(CountAtMost(values, v - 1), NearestRank(num, den, |values|), num * |values|, den);
  }

  lemma Covers(count: int, rank: int, share: int, den: nat)
    requires den * rank >= share > den * (rank - 1)
    ensures den * count >= share <==> count >= rank
  {
    if count >= rank {
      MulMonotone(rank, count, den);
    } else {
      MulMonotone(count, rank - 1, den);
    }
  }

  // percentile(sorted_values, num / den)
  function Percentile<T>(sorted: seq<T>, num: nat, den: nat): T
    requires sorted != [] && 0 < num <= den
  {
    NearestRankInRange(num, den, |sorted|);
    sorted[NearestRank(num, den, |sorted|) - 1]
  }

  function Sum(s: seq<nat>): nat {
    if s == [] then 0 else Sum(s[..|s| - 1]) + s[|s| - 1]
  }

  lemma {:induction false} SumUpdate(s: seq<nat>, i: nat)
    requires i < |s|
    ensures Sum(s[i := s[i] + 1]) == Sum(s) + 1
    decreases |s|
  {
    var n := |s| - 1;
    if i < n {
      SumUpdate(s[..n], i);
      assert s[i := s[i] + 1][..n] == s[..n][i := s[i] + 1];
    } else {
      assert s[i := s[i] + 1][..n] == s[..n];
    }
  }

  lemma {:induction false} SumOfZeros(n: nat)
    ensures Sum(seq(n, _ => 0)) == 0
    decreases n
  {
    if n > 0 {
      SumOfZeros(n - 1);
      var zeros: seq<nat> := seq(n, _ => 0);
      assert zeros[..n - 1] == seq(n - 1, _ => 0);
    }
  }

  // How often each session is drawn; draws stands for the random choices.
  function Weights(count: nat, draws: seq<nat>): (weights: seq<nat>)
    ensures |weights| == count && forall j :: 0 <= j < count ==> weights[j] == multiset(draws)[j]
  {
    seq(count, j requires 0 <= j < count => multiset(draws)[j])
  }

  method Draw(count: nat, draws: seq<nat>) returns (weights: seq<nat>)
    requires forall i :: 0 <= i < |draws| ==> draws[i] < count
    ensures weights == Weights(count, draws) && Sum(weights) == |draws|
    ensures draws != [] ==> exists i :: 0 <= i < count && weights[i] > 0
  {
    weights := seq(count, _ => 0);
    SumOfZeros(count);
    for i := 0 to |draws|
      invariant weights == Weights(count, draws[..i]) && Sum(weights) == i
    {
      SumUpdate(weights, draws[i]);
      assert draws[..i + 1] == draws[..i] + [draws[i]];
      weights := weights[draws[i] := weights[draws[i]] + 1];
    }
    assert draws[..|draws|] == draws;
    if draws != [] {
      assert weights[draws[0]] > 0;
    }
  }

  // Sorted sessions of one common length, as load_raw admits them.
  ghost predicate Campaign(sessions: seq<seq<int>>, calls: nat) {
    && sessions != [] && calls > 0
    && forall i :: 0 <= i < |sessions| ==> |sessions[i]| == calls && Sorted(sessions[i], Less)
  }

  lemma {:induction false} RepeatLength(s: seq<int>, times: nat)
    ensures |Repeat(s, times)| == times * |s|
    decreases times
  {
    if times > 0 {
      RepeatLength(s, times - 1);
      assert times * |s| == (times - 1) * |s| + |s|;
    }
  }

  lemma {:induction false} PoolLength(sessions: seq<seq<int>>, weights: seq<nat>, calls: nat)
    requires |sessions| == |weights| && forall i :: 0 <= i < |sessions| ==> |sessions[i]| == calls
    ensures |Pool(sessions, weights)| == Sum(weights) * calls
    decreases |sessions|
  {
    hide Repeat;
    if sessions != [] {
      var n := |sessions| - 1;
      PoolLength(sessions[..n], weights[..n], calls);
      RepeatLength(sessions[n], weights[n]);
      assert Sum(weights) * calls == Sum(weights[..n]) * calls + weights[n] * calls;
    }
  }

  // The pool of a draw has as many values as the campaign, so a rank computed for the
  // campaign is in range.
  lemma DrawnPoolIsFull(sessions: seq<seq<int>>, weights: seq<nat>, calls: nat, num: nat, den: nat)
    requires Campaign(sessions, calls) && |weights| == |sessions| && Sum(weights) == |sessions|
    requires 0 < num <= den
    ensures var rank := NearestRank(num, den, |sessions| * calls);
      && |Pool(sessions, weights)| == |sessions| * calls
      && Clamped(rank, |Pool(sessions, weights)|) == rank
  {
    PoolLength(sessions, weights, calls);
    assert |sessions| * calls > 0;
    NearestRankInRange(num, den, |sessions| * calls);
  }

  // The draws of a bootstrap: at least one, each of as many sessions as there are.
  predicate Draws(draws: seq<seq<nat>>, count: nat) {
    && draws != []
    && forall i :: 0 <= i < |draws| ==> |draws[i]| == count && forall k :: 0 <= k < count ==> draws[i][k] < count
  }

  // A percentile of a list is the element of that rank in it.
  lemma PercentileIsKth(values: seq<int>, sorted: seq<int>, num: nat, den: nat)
    requires Sorted(sorted, Less) && multiset(sorted) == multiset(values) && values != [] && 0 < num <= den
    ensures |sorted| == |values|
    ensures IsPercentile(values, num, den, Percentile(sorted, num, den))
  {
    assert |multiset(sorted)| == |multiset(values)|;
    NearestRankInRange(num, den, |sorted|);
    SortedKth(values, sorted, NearestRank(num, den, |sorted|), Percentile(sorted, num, den));
    PercentileIsRank(values, num, den, Percentile(sorted, num, den));
  }

  lemma PercentilesRise(values: seq<int>, a: nat, b: nat, den: nat, x: int, y: int)
    requires a <= b && IsPercentile(values, a, den, x) && IsPercentile(values, b, den, y)
    ensures x <= y
  {
    hide CountAtMost;
    if y < x {
      CountMonotone(values, y, x - 1);
      MulMonotone(CountAtMost(values, y), CountAtMost(values, x - 1), den);
      MulMonotone(a, b, |values|);
    }
  }

  lemma RanksOrdered(n: nat)
    ensures NearestRank(25, 1000, n) <= NearestRank(975, 1000, n)
  {
  }

  // The resampled values, one for each draw: the exact percentile of the pool in which each
  // session appears as often as it was drawn.
  ghost predicate Resampled(
      sessions: seq<seq<int>>, draws: seq<seq<nat>>, num: nat, den: nat, values: seq<int>)
  {
    && |values| == |draws|
    && forall r :: 0 <= r < |values| ==>
         IsPercentile(Pool(sessions, Weights(|sessions|, draws[r])), num, den, values[r])
  }

  // The interval between the 2.5th and the 97.5th percentile of some values.
  ghost predicate Interval95(values: seq<int>, lower: int, upper: int) {
    lower <= upper && IsPercentile(values, 25, 1000, lower) && IsPercentile(values, 975, 1000, upper)
  }

  method IntervalOf(values: seq<int>) returns (lower: int, upper: int)
    requires values != []
    ensures Interval95(values, lower, upper)
  {
    hide IsPercentile, NearestRank, Sort;
    var sorted := Sort(values, Less);
    SortPermutes(values, Less);
    SortSorts(values, Less);
    PercentileIsKth(values, sorted, 25, 1000);
    PercentileIsKth(values, sorted, 975, 1000);
    lower, upper := Percentile(sorted, 25, 1000), Percentile(sorted, 975, 1000);
    PercentilesRise(values, 25, 975, 1000, lower, upper);
  }

  // The percentile of one resample.
  method Resample(sessions: seq<seq<int>>, calls: nat, num: nat, den: nat, weights: seq<nat>) returns (value: int)
    requires Campaign(sessions, calls) && 0 < num <= den
    requires |weights| == |sessions| == Sum(weights) && exists i :: 0 <= i < |weights| && weights[i] > 0
    ensures IsPercentile(Pool(sessions, weights), num, den, value)
  {
    hide NearestRank, CountAtMost, Pool;
    DrawnPoolIsFull(sessions, weights, calls, num, den);
    value := KthSmallest(sessions, weights, NearestRank(num, den, |sessions| * calls));
    PercentileIsRank(Pool(sessions, weights), num, den, value);
  }

  // block_bootstrap_ci
  method BlockBootstrapCi(sessions: seq<seq<int>>, calls: nat, num: nat, den: nat, draws: seq<seq<nat>>)
    returns (lower: int, upper: int)
    requires Campaign(sessions, calls) && Draws(draws, |sessions|) && 0 < num <= den
    ensures exists samples ::
              Resampled(sessions, draws, num, den, samples)
              && Interval95(samples, lower, upper)
  {
    hide Pool, IsPercentile, Sum, Interval95;
    var values: seq<int> := [];
    for r := 0 to |draws|
      invariant Resampled(sessions, draws[..r], num, den, values)
    {
      var weights := Draw(|sessions|, draws[r]);
      var value := Resample(sessions, calls, num, den, weights);
      values := values + [value];
    }
    assert draws[..|draws|] == draws;
    lower, upper := IntervalOf(values);
  }

  // How many ratios are at most v, or with strict set, below it.
  function CountRatios(ratios: seq<real>, v: real, strict: bool): (n: nat)
    ensures n <= |ratios|
  {
    if ratios == [] then 0
    else
      var last := ratios[|ratios| - 1];
      CountRatios(ratios[..|ratios| - 1], v, strict) + if last < v || (last == v && !strict) then 1 else 0
  }

  // v is the num/den percentile of the ratios, as of integers.
  ghost predicate IsRatioPercentile(ratios: seq<real>, num: nat, den: nat, v: real) {
    den * CountRatios(ratios, v, false) >= num * |ratios| > den * CountRatios(ratios, v, true)
  }

  ghost predicate RatioInterval95(ratios: seq<real>, lower: real, upper: real) {
    lower <= upper && IsRatioPercentile(ratios, 25, 1000, lower) && IsRatioPercentile(ratios, 975, 1000, upper)
  }

  method RatioIntervalOf(ratios: seq<real>) returns (lower: real, upper: real)
    requires ratios != []
    ensures RatioInterval95(ratios, lower, upper)
  {
    hide Sort, Sorted, NearestRank, IsRatioPercentile, Percentile;
    var sorted := Sort(ratios, LessReal);
    SortPermutes(ratios, LessReal);
    SortSorts(ratios, LessReal);
    lower, upper := Percentile(sorted, 25, 1000), Percentile(sorted, 975, 1000);
    PercentileIsKthRatio(ratios, sorted, 25);
    PercentileIsKthRatio(ratios, sorted, 975);
    PercentilesOrdered(sorted);
  }

  lemma {:induction false} CountRatiosWithout(s: seq<real>, i: nat, v: real, strict: bool)
    requires i < |s|
    ensures CountRatios(s, v, strict) ==
            CountRatios(Removed(s, i), v, strict) + if s[i] < v || (s[i] == v && !strict) then 1 else 0
    decreases |s|
  {
    var n := |s| - 1;
    if i < n {
      CountRatiosWithout(s[..n], i, v, strict);
      assert Removed(s, i)[..n - 1] == Removed(s[..n], i);
    } else {
      assert Removed(s, i) == s[..n];
    }
  }

  lemma {:induction false} CountRatiosPermutes(a: seq<real>, b: seq<real>, v: real, strict: bool)
    requires multiset(a) == multiset(b)
    ensures CountRatios(a, v, strict) == CountRatios(b, v, strict)
    decreases |a|
  {
    hide CountRatios, Removed;
    assert |a| == |multiset(a)| == |multiset(b)| == |b|;
    if a == [] {
      assert b == [];
    } else {
      assert a[0] in multiset(b);
      var i :| 0 <= i < |b| && b[i] == a[0];
      SameRest(a, 0, b, i);
      CountRatiosPermutes(Removed(a, 0), Removed(b, i), v, strict);
      CountRatiosWithout(a, 0, v, strict);
      CountRatiosWithout(b, i, v, strict);
    }
  }

  // In a sorted list the elements up to position k are at most a later one, and only
  // earlier ones are below it.
  lemma {:induction false} CountRatiosAround(s: seq<real>, k: nat, v: real)
    requires k <= |s|
    ensures (forall i :: 0 <= i < k ==> s[i] <= v) ==> CountRatios(s, v, false) >= k
    ensures (forall i :: k <= i < |s| ==> s[i] >= v) ==> CountRatios(s, v, true) <= k
    decreases |s|
  {
    if s != [] {
      CountRatiosAround(s[..|s| - 1], Min(k, |s| - 1), v);
    }
  }

  lemma PercentileIsKthRatio(ratios: seq<real>, sorted: seq<real>, num: nat)
    requires Sorted(sorted, LessReal) && multiset(sorted) == multiset(ratios) && |sorted| == |ratios| > 0
    requires 0 < num <= 1000
    ensures IsRatioPercentile(ratios, num, 1000, Percentile(sorted, num, 1000))
  {
    hide NearestRank, CountRatios;
    NearestRankInRange(num, 1000, |sorted|);
    RankIsLeast(num, 1000, |sorted|);
    var rank, v := NearestRank(num, 1000, |sorted|), Percentile(sorted, num, 1000);
    forall i | 0 <= i < |sorted|
      ensures i < rank - 1 ==> !LessReal(v, sorted[i])
      ensures i > rank - 1 ==> !LessReal(sorted[i], v)
    {
    }
    CountRatiosAround(sorted, rank, v);
    CountRatiosAround(sorted, rank - 1, v);
    CountRatiosPermutes(sorted, ratios, v, false);
    CountRatiosPermutes(sorted, ratios, v, true);
  }

  lemma PercentilesOrdered(sorted: seq<real>)
    requires Sorted(sorted, LessReal) && sorted != []
    ensures Percentile(sorted, 25, 1000) <= Percentile(sorted, 975, 1000)
  {
    hide NearestRank;
    RanksOrdered(|sorted|);
    NearestRankInRange(25, 1000, |sorted|);
    NearestRankInRange(975, 1000, |sorted|);
    var i, j := NearestRank(25, 1000, |sorted|) - 1, NearestRank(975, 1000, |sorted|) - 1;
    assert i < j ==> !LessReal(sorted[j], sorted[i]);
  }

  // The values of a paired bootstrap: both arms are resampled with the same draw.
  datatype Resamples = Resamples(rust: seq<int>, bun: seq<int>, ratios: seq<real>, deltas: seq<int>)

  ghost predicate PairedValues(
      rust: seq<seq<int>>, bun: seq<seq<int>>, draws: seq<seq<nat>>, num: nat, den: nat, v: Resamples)
  {
    && Resampled(rust, draws, num, den, v.rust) && Resampled(bun, draws, num, den, v.bun)
    && |v.deltas| == |v.ratios| == |draws|
    && forall r :: 0 <= r < |draws| ==>
         v.rust[r] > 0 && v.deltas[r] == v.bun[r] - v.rust[r] && v.ratios[r] == v.bun[r] as real / v.rust[r] as real
  }

  // Both intervals of one comparison.
  datatype Estimate = Estimate(ratioLower: real, ratioUpper: real, deltaLower: int, deltaUpper: int)

  ghost predicate Estimates(e: Estimate, v: Resamples) {
    RatioInterval95(v.ratios, e.ratioLower, e.ratioUpper) && Interval95(v.deltas, e.deltaLower, e.deltaUpper)
  }

  // paired_bootstrap. None when the arms cannot be paired or some draw's Rust percentile
  // is not positive.
  method PairedBootstrap(
      rust: seq<seq<int>>, bun: seq<seq<int>>, rustCalls: nat, bunCalls: nat, num: nat, den: nat, draws: seq<seq<nat>>)
    returns (ci: Option<Estimate>)
    requires Campaign(rust, rustCalls) && Campaign(bun, bunCalls)
    requires Draws(draws, |rust|) && 0 < num <= den
    ensures ci.Some? ==> |rust| == |bun| && |rust| * rustCalls == |bun| * bunCalls
    ensures ci.Some? ==> exists v ::
              PairedValues(rust, bun, draws, num, den, v) && Estimates(ci.value, v)
    ensures ci.None? && |rust| == |bun| && |rust| * rustCalls == |bun| * bunCalls ==>
              exists r, v :: 0 <= r < |draws| && v <= 0
                && IsPercentile(Pool(rust, Weights(|rust|, draws[r])), num, den, v)
  {
    hide Pool, IsPercentile, Sum, Interval95, RatioInterval95;
    if |rust| != |bun| || |rust| * rustCalls != |bun| * bunCalls {
      return None;
    }
    ghost var rustValues: seq<int>, bunValues: seq<int> := [], [];
    var ratios: seq<real>, deltas: seq<int> := [], [];
    for r := 0 to |draws|
      invariant PairedValues(rust, bun, draws[..r], num, den, Resamples(rustValues, bunValues, ratios, deltas))
    {
      var weights := Draw(|rust|, draws[r]);
      var rustValue := Resample(rust, rustCalls, num, den, weights);
      var bunValue := Resample(bun, bunCalls, num, den, weights);
      if rustValue <= 0 {
        return None;
      }
      ratios := ratios + [bunValue as real / rustValue as real];
      deltas := deltas + [bunValue - rustValue];
      rustValues, bunValues := rustValues + [rustValue], bunValues + [bunValue];
    }
    assert draws[..|draws|] == draws;
    var ratioLower, ratioUpper := RatioIntervalOf(ratios);
    var deltaLower, deltaUpper := IntervalOf(deltas);
    ci := Some(Estimate(ratioLower, ratioUpper, deltaLower, deltaUpper));
    assert Estimates(ci.value, Resamples(rustValues, bunValues, ratios, deltas));
  }

  // Rounds in which Bun is never faster than Rust give no draw a chance to say
  // otherwise: the whole delta interval is non-negative, the whole ratio interval at
  // least 1.
  lemma DominatedNeverLooksFaster(
      rust: seq<seq<int>>, bun: seq<seq<int>>, draws: seq<seq<nat>>, num: nat, den: nat, v: Resamples, e: Estimate)
    ensures Dominated(rust, bun) && PairedValues(rust, bun, draws, num, den, v) && Estimates(e, v) ==>
              0 <= e.deltaLower <= e.deltaUpper && 1.0 <= e.ratioLower <= e.ratioUpper
  {
    hide Pool, CountAtMost, CountRatios;
    if Dominated(rust, bun) && PairedValues(rust, bun, draws, num, den, v) && Estimates(e, v) {
      NeverLooksFaster(rust, bun, draws, num, den, v);
      PercentileIsElement(v.deltas, 25, 1000, e.deltaLower);
      RatioIsElement(v.ratios, e.ratioLower);
    }
  }

  lemma PercentileIsElement(values: seq<int>, num: nat, den: nat, v: int)
    requires IsPercentile(values, num, den, v)
    ensures v in values
  {
    hide CountAtMost;
    if CountAtMost(values, v) <= CountAtMost(values, v - 1) {
      MulMonotone(CountAtMost(values, v), CountAtMost(values, v - 1), den);
    }
    KthIsElement(values, CountAtMost(values, v), v);
  }

  lemma {:induction false} PoolsAreAlike(a: seq<seq<int>>, b: seq<seq<int>>, weights: seq<nat>)
    requires Dominated(a, b) && |a| == |weights|
    ensures |Pool(a, weights)| == |Pool(b, weights)|
    decreases |a|
  {
    hide Repeat;
    if a != [] {
      var n := |a| - 1;
      PoolsAreAlike(a[..n], b[..n], weights[..n]);
      RepeatLength(a[n], weights[n]);
      RepeatLength(b[n], weights[n]);
    }
  }

  lemma NeverLooksFaster(
      rust: seq<seq<int>>, bun: seq<seq<int>>, draws: seq<seq<nat>>, num: nat, den: nat, v: Resamples)
    requires Dominated(rust, bun) && PairedValues(rust, bun, draws, num, den, v)
    ensures forall r :: 0 <= r < |v.deltas| ==> v.deltas[r] >= 0 && v.ratios[r] >= 1.0
  {
    hide Pool, CountAtMost;
    forall r | 0 <= r < |v.deltas|
      ensures v.deltas[r] >= 0 && v.ratios[r] >= 1.0
    {
      PercentileIsMonotone(rust, bun, Weights(|rust|, draws[r]), num, den, v.rust[r], v.bun[r]);
      QuotientAtLeastOne(v.bun[r] as real, v.rust[r] as real);
    }
  }

  lemma PercentileIsMonotone(
      a: seq<seq<int>>, b: seq<seq<int>>, weights: seq<nat>, num: nat, den: nat, x: int, y: int)
    requires Dominated(a, b) && |a| == |weights|
    requires IsPercentile(Pool(a, weights), num, den, x) && IsPercentile(Pool(b, weights), num, den, y)
    ensures x <= y
  {
    hide Pool, CountAtMost;
    PoolsAreAlike(a, b, weights);
    if y < x {
      var below, upTo := CountAtMost(Pool(a, weights), x - 1), CountAtMost(Pool(b, weights), y);
      CountPool(a, weights, y);
      CountPool(b, weights, y);
      WeightedCountDominated(a, b, weights, y);
      CountMonotone(Pool(a, weights), y, x - 1);
      MulMonotone(upTo, below, den);
    }
  }

  lemma QuotientAtLeastOne(x: real, y: real)
    requires x >= y > 0.0
    ensures x / y >= 1.0
  {
  }

  lemma RatioIsElement(ratios: seq<real>, v: real)
    requires IsRatioPercentile(ratios, 25, 1000, v)
    ensures v in ratios
  {
    CountRatiosGains(ratios, v);
  }

  lemma {:induction false} CountRatiosGains(ratios: seq<real>, v: real)
    ensures v !in ratios ==> CountRatios(ratios, v, false) == CountRatios(ratios, v, true)
    decreases |ratios|
  {
    if ratios != [] {
      CountRatiosGains(ratios[..|ratios| - 1], v);
    }
  }

  // With every session drawn once, the bisection is the nearest-rank percentile of the
  // pooled measurements: point estimate and bootstrap use the same statistic.
  lemma UnitWeightsArePooled(sessions: seq<seq<int>>, pooled: seq<int>, num: nat, den: nat, v: int)
    requires var ones := seq(|sessions|, _ => 1);
      Sorted(pooled, Less) && multiset(pooled) == multiset(Pool(sessions, ones)) && pooled != []
      && 0 < num <= den && IsPercentile(Pool(sessions, ones), num, den, v)
    ensures v == Percentile(pooled, num, den)
  {
    var ones := seq(|sessions|, _ => 1);
    NearestRankInRange(num, den, |pooled|);
    assert |multiset(pooled)| == |Pool(sessions, ones)|;
    PercentileIsRank(Pool(sessions, ones), num, den, v);
    SortedKth(Pool(sessions, ones), pooled, NearestRank(num, den, |pooled|), v);
  }
}
