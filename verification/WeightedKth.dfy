// Order statistics of resampled measurement sessions: the k-th smallest value of a pool
// in which each session appears as often as it was drawn, found by bisecting over values
// without building the pool.
module WeightedKth {
  import opened Basics
  import opened Modular
  import opened Sorting

  // How many elements are at most v.
  function CountAtMost(s: seq<int>, v: int): (n: nat)
    ensures n <= |s|
  {
    if s == [] then 0
    else CountAtMost(s[..|s| - 1], v) + if s[|s| - 1] <= v then 1 else 0
  }

  lemma {:induction false} CountConcat(a: seq<int>, b: seq<int>, v: int)
    ensures CountAtMost(a + b, v) == CountAtMost(a, v) + CountAtMost(b, v)
    decreases |b|
  {
    if b == [] {
      assert a + b == a;
    } else {
      assert (a + b)[..|a + b| - 1] == a + b[..|b| - 1];
      CountConcat(a, b[..|b| - 1], v);
    }
  }

  // In a sorted list the elements at most v are a prefix.
  lemma {:induction false} CountIsPosition(s: seq<int>, v: int, k: nat)
    requires k <= |s|
    requires forall i :: 0 <= i < k ==> s[i] <= v
    requires forall i :: k <= i < |s| ==> s[i] > v
    ensures CountAtMost(s, v) == k
    decreases |s|
  {
    if s != [] {
      CountIsPosition(s[..|s| - 1], v, Min(k, |s| - 1));
    }
  }

  // bisect.bisect_right
  method BisectRight(a: seq<int>, x: int) returns (lo: nat)
    requires Sorted(a, Less)
    ensures lo == CountAtMost(a, x)
  {
    lo := 0;
    var hi := |a|;
    while lo < hi
      invariant lo <= hi <= |a|
      invariant forall i :: 0 <= i < lo ==> a[i] <= x
      invariant forall i :: hi <= i < |a| ==> a[i] > x
    {
      var mid := (lo + hi) / 2;
      if x < a[mid] {
        hi := mid;
      } else {
        lo := mid + 1;
      }
    }
    CountIsPosition(a, x, lo);
  }

  // ---- the resampled pool ----

  function Repeat(s: seq<int>, times: nat): seq<int> {
    if times == 0 then [] else Repeat(s, times - 1) + s
  }

  // Every session's values, as many times as its weight.
  function Pool(sessions: seq<seq<int>>, weights: seq<nat>): seq<int>
    requires |sessions| == |weights|
  {
    if sessions == [] then []
    else
      var n := |sessions| - 1;
      Pool(sessions[..n], weights[..n]) + Repeat(sessions[n], weights[n])
  }

  function WeightedCount(sessions: seq<seq<int>>, weights: seq<nat>, v: int): nat
    requires |sessions| == |weights|
  {
    if sessions == [] then 0
    else
      var n := |sessions| - 1;
      WeightedCount(sessions[..n], weights[..n], v) + weights[n] * CountAtMost(sessions[n], v)
  }

  lemma {:induction false} CountRepeat(s: seq<int>, times: nat, v: int)
    ensures CountAtMost(Repeat(s, times), v) == times * CountAtMost(s, v)
    decreases times
  {
    if times > 0 {
      CountRepeat(s, times - 1, v);
      CountConcat(Repeat(s, times - 1), s, v);
      assert times * CountAtMost(s, v) == (times - 1) * CountAtMost(s, v) + CountAtMost(s, v);
    }
  }

  lemma {:induction false} CountPool(sessions: seq<seq<int>>, weights: seq<nat>, v: int)
    requires |sessions| == |weights|
    ensures WeightedCount(sessions, weights, v) == CountAtMost(Pool(sessions, weights), v)
    decreases |sessions|
  {
    hide CountAtMost, Repeat;
    if sessions != [] {
      var n := |sessions| - 1;
      CountPool(sessions[..n], weights[..n], v);
      CountRepeat(sessions[n], weights[n], v);
      CountConcat(Pool(sessions[..n], weights[..n]), Repeat(sessions[n], weights[n]), v);
    } else {
      NothingCounts(v);
    }
  }

  lemma NothingCounts(v: int)
    ensures CountAtMost([], v) == 0
  {
  }

  // v is the rank-th smallest element.
  predicate IsKth(pool: seq<int>, rank: int, v: int) {
    CountAtMost(pool, v) >= rank > CountAtMost(pool, v - 1)
  }

  lemma {:induction false} CountMonotone(s: seq<int>, v: int, w: int)
    requires v <= w
    ensures CountAtMost(s, v) <= CountAtMost(s, w)
    decreases |s|
  {
    if s != [] {
      CountMonotone(s[..|s| - 1], v, w);
    }
  }

  lemma KthIsUnique(pool: seq<int>, rank: int, v: int, w: int)
    requires IsKth(pool, rank, v) && IsKth(pool, rank, w)
    ensures v == w
  {
    if v < w {
      CountMonotone(pool, v, w - 1);
    } else if w < v {
      CountMonotone(pool, w, v - 1);
    }
  }

  lemma CountOne(x: int, v: int)
    ensures CountAtMost([x], v) == if x <= v then 1 else 0
  {
    assert [x][..0] == [];
  }

  lemma CountWithout(s: seq<int>, i: nat, v: int)
    requires i < |s|
    ensures multiset(s[..i] + s[i + 1..]) == multiset(s) - multiset{s[i]}
    ensures CountAtMost(s, v) == CountAtMost(s[..i] + s[i + 1..], v) + if s[i] <= v then 1 else 0
  {
    hide CountAtMost;
    var head, tail, one := s[..i], s[i + 1..], [s[i]];
    assert s == head + one + tail;
    CountOne(s[i], v);
    CountConcat(head, tail, v);
    CountConcat(head + one, tail, v);
    CountConcat(head, one, v);
  }

  lemma {:induction false} CountOfPermutation(a: seq<int>, b: seq<int>, v: int)
    requires multiset(a) == multiset(b)
    ensures CountAtMost(a, v) == CountAtMost(b, v)
    decreases |a|
  {
    hide CountAtMost;
    if a == [] {
      assert |multiset(b)| == 0;
    } else {
      assert a[0] in multiset(b);
      var i :| 0 <= i < |b| && b[i] == a[0];
      CountWithout(a, 0, v);
      CountWithout(b, i, v);
      CountOfPermutation(a[..0] + a[1..], b[..i] + b[i + 1..], v);
    }
  }

  // The rank-th smallest of a pool is the element at index rank - 1 of the sorted pool.
  lemma SortedKth(pool: seq<int>, sorted: seq<int>, rank: int, v: int)
    requires Sorted(sorted, Less) && multiset(sorted) == multiset(pool)
    requires 1 <= rank <= |sorted|
    ensures IsKth(pool, rank, v) <==> sorted[rank - 1] == v
  {
    var x := sorted[rank - 1];
    CountOfPermutation(sorted, pool, x);
    CountOfPermutation(sorted, pool, x - 1);
    CountAround(sorted, rank - 1);
    if IsKth(pool, rank, v) {
      KthIsUnique(pool, rank, v, x);
    }
  }

  lemma CountAround(sorted: seq<int>, i: nat)
    requires Sorted(sorted, Less) && i < |sorted|
    ensures CountAtMost(sorted, sorted[i]) > i >= CountAtMost(sorted, sorted[i] - 1)
  {
    hide CountAtMost;
    var head, tail := sorted[..i + 1], sorted[i..];
    assert sorted == head + sorted[i + 1..] && sorted == sorted[..i] + tail;
    CountConcat(head, sorted[i + 1..], sorted[i]);
    CountIsPosition(head, sorted[i], i + 1);
    CountConcat(sorted[..i], tail, sorted[i] - 1);
    CountIsPosition(tail, sorted[i] - 1, 0);
  }

  // ---- the bisection ----

  // What the campaigns pass: sorted, non-empty sessions, some of them drawn.
  ghost predicate Samples(sessions: seq<seq<int>>, weights: seq<nat>) {
    && |sessions| == |weights|
    && (forall i :: 0 <= i < |sessions| ==> sessions[i] != [] && Sorted(sessions[i], Less))
    && exists i :: 0 <= i < |weights| && weights[i] > 0
  }

  lemma {:induction false} InPool(sessions: seq<seq<int>>, weights: seq<nat>, x: int)
    requires |sessions| == |weights|
    ensures x in Pool(sessions, weights) <==>
            exists i :: 0 <= i < |sessions| && weights[i] > 0 && x in sessions[i]
    decreases |sessions|
  {
    hide Repeat;
    if sessions != [] {
      var n := |sessions| - 1;
      InPool(sessions[..n], weights[..n], x);
      InRepeat(sessions[n], weights[n], x);
      assert forall i :: 0 <= i < n ==> sessions[..n][i] == sessions[i] && weights[..n][i] == weights[i];
    }
  }

  lemma {:induction false} InRepeat(s: seq<int>, times: nat, x: int)
    ensures x in Repeat(s, times) <==> times > 0 && x in s
    decreases times
  {
    if times > 0 {
      InRepeat(s, times - 1, x);
    }
  }

  lemma CountOfAll(pool: seq<int>, v: int)
    requires forall x :: x in pool ==> x <= v
    ensures CountAtMost(pool, v) == |pool|
  {
    assert forall i :: 0 <= i < |pool| ==> pool[i] in pool;
    CountIsPosition(pool, v, |pool|);
  }

  lemma CountOfNone(pool: seq<int>, v: int)
    requires forall x :: x in pool ==> x > v
    ensures CountAtMost(pool, v) == 0
  {
    assert forall i :: 0 <= i < |pool| ==> pool[i] in pool;
    CountIsPosition(pool, v, 0);
  }

  lemma {:induction false} CountOfSome(pool: seq<int>, x: int, v: int)
    requires x in pool
    ensures x <= v ==> CountAtMost(pool, v) > 0
    ensures x > v ==> CountAtMost(pool, v) < |pool|
    decreases |pool|
  {
    if pool[|pool| - 1] != x {
      assert pool == pool[..|pool| - 1] + [pool[|pool| - 1]];
      CountOfSome(pool[..|pool| - 1], x, v);
    }
  }

  // The smallest and largest value any drawn session contributes.
  method Ends(sessions: seq<seq<int>>, weights: seq<nat>) returns (lo: int, hi: int)
    requires Samples(sessions, weights)
    ensures lo in Pool(sessions, weights) && hi in Pool(sessions, weights)
    ensures forall x :: x in Pool(sessions, weights) ==> lo <= x <= hi
  {
    hide Pool;
    var first :| 0 <= first < |weights| && weights[first] > 0;
    lo, hi := sessions[first][0], sessions[first][|sessions[first]| - 1];
    InPool(sessions, weights, lo);
    InPool(sessions, weights, hi);
    for i := 0 to |sessions|
      invariant lo in Pool(sessions, weights) && hi in Pool(sessions, weights)
      invariant forall j, x :: 0 <= j < i && weights[j] > 0 && x in sessions[j] ==> lo <= x <= hi
    {
      if weights[i] > 0 {
        var values := sessions[i];
        InPool(sessions, weights, values[0]);
        InPool(sessions, weights, values[|values| - 1]);
        lo, hi := Min(lo, values[0]), Max(hi, values[|values| - 1]);
      }
    }
    forall x | x in Pool(sessions, weights)
      ensures lo <= x <= hi
    {
      InPool(sessions, weights, x);
    }
  }

  method CountUpTo(sessions: seq<seq<int>>, weights: seq<nat>, v: int) returns (count: nat)
    requires Samples(sessions, weights)
    ensures count == CountAtMost(Pool(sessions, weights), v)
  {
    hide CountAtMost, Pool;
    count := 0;
    WholeSlices(sessions, weights);
    for i := 0 to |sessions|
      invariant count == WeightedCount(sessions[..i], weights[..i], v)
    {
      assert sessions[..i + 1][..i] == sessions[..i] && weights[..i + 1][..i] == weights[..i];
      if weights[i] > 0 {
        var position := BisectRight(sessions[i], v);
        count := count + weights[i] * position;
      }
    }
    CountPool(sessions, weights, v);
  }

  lemma WholeSlices(sessions: seq<seq<int>>, weights: seq<nat>)
    ensures sessions[..|sessions|] == sessions && weights[..|weights|] == weights
  {
  }

  function Clamped(rank: int, total: nat): int {
    if rank < 1 then 1 else if rank > total then total else rank
  }

  // weighted_kth: the rank-th smallest value of the pool, for every rank in range; out of
  // range it returns the smallest or the largest value.
  method KthSmallest(sessions: seq<seq<int>>, weights: seq<nat>, rank: int) returns (lo: int)
    requires Samples(sessions, weights)
    ensures var pool := Pool(sessions, weights);
      && lo in pool && IsKth(pool, Clamped(rank, |pool|), lo)
      && (1 <= rank <= |pool| ==> IsKth(pool, rank, lo))
      && (rank < 1 ==> forall x :: x in pool ==> lo <= x)
      && (rank > |pool| ==> forall x :: x in pool ==> x <= lo)
  {
    hide Pool, CountAtMost;
    ghost var pool := Pool(sessions, weights);
    var hi;
    lo, hi := Ends(sessions, weights);
    ghost var low, high, target := lo, hi, Clamped(rank, |pool|);
    CountOfAll(pool, hi);
    CountOfNone(pool, lo - 1);
    CountOfSome(pool, lo, lo);
    while lo < hi
      invariant low <= lo <= hi <= high
      invariant CountAtMost(pool, hi) >= target > CountAtMost(pool, lo - 1)
    {
      var mid := (lo + hi) / 2;
      var count := CountUpTo(sessions, weights, mid);
      CountOfSome(pool, low, mid);
      CountOfSome(pool, high, mid);
      if count >= rank {
        hi := mid;
      } else {
        lo := mid + 1;
      }
    }
    KthIsElement(pool, target, lo);
    ClampedIsEnd(pool, rank, lo);
  }

  lemma ClampedIsEnd(pool: seq<int>, rank: int, v: int)
    requires IsKth(pool, Clamped(rank, |pool|), v) && pool != []
    ensures rank < 1 ==> forall x :: x in pool ==> v <= x
    ensures rank > |pool| ==> forall x :: x in pool ==> x <= v
  {
    hide CountAtMost;
    forall x | x in pool
      ensures rank < 1 ==> v <= x
      ensures rank > |pool| ==> x <= v
    {
      CountOfSome(pool, x, v);
      CountOfSome(pool, x, v - 1);
    }
  }

  lemma {:induction false} CountGains(pool: seq<int>, v: int)
    ensures CountAtMost(pool, v) > CountAtMost(pool, v - 1) ==> v in pool
    decreases |pool|
  {
    if pool != [] {
      CountGains(pool[..|pool| - 1], v);
    }
  }

  lemma KthIsElement(pool: seq<int>, rank: int, v: int)
    requires IsKth(pool, rank, v)
    ensures v in pool
  {
    CountGains(pool, v);
  }

  // ---- monotonicity ----

  // Every session of the one arm is at most the same session of the other, value by value.
  ghost predicate Dominated(a: seq<seq<int>>, b: seq<seq<int>>) {
    && |a| == |b|
    && forall i :: 0 <= i < |a| ==> |a[i]| == |b[i]| && forall k :: 0 <= k < |a[i]| ==> a[i][k] <= b[i][k]
  }

  lemma {:induction false} CountDominated(a: seq<int>, b: seq<int>, v: int)
    requires |a| == |b| && forall k :: 0 <= k < |a| ==> a[k] <= b[k]
    ensures CountAtMost(b, v) <= CountAtMost(a, v)
    decreases |a|
  {
    if a != [] {
      CountDominated(a[..|a| - 1], b[..|b| - 1], v);
    }
  }

  lemma {:induction false} WeightedCountDominated(a: seq<seq<int>>, b: seq<seq<int>>, weights: seq<nat>, v: int)
    requires Dominated(a, b) && |a| == |weights|
    ensures WeightedCount(b, weights, v) <= WeightedCount(a, weights, v)
    decreases |a|
  {
    hide CountAtMost;
    if a != [] {
      var n := |a| - 1;
      WeightedCountDominated(a[..n], b[..n], weights[..n], v);
      CountDominated(a[n], b[n], v);
      MulMonotone(CountAtMost(b[n], v), CountAtMost(a[n], v), weights[n]);
    }
  }

  // Slower sessions never give a smaller k-th value, for the same draw.
  lemma KthIsMonotone(a: seq<seq<int>>, b: seq<seq<int>>, weights: seq<nat>, rank: int, x: int, y: int)
    requires Dominated(a, b) && |a| == |weights|
    requires IsKth(Pool(a, weights), rank, x) && IsKth(Pool(b, weights), rank, y)
    ensures x <= y
  {
    hide CountAtMost, Pool;
    if y < x {
      CountPool(a, weights, y);
      CountPool(b, weights, y);
      WeightedCountDominated(a, b, weights, y);
      CountMonotone(Pool(a, weights), y, x - 1);
    }
  }
}
