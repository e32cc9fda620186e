// The sliding window that accepts a memory measurement once process membership is
// unchanged and resident sizes have stopped drifting.
module Stability {
  import opened Basics
  import opened Modular

  // membership stands for the tuple of (pid, start ticks, class); sizes are in KiB.
  datatype Snapshot = Snapshot(membership: seq<(int, int, string)>, engineProcesses: nat, mainRss: int, totalRss: int)

  function MaxOf(values: seq<int>): (m: int)
    requires values != []
    ensures m in values && forall v :: v in values ==> v <= m
  {
    assert values == [values[0]] + values[1..];
    if |values| == 1 then values[0] else Max(values[0], MaxOf(values[1..]))
  }

  function MinOf(values: seq<int>): (m: int)
    requires values != []
    ensures m in values && forall v :: v in values ==> m <= v
  {
    assert values == [values[0]] + values[1..];
    if |values| == 1 then values[0] else Min(values[0], MinOf(values[1..]))
  }

  function Mains(window: seq<Snapshot>): (r: seq<int>)
    ensures |r| == |window| && forall i :: 0 <= i < |r| ==> r[i] == window[i].mainRss
  {
    seq(|window|, i requires 0 <= i < |window| => window[i].mainRss)
  }

  function Totals(window: seq<Snapshot>): (r: seq<int>)
    ensures |r| == |window| && forall i :: 0 <= i < |r| ==> r[i] == window[i].totalRss
  {
    seq(|window|, i requires 0 <= i < |window| => window[i].totalRss)
  }

  // (max - min) / max(1, min) <= num / den.
  predicate DriftWithin(values: seq<int>, num: nat, den: nat)
    requires values != []
  {
    (MaxOf(values) - MinOf(values)) * den <= num * Max(1, MinOf(values))
  }

  // The relative spread of the values is at most the ratio; values below 1 count as 1 in
  // the denominator.
  lemma DriftIsSpread(values: seq<int>, num: nat, den: nat, lo: int, hi: int)
    requires den > 0 && lo in values && hi in values && forall v :: v in values ==> lo <= v <= hi
    ensures DriftWithin(values, num, den) <==>
            (hi - lo) as real / (if lo < 1 then 1 else lo) as real <= num as real / den as real
  {
    assert MaxOf(values) == hi && MinOf(values) == lo;
    RatiosCompare(hi - lo, if lo < 1 then 1 else lo, num, den);
  }

  lemma RatiosCompare(a: int, b: int, c: int, d: int)
    requires b > 0 && d > 0
    ensures a as real / b as real <= c as real / d as real <==> a * d <= c * b
  {
    ProductIsExact(a, d);
    ProductIsExact(c, b);
    CrossMultiply(a as real, b as real, c as real, d as real);
  }

  lemma ProductIsExact(a: int, b: int)
    ensures (a * b) as real == a as real * b as real
  {
  }

  lemma CrossMultiply(a: real, b: real, c: real, d: real)
    requires b > 0.0 && d > 0.0
    ensures a / b <= c / d <==> a * d <= c * b
  {
    var x, y := a / b, c / d;
    assert x * b == a && y * d == c;
    Scaled(x, y, b * d);
    assert x * (b * d) == a * d && y * (b * d) == c * b;
  }

  lemma Scaled(x: real, y: real, z: real)
    requires z > 0.0
    ensures x <= y <==> x * z <= y * z
  {
    if x < y {
      assert (y - x) * z > 0.0;
    } else if y < x {
      assert (x - y) * z > 0.0;
    }
  }

  predicate Steady(window: seq<Snapshot>, num: nat, den: nat)
    requires window != []
  {
    DriftWithin(Mains(window), num, den) && DriftWithin(Totals(window), num, den)
  }

  // An engine process in every snapshot, and one membership throughout.
  predicate Uniform(window: seq<Snapshot>) {
    && (forall i :: 0 <= i < |window| ==> window[i].engineProcesses > 0)
    && (forall i, j :: 0 <= i < j < |window| ==> window[i].membership == window[j].membership)
  }

  // The last n elements, or all when there are fewer. Python's s[-0:] is all of s.
  function Last(s: seq<Snapshot>, n: nat): seq<Snapshot> {
    if n == 0 || n >= |s| then s else s[|s| - n..]
  }

  function Observed(history: seq<Snapshot>, snapshot: Snapshot, required: nat, num: nat, den: nat)
    : (seq<Snapshot>, bool)
  {
    if snapshot.engineProcesses == 0 then ([], false)
    else if history != [] && snapshot.membership != history[|history| - 1].membership then ([snapshot], false)
    else
      var longer := history + [snapshot];
      if |longer| < required then (longer, false)
      else
        var window := Last(longer, required);
        if Steady(window, num, den) then (window, true) else ([snapshot], false)
  }

  class MemoryStability {
    const required: nat
    const num: nat
    const den: nat
    var history: seq<Snapshot>

    constructor (required: nat, num: nat, den: nat)
      ensures this.required == required && this.num == num && this.den == den && history == []
    {
      this.required, this.num, this.den, history := required, num, den, [];
    }

    method Observe(snapshot: Snapshot) returns (stable: bool)
      modifies this
      ensures (history, stable) == Observed(old(history), snapshot, required, num, den)
    {
      if snapshot.engineProcesses == 0 {
        history := [];
        return false;
      }
      if |history| > 0 && snapshot.membership != history[|history| - 1].membership {
        history := [snapshot];
        return false;
      }
      history := history + [snapshot];
      if |history| < required {
        return false;
      }
      history := Last(history, required);
      var mainSteady := DriftWithin(Mains(history), num, den);
      var totalSteady := DriftWithin(Totals(history), num, den);
      if !mainSteady || !totalSteady {
        history := [snapshot];
        return false;
      }
      stable := true;
    }
  }

  // ---- runs ----

  function History(observed: seq<Snapshot>, required: nat, num: nat, den: nat): seq<Snapshot> {
    if observed == [] then []
    else
      var n := |observed| - 1;
      Observed(History(observed[..n], required, num, den), observed[n], required, num, den).0
  }

  // What the last observation returned.
  function Verdict(observed: seq<Snapshot>, required: nat, num: nat, den: nat): bool
    requires observed != []
  {
    var n := |observed| - 1;
    Observed(History(observed[..n], required, num, den), observed[n], required, num, den).1
  }

  // The history is always a uniform run of the latest observations.
  lemma {:induction false} HistoryIsRecent(observed: seq<Snapshot>, required: nat, num: nat, den: nat)
    ensures var h := History(observed, required, num, den);
      && |h| <= |observed| && h == observed[|observed| - |h|..] && Uniform(h)
    decreases |observed|
  {
    hide Observed, Uniform;
    NothingIsUniform();
    if observed != [] {
      var n := |observed| - 1;
      HistoryIsRecent(observed[..n], required, num, den);
      StaysRecent(History(observed[..n], required, num, den), observed, required, num, den);
    }
  }

  lemma NothingIsUniform()
    ensures Uniform([])
  {
  }

  lemma StaysRecent(h: seq<Snapshot>, observed: seq<Snapshot>, required: nat, num: nat, den: nat)
    requires observed != [] && |h| <= |observed| - 1 && Uniform(h)
    requires h == observed[..|observed| - 1][|observed| - 1 - |h|..]
    ensures var h1 := Observed(h, observed[|observed| - 1], required, num, den).0;
      |h1| <= |observed| && h1 == observed[|observed| - |h1|..] && Uniform(h1)
  {
    hide Steady, Uniform;
    var n := |observed| - 1;
    var longer := h + [observed[n]];
    assert longer == observed[n - |h|..];
    assert [observed[n]] == observed[n..];
    NothingIsUniform();
    if observed[n].engineProcesses > 0 {
      GrowsUniformly(h, observed[n], required);
    }
  }

  lemma GrowsUniformly(h: seq<Snapshot>, snapshot: Snapshot, required: nat)
    requires Uniform(h) && snapshot.engineProcesses > 0
    ensures Uniform([snapshot])
    ensures h == [] || snapshot.membership == h[|h| - 1].membership ==> Uniform(Last(h + [snapshot], required))
  {
    var longer := h + [snapshot];
    if h == [] || snapshot.membership == h[|h| - 1].membership {
      forall s | s in longer
        ensures s.membership == snapshot.membership && s.engineProcesses > 0
      {
      }
      var kept := Last(longer, required);
      assert forall i :: 0 <= i < |kept| ==> kept[i] in longer;
    }
  }

  // Soundness: a window is accepted only if the last R observations all have an engine
  // process, one membership, and main and total sizes drifting within the ratio.
  lemma AcceptedWindowIsStable(observed: seq<Snapshot>, required: nat, num: nat, den: nat)
    requires observed != [] && Verdict(observed, required, num, den) && required > 0
    ensures required <= |observed|
    ensures var window := observed[|observed| - required..]; Uniform(window) && Steady(window, num, den)
  {
    hide Steady, Uniform;
    HistoryIsRecent(observed, required, num, den);
  }

  // A part of a steady run is steady.
  lemma PartIsSteady(run: seq<Snapshot>, from: nat, num: nat, den: nat)
    requires from < |run| && Steady(run, num, den)
    ensures Steady(run[from..], num, den)
  {
    NarrowerDrift(Mains(run), Mains(run[from..]), num, den);
    NarrowerDrift(Totals(run), Totals(run[from..]), num, den);
  }

  lemma NarrowerDrift(values: seq<int>, part: seq<int>, num: nat, den: nat)
    requires values != [] && part != [] && DriftWithin(values, num, den)
    requires forall v :: v in part ==> v in values
    ensures DriftWithin(part, num, den)
  {
    var spread, spread1 := MaxOf(values) - MinOf(values), MaxOf(part) - MinOf(part);
    assert spread1 <= spread && Max(1, MinOf(values)) <= Max(1, MinOf(part));
    MulMonotone(spread1, spread, den);
    MulMonotone(Max(1, MinOf(values)), Max(1, MinOf(part)), num);
  }

  // How far the window has come after k unaccepted observations of a mutually stable run:
  // refilled from the run alone since a reset, or not reset yet and holding them all.
  ghost predicate Filling(h: seq<Snapshot>, run: seq<Snapshot>, k: nat, required: nat) {
    && k <= |run|
    && if k == 0 then |h| <= required
       else if |h| <= k then 0 < |h| < required && k <= |h| + required - 2 && h == run[k - |h|..k]
       else |h| < required && h[|h| - 1] == run[k - 1]
  }

  lemma {:induction false} HistoryFits(observed: seq<Snapshot>, required: nat, num: nat, den: nat)
    requires required >= 2
    ensures |History(observed, required, num, den)| <= required
    decreases |observed|
  {
    hide Steady;
    if observed != [] {
      HistoryFits(observed[..|observed| - 1], required, num, den);
    }
  }

  lemma FillsFurther(h: seq<Snapshot>, run: seq<Snapshot>, k: nat, required: nat, num: nat, den: nat)
    requires required >= 2 && Filling(h, run, k, required) && k < |run|
    requires Uniform(run) && Steady(run, num, den)
    requires !Observed(h, run[k], required, num, den).1
    ensures Filling(Observed(h, run[k], required, num, den).0, run, k + 1, required)
  {
    hide Steady, Uniform, Observed;
    SameMembership(run, k);
    Refused(h, run[k], required, num, den);
    if 0 < k && |h| <= k {
      assert h + [run[k]] == run[k - |h|..k + 1];
      if |h| + 1 == required {
        StretchIsSteady(run, k - |h|, k + 1, num, den);
      }
    }
  }

  // The window after an observation that is not accepted.
  lemma Refused(h: seq<Snapshot>, s: Snapshot, required: nat, num: nat, den: nat)
    requires required >= 2 && s.engineProcesses > 0 && !Observed(h, s, required, num, den).1
    ensures var h1 := Observed(h, s, required, num, den).0;
      if h != [] && h[|h| - 1].membership != s.membership then h1 == [s]
      else if |h| + 1 < required then h1 == h + [s]
      else h1 == [s] && (|h| + 1 == required ==> !Steady(h + [s], num, den))
  {
    hide Steady;
  }

  lemma SameMembership(run: seq<Snapshot>, k: nat)
    requires Uniform(run) && k < |run|
    ensures run[k].engineProcesses > 0
    ensures k > 0 ==> run[k].membership == run[k - 1].membership
  {
  }

  lemma StretchIsSteady(run: seq<Snapshot>, from: nat, to: nat, num: nat, den: nat)
    requires from < to <= |run| && Steady(run, num, den)
    ensures Steady(run[from..to], num, den)
  {
    hide Steady;
    PartIsSteady(run, from, num, den);
    PrefixIsSteady(run[from..], to - from, num, den);
    assert run[from..][..to - from] == run[from..to];
  }

  lemma PrefixIsSteady(run: seq<Snapshot>, n: nat, num: nat, den: nat)
    requires 0 < n <= |run| && Steady(run, num, den)
    ensures Steady(run[..n], num, den)
  {
    NarrowerDrift(Mains(run), Mains(run[..n]), num, den);
    NarrowerDrift(Totals(run), Totals(run[..n]), num, den);
  }

  lemma {:induction false} FillsUnlessAccepted(
      before: seq<Snapshot>, run: seq<Snapshot>, k: nat, required: nat, num: nat, den: nat)
    requires required >= 2 && k <= |run| && run != []
    requires Uniform(run) && Steady(run, num, den)
    requires forall j :: 0 < j <= k ==> !Verdict(before + run[..j], required, num, den)
    ensures Filling(History(before + run[..k], required, num, den), run, k, required)
    decreases k
  {
    hide Steady, Observed, Filling;
    if k == 0 {
      HistoryFits(before, required, num, den);
      assert before + run[..0] == before;
      StartsFilling(History(before, required, num, den), run, required);
    } else {
      FillsUnlessAccepted(before, run, k - 1, required, num, den);
      var all := before + run[..k];
      assert all[..|all| - 1] == before + run[..k - 1] && all[|all| - 1] == run[k - 1];
      assert !Verdict(all, required, num, den);
      FillsFurther(History(before + run[..k - 1], required, num, den), run, k - 1, required, num, den);
    }
  }

  lemma StartsFilling(h: seq<Snapshot>, run: seq<Snapshot>, required: nat)
    requires |h| <= required
    ensures Filling(h, run, 0, required)
  {
  }

  // Bounded liveness: from any reachable state, 2R - 2 consecutive observations that are
  // stable among themselves make at least one of them accepted.
  lemma StableRunIsAccepted(before: seq<Snapshot>, run: seq<Snapshot>, required: nat, num: nat, den: nat)
    requires required >= 2 && |run| >= 2 * required - 2
    requires Uniform(run) && Steady(run, num, den)
    ensures exists k :: 0 < k <= |run| && Verdict(before + run[..k], required, num, den)
  {
    hide Steady, Observed;
    if forall j :: 0 < j <= |run| ==> !Verdict(before + run[..j], required, num, den) {
      FillsUnlessAccepted(before, run, |run|, required, num, den);
    }
  }

  function Copies(s: Snapshot, n: nat): (copies: seq<Snapshot>)
    ensures |copies| == n && forall i :: 0 <= i < n ==> copies[i] == s
  {
    seq(n, _ => s)
  }

  const STALE := Snapshot([], 1, 100, 100)
  const CURRENT := Snapshot([], 1, 200, 200)

  // The history after a stale snapshot and k current ones: the first window that fills
  // up is spoiled by the stale one and thrown away.
  function AfterStale(k: nat, required: nat): seq<Snapshot>
    requires required >= 2
  {
    if k <= required - 2 then [STALE] + Copies(CURRENT, k) else Copies(CURRENT, k + 2 - required)
  }

  lemma OneMoreCurrent(k: nat, required: nat)
    requires required >= 2 && k < 2 * required - 3
    ensures Observed(AfterStale(k, required), CURRENT, required, 1, 100) == (AfterStale(k + 1, required), false)
  {
    hide Steady;
    var h := AfterStale(k, required);
    var longer := h + [CURRENT];
    if k + 1 <= required - 2 {
      assert longer == [STALE] + Copies(CURRENT, k + 1);
    } else if k == required - 2 {
      assert longer[0] == STALE && longer[1] == CURRENT;
      StaleIsUnsteady(longer);
      assert Copies(CURRENT, 1) == [CURRENT];
    } else {
      assert longer == Copies(CURRENT, k + 3 - required);
    }
  }

  lemma StaleIsUnsteady(window: seq<Snapshot>)
    requires |window| >= 2 && window[0] == STALE && window[1] == CURRENT
    ensures !Steady(window, 1, 100)
  {
    var mains := Mains(window);
    assert mains[0] == 100 && mains[1] == 200;
    assert MaxOf(mains) >= 200 && MinOf(mains) <= 100;
  }

  lemma {:induction false} HistoryAfterStale(k: nat, required: nat)
    requires required >= 2 && k <= 2 * required - 3
    ensures History([STALE] + Copies(CURRENT, k), required, 1, 100) == AfterStale(k, required)
    ensures k > 0 ==> !Verdict([STALE] + Copies(CURRENT, k), required, 1, 100)
    decreases k
  {
    hide Observed;
    var observed := [STALE] + Copies(CURRENT, k);
    if k == 0 {
      FirstIsKept(required);
      assert observed == [STALE] && [STALE] + Copies(CURRENT, 0) == [STALE];
    } else {
      HistoryAfterStale(k - 1, required);
      OneMoreCurrent(k - 1, required);
      assert observed[..|observed| - 1] == [STALE] + Copies(CURRENT, k - 1) && observed[k] == CURRENT;
    }
  }

  lemma FirstIsKept(required: nat)
    requires required >= 2
    ensures History([STALE], required, 1, 100) == [STALE]
  {
    assert [STALE][..0] == [];
  }

  // The bound is tight for every R: after one stale snapshot, 2R - 3 identical current
  // ones, stable among themselves, are all rejected under a drift limit of 1%.
  lemma FewerMayNotSuffice(required: nat) returns (before: seq<Snapshot>, run: seq<Snapshot>)
    requires required >= 2
    ensures |run| == 2 * required - 3 && Uniform(run) && Steady(run, 1, 100)
    ensures forall k :: 0 < k <= |run| ==> !Verdict(before + run[..k], required, 1, 100)
  {
    hide Verdict;
    before, run := [STALE], Copies(CURRENT, 2 * required - 3);
    CopiesAreStable(CURRENT, 2 * required - 3);
    forall k | 0 < k <= |run|
      ensures !Verdict(before + run[..k], required, 1, 100)
    {
      HistoryAfterStale(k, required);
      assert run[..k] == Copies(CURRENT, k);
    }
  }

  lemma CopiesAreStable(s: Snapshot, n: nat)
    requires n > 0 && s.engineProcesses > 0
    ensures Uniform(Copies(s, n)) && Steady(Copies(s, n), 1, 100)
  {
    var run := Copies(s, n);
    assert forall v :: v in Mains(run) ==> v == s.mainRss;
    assert forall v :: v in Totals(run) ==> v == s.totalRss;
    assert MaxOf(Mains(run)) in Mains(run) && MinOf(Mains(run)) in Mains(run);
    assert MaxOf(Totals(run)) in Totals(run) && MinOf(Totals(run)) in Totals(run);
  }

  // A window of observations that are stable among themselves.
  ghost predicate Stable(window: seq<Snapshot>, num: nat, den: nat) {
    window != [] ==> Uniform(window) && Steady(window, num, den)
  }

  // Feeds a new MemoryStability. It accepts only when the last R observations are stable
  // among themselves, and somewhere in every 2R - 2 consecutive ones that are.
  method ObserveAll(observed: seq<Snapshot>, required: nat, num: nat, den: nat) returns (accepted: seq<bool>)
    ensures |accepted| == |observed|
    ensures required > 0 ==> forall i :: 0 <= i < |accepted| && accepted[i] ==>
              i + 1 >= required && Stable(observed[i + 1 - required..i + 1], num, den)
    ensures required >= 2 ==> forall i, j ::
              0 <= i && i + 2 * required - 2 <= j <= |observed| && Stable(observed[i..j], num, den) ==>
                exists k :: i <= k < j && accepted[k]
  {
    hide Observed, Stable;
    var stability := new MemoryStability(required, num, den);
    accepted := [];
    for i := 0 to |observed|
      invariant fresh(stability) && stability.required == required && stability.num == num && stability.den == den
      invariant stability.history == History(observed[..i], required, num, den)
      invariant |accepted| == i
      invariant forall k :: 0 <= k < i ==> accepted[k] == Verdict(observed[..k + 1], required, num, den)
    {
      assert observed[..i + 1][..i] == observed[..i];
      var stable := stability.Observe(observed[i]);
      accepted := accepted + [stable];
    }
    assert observed[..|observed|] == observed;
    forall i | required > 0 && 0 <= i < |accepted| && accepted[i]
      ensures i + 1 >= required && Stable(observed[i + 1 - required..i + 1], num, den)
    {
      AcceptedAt(observed, i, required, num, den);
    }
    forall i, j | required >= 2 && 0 <= i && i + 2 * required - 2 <= j <= |observed| && Stable(observed[i..j], num, den)
      ensures exists k :: i <= k < j && accepted[k]
    {
      var k := AcceptedWithin(observed, i, j, required, num, den);
      assert accepted[k];
    }
  }

  lemma AcceptedAt(observed: seq<Snapshot>, i: nat, required: nat, num: nat, den: nat)
    requires i < |observed| && required > 0 && Verdict(observed[..i + 1], required, num, den)
    ensures i + 1 >= required && Stable(observed[i + 1 - required..i + 1], num, den)
  {
    hide Verdict, Uniform, Steady;
    AcceptedWindowIsStable(observed[..i + 1], required, num, den);
    assert observed[..i + 1][i + 1 - required..] == observed[i + 1 - required..i + 1];
  }

  lemma AcceptedWithin(observed: seq<Snapshot>, i: nat, j: nat, required: nat, num: nat, den: nat) returns (k: nat)
    requires required >= 2 && i + 2 * required - 2 <= j <= |observed| && Stable(observed[i..j], num, den)
    ensures i <= k < j && Verdict(observed[..k + 1], required, num, den)
  {
    hide Verdict, Uniform, Steady;
    var run := observed[i..j];
    StableRunIsAccepted(observed[..i], run, required, num, den);
    var n :| 0 < n <= |run| && Verdict(observed[..i] + run[..n], required, num, den);
    assert observed[..i] + run[..n] == observed[..i + n];
    k := i + n - 1;
  }
}
