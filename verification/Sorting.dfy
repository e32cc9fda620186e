// Stable sorting by a comparison, and what it keeps: the elements, and the order of equals.
module Sorting {
  // before is a strict order up to ties.
  ghost predicate Ordering<T(!new)>(before: (T, T) -> bool) {
    && (forall a, b :: before(a, b) ==> !before(b, a))
    && (forall a, b, c :: !before(b, a) && !before(c, b) ==> !before(c, a))
  }

  function Insert<T>(x: T, sorted: seq<T>, before: (T, T) -> bool): seq<T> {
    if sorted == [] || before(x, sorted[0]) then [x] + sorted
    else [sorted[0]] + Insert(x, sorted[1..], before)
  }

  function Sort<T>(s: seq<T>, before: (T, T) -> bool): seq<T> {
    if s == [] then [] else Insert(s[|s| - 1], Sort(s[..|s| - 1], before), before)
  }

  ghost predicate Sorted<T>(s: seq<T>, before: (T, T) -> bool) {
    forall i, j :: 0 <= i < j < |s| ==> !before(s[j], s[i])
  }

  lemma {:induction false} InsertPermutes<T>(x: T, sorted: seq<T>, before: (T, T) -> bool)
    ensures multiset(Insert(x, sorted, before)) == multiset(sorted) + multiset{x}
    decreases |sorted|
  {
    if sorted != [] && !before(x, sorted[0]) {
      InsertPermutes(x, sorted[1..], before);
      assert sorted == [sorted[0]] + sorted[1..];
    }
  }

  lemma {:induction false} SortPermutes<T>(s: seq<T>, before: (T, T) -> bool)
    ensures multiset(Sort(s, before)) == multiset(s)
    ensures |Sort(s, before)| == |s|
    decreases |s|
  {
    if s != [] {
      var n := |s| - 1;
      SortPermutes(s[..n], before);
      InsertPermutes(s[n], Sort(s[..n], before), before);
      assert s == s[..n] + [s[n]];
    }
    assert |multiset(Sort(s, before))| == |multiset(s)|;
  }

  lemma {:induction false} InsertSorts<T(!new)>(x: T, sorted: seq<T>, before: (T, T) -> bool)
    requires Ordering(before) && Sorted(sorted, before)
    ensures Sorted(Insert(x, sorted, before), before)
    decreases |sorted|
  {
    if sorted != [] && !before(x, sorted[0]) {
      var rest := Insert(x, sorted[1..], before);
      InsertSorts(x, sorted[1..], before);
      InsertPermutes(x, sorted[1..], before);
      forall y | y in rest
        ensures !before(y, sorted[0])
      {
        assert y in multiset(rest);
        assert y == x || y in sorted[1..];
      }
    }
  }

  lemma {:induction false} SortSorts<T(!new)>(s: seq<T>, before: (T, T) -> bool)
    requires Ordering(before)
    ensures Sorted(Sort(s, before), before)
    decreases |s|
  {
    if s != [] {
      SortSorts(s[..|s| - 1], before);
      InsertSorts(s[|s| - 1], Sort(s[..|s| - 1], before), before);
    }
  }

  // The elements tied with x, in order.
  function TiedWith<T>(s: seq<T>, x: T, before: (T, T) -> bool): seq<T> {
    if s == [] then []
    else
      var last := s[|s| - 1];
      TiedWith(s[..|s| - 1], x, before) + if !before(x, last) && !before(last, x) then [last] else []
  }

  lemma {:induction false} TiedConcat<T>(a: seq<T>, b: seq<T>, x: T, before: (T, T) -> bool)
    ensures TiedWith(a + b, x, before) == TiedWith(a, x, before) + TiedWith(b, x, before)
    decreases |b|
  {
    if b == [] {
      assert a + b == a;
    } else {
      assert (a + b)[..|a + b| - 1] == a + b[..|b| - 1];
      TiedConcat(a, b[..|b| - 1], x, before);
    }
  }

  lemma TiedOne<T>(y: T, x: T, before: (T, T) -> bool)
    ensures TiedWith([y], x, before) == if !before(x, y) && !before(y, x) then [y] else []
  {
    assert [y][..0] == [];
  }

  lemma {:induction false} InsertIsStable<T(!new)>(y: T, sorted: seq<T>, x: T, before: (T, T) -> bool)
    requires Ordering(before) && Sorted(sorted, before)
    ensures TiedWith(Insert(y, sorted, before), x, before) == TiedWith(sorted, x, before) + TiedWith([y], x, before)
    decreases |sorted|
  {
    if sorted == [] {
    } else if before(y, sorted[0]) {
      TiedConcat([y], sorted, x, before);
      TiedOne(y, x, before);
      if !before(x, y) && !before(y, x) {
        NoneTied(sorted, x, before);
      }
    } else {
      TiedConcat([sorted[0]], Insert(y, sorted[1..], before), x, before);
      InsertIsStable(y, sorted[1..], x, before);
      TiedConcat([sorted[0]], sorted[1..], x, before);
      assert sorted == [sorted[0]] + sorted[1..];
    }
  }

  lemma {:induction false} NoneTied<T>(s: seq<T>, x: T, before: (T, T) -> bool)
    requires forall y :: y in s ==> before(x, y) || before(y, x)
    ensures TiedWith(s, x, before) == []
    decreases |s|
  {
    if s != [] {
      NoneTied(s[..|s| - 1], x, before);
    }
  }

  lemma {:induction false} SortIsStable<T(!new)>(s: seq<T>, x: T, before: (T, T) -> bool)
    requires Ordering(before)
    ensures TiedWith(Sort(s, before), x, before) == TiedWith(s, x, before)
    decreases |s|
  {
    if s != [] {
      var n := |s| - 1;
      SortIsStable(s[..n], x, before);
      SortSorts(s[..n], before);
      InsertIsStable(s[n], Sort(s[..n], before), x, before);
      TiedConcat(s[..n], [s[n]], x, before);
      assert s == s[..n] + [s[n]];
    }
  }

  // ---- numbers ----

  function Less(a: int, b: int): bool {
    a < b
  }

  function LessReal(a: real, b: real): bool {
    a < b
  }

  // The list without its element at i.
  function Removed<T>(s: seq<T>, i: nat): (r: seq<T>)
    requires i < |s|
    ensures |r| == |s| - 1
  {
    s[..i] + s[i + 1..]
  }

  lemma RemovedCounts<T>(s: seq<T>, i: nat)
    requires i < |s|
    ensures multiset(Removed(s, i)) + multiset{s[i]} == multiset(s)
  {
    assert s == s[..i] + [s[i]] + s[i + 1..];
  }

  lemma SameRest<T>(a: seq<T>, i: nat, b: seq<T>, j: nat)
    requires i < |a| && j < |b| && a[i] == b[j] && multiset(a) == multiset(b)
    ensures multiset(Removed(a, i)) == multiset(Removed(b, j))
  {
    hide Removed;
    RemovedCounts(a, i);
    RemovedCounts(b, j);
    var one := multiset{a[i]};
    assert multiset(Removed(a, i)) == multiset(Removed(a, i)) + one - one;
    assert multiset(Removed(b, j)) == multiset(Removed(b, j)) + one - one;
  }

  // Two ascending lists of the same numbers are the same list.
  lemma {:induction false} AscendingIsUnique(a: seq<int>, b: seq<int>)
    requires Sorted(a, Less) && Sorted(b, Less) && multiset(a) == multiset(b)
    ensures a == b
    decreases |a|
  {
    hide Sorted, Removed;
    assert |a| == |multiset(a)| == |multiset(b)| == |b|;
    if a != [] {
      FirstIsLeast(a, b);
      FirstIsLeast(b, a);
      SameRest(a, 0, b, 0);
      StillAscending(a);
      StillAscending(b);
      AscendingIsUnique(Removed(a, 0), Removed(b, 0));
    }
  }

  lemma StillAscending(a: seq<int>)
    requires a != [] && Sorted(a, Less)
    ensures Sorted(Removed(a, 0), Less) && a == [a[0]] + Removed(a, 0)
  {
  }

  lemma FirstIsLeast(a: seq<int>, b: seq<int>)
    requires a != [] && b != [] && Sorted(a, Less) && multiset(a) == multiset(b)
    ensures a[0] <= b[0]
  {
    assert b[0] in multiset(a);
  }

  // ---- permutations under functions ----

  function Map<T, U>(f: T -> U, s: seq<T>): (r: seq<U>)
    ensures |r| == |s| && forall i :: 0 <= i < |s| ==> r[i] == f(s[i])
  {
    seq(|s|, i requires 0 <= i < |s| => f(s[i]))
  }

  lemma {:induction false} MapPermutes<T, U>(f: T -> U, a: seq<T>, b: seq<T>)
    requires multiset(a) == multiset(b)
    ensures multiset(Map(f, a)) == multiset(Map(f, b))
    decreases |a|
  {
    hide Map, Removed;
    assert |a| == |multiset(a)| == |multiset(b)| == |b|;
    if a == [] {
      assert b == [];
    } else {
      assert a[0] in multiset(b);
      var i :| 0 <= i < |b| && b[i] == a[0];
      SameRest(a, 0, b, i);
      MapPermutes(f, Removed(a, 0), Removed(b, i));
      MapSplits(f, a, 0);
      MapSplits(f, b, i);
    }
  }

  lemma MapSplits<T, U>(f: T -> U, s: seq<T>, i: nat)
    requires i < |s|
    ensures multiset(Map(f, s)) == multiset(Map(f, Removed(s, i))) + multiset{f(s[i])}
  {
    var m := Map(f, s);
    assert m == m[..i] + [f(s[i])] + m[i + 1..];
    assert Map(f, Removed(s, i)) == m[..i] + m[i + 1..];
  }

  predicate Distinct<T(==)>(s: seq<T>) {
    forall i, j :: 0 <= i < j < |s| ==> s[i] != s[j]
  }

  lemma {:induction false} DistinctMeansOnce<T>(s: seq<T>)
    ensures Distinct(s) <==> forall x :: x in s ==> multiset(s)[x] == 1
    decreases |s|
  {
    if s != [] {
      var n := |s| - 1;
      var rest, last := s[..n], s[n];
      DistinctMeansOnce(rest);
      assert s == rest + [last] && multiset(s) == multiset(rest) + multiset{last};
      if Distinct(s) {
        assert last !in rest;
      } else if last in rest {
        assert multiset(s)[last] >= 2 && last in s;
      } else {
        assert !Distinct(rest);
        var x :| x in rest && multiset(rest)[x] != 1;
        assert x in s && multiset(s)[x] != 1;
      }
    }
  }

  lemma DistinctPermutes<T>(a: seq<T>, b: seq<T>)
    requires multiset(a) == multiset(b)
    ensures Distinct(a) <==> Distinct(b)
  {
    DistinctMeansOnce(a);
    DistinctMeansOnce(b);
    assert forall x :: x in a <==> x in multiset(a);
    assert forall x :: x in b <==> x in multiset(b);
  }
}
