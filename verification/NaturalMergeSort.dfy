/**
 The value-level theory behind `list_sort`: a natural, bottom-up, stable merge
 sort on sequences.  `KernelList` proves that the pointer code computes exactly
 `MergeSort`; this module proves what `MergeSort` means.
 */
module NaturalMergeSort {

  /** A strict weak order on the elements of `s`: what callers must pass as `less`. */
  ghost predicate Orders<X>(less: (X, X) -> bool, s: seq<X>) {
    && (forall a, b {:trigger less(a, b)} | a in s && b in s :: less(a, b) ==> !less(b, a))
    && (forall a, b, c {:trigger less(a, b), less(b, c)} | a in s && b in s && c in s ::
          !less(a, b) && !less(b, c) ==> !less(a, c))
  }

  /** No element is less than one that precedes it. */
  ghost predicate Sorted<X>(less: (X, X) -> bool, s: seq<X>) {
    forall i, j :: 0 <= i < j < |s| ==> !less(s[j], s[i])
  }

  predicate Equivalent<X>(less: (X, X) -> bool, a: X, b: X) {
    !less(a, b) && !less(b, a)
  }

  /** The elements of `s` equivalent to `x`, in the order in which they occur. */
  function Class<X>(less: (X, X) -> bool, s: seq<X>, x: X): seq<X> {
    if s == [] then []
    else (if Equivalent(less, s[0], x) then [s[0]] else []) + Class(less, s[1..], x)
  }

  /** `r` is `s` sorted, with the same elements, and equivalent elements in their old order. */
  ghost predicate IsStableSort<X>(less: (X, X) -> bool, s: seq<X>, r: seq<X>) {
    && Sorted(less, r)
    && multiset(r) == multiset(s)
    && (forall x | x in s :: Class(less, r, x) == Class(less, s, x))
  }

  // ----- Runs

  /** Number of positions where an element is less than its predecessor. */
  function Descents<X>(less: (X, X) -> bool, s: seq<X>): nat {
    if |s| <= 1 then 0
    else (if less(s[1], s[0]) then 1 else 0) + Descents(less, s[1..])
  }

  /** Number of maximal nondecreasing runs. */
  function Runs<X>(less: (X, X) -> bool, s: seq<X>): nat {
    if s == [] then 0 else 1 + Descents(less, s)
  }

  /** Length of the first maximal run. */
  function RunLength<X>(less: (X, X) -> bool, s: seq<X>): (n: nat)
    requires s != []
    ensures 1 <= n <= |s|
  {
    if |s| == 1 || less(s[1], s[0]) then 1 else 1 + RunLength(less, s[1..])
  }

  /** Where the run after the first one ends. */
  function SecondEnd<X>(less: (X, X) -> bool, s: seq<X>): (m: nat)
    requires s != [] && RunLength(less, s) < |s|
    ensures RunLength(less, s) < m <= |s|
  {
    RunLength(less, s) + RunLength(less, s[RunLength(less, s)..])
  }

  ghost predicate Ascending<X>(less: (X, X) -> bool, s: seq<X>) {
    forall i :: 1 <= i < |s| ==> !less(s[i], s[i - 1])
  }

  /** `RunLength` finds a run, and the run cannot be extended. */
  lemma {:induction false} RunIsMaximal<X>(less: (X, X) -> bool, s: seq<X>)
    requires s != []
    ensures var n := RunLength(less, s);
            Ascending(less, s[..n]) && (n < |s| ==> less(s[n], s[n - 1]))
  {
    if |s| > 1 && !less(s[1], s[0]) {
      RunIsMaximal(less, s[1..]);
      var n := RunLength(less, s);
      var tail := s[1..][..n - 1];
      forall i | 1 <= i < n ensures !less(s[i], s[i - 1]) {
        if i > 1 {
          assert tail[i - 1] == s[i] && tail[i - 2] == s[i - 1];
        }
      }
    }
  }

  function Merge<X>(less: (X, X) -> bool, a: seq<X>, b: seq<X>): (r: seq<X>)
    ensures |r| == |a| + |b|
  {
    if a == [] then b
    else if b == [] then a
    else if !less(b[0], a[0]) then [a[0]] + Merge(less, a[1..], b)
    else [b[0]] + Merge(less, a, b[1..])
  }

  /** One pass: merge adjacent runs pairwise. */
  function Pass<X>(less: (X, X) -> bool, s: seq<X>): (r: seq<X>)
    ensures |r| == |s|
  {
    if s == [] then []
    else
      var n := RunLength(less, s);
      if n == |s| then s
      else
        var m := SecondEnd(less, s);
        Merge(less, s[..n], s[n..m]) + Pass(less, s[m..])
  }

  /** The number of merged runs one pass outputs. */
  function PassRuns<X>(less: (X, X) -> bool, s: seq<X>): nat {
    if s == [] then 0
    else
      var n := RunLength(less, s);
      if n == |s| then 1
      else
        1 + PassRuns(less, s[SecondEnd(less, s)..])
  }

  /** How far the first step of a pass reads, and what it leaves there. */
  function HeadLength<X>(less: (X, X) -> bool, s: seq<X>): (n: nat)
    requires s != []
    ensures 0 < n <= |s|
  {
    if RunLength(less, s) == |s| then |s| else SecondEnd(less, s)
  }

  function MergedHead<X>(less: (X, X) -> bool, s: seq<X>): (r: seq<X>)
    requires s != []
    ensures |r| == HeadLength(less, s)
  {
    var n := RunLength(less, s);
    if n == |s| then s else Merge(less, s[..n], s[n..SecondEnd(less, s)])
  }

  lemma PassByHeads<X>(less: (X, X) -> bool, s: seq<X>)
    requires s != []
    ensures Pass(less, s) == MergedHead(less, s) + Pass(less, s[HeadLength(less, s)..])
    ensures PassRuns(less, s) == 1 + PassRuns(less, s[HeadLength(less, s)..])
    ensures multiset(MergedHead(less, s)) == multiset(s[..HeadLength(less, s)])
  {
    hide RunLength, SecondEnd, Merge;
    MergedElements(less, s);
    if RunLength(less, s) == |s| {
      PassOfNothing(less, s[HeadLength(less, s)..]);
    }
  }

  lemma PassOfNothing<X>(less: (X, X) -> bool, s: seq<X>)
    requires s == []
    ensures Pass(less, s) == [] && PassRuns(less, s) == 0
  {
  }

  lemma MergedElements<X>(less: (X, X) -> bool, s: seq<X>)
    requires s != []
    ensures multiset(MergedHead(less, s)) == multiset(s[..HeadLength(less, s)])
  {
    hide RunLength, SecondEnd, Merge;
    var n := RunLength(less, s);
    if n == |s| {
      assert s[..n] == s;
    } else {
      var m := SecondEnd(less, s);
      MergeElements(less, s[..n], s[n..m]);
      assert s[..m] == s[..n] + s[n..m];
    }
  }

  /** Passes until one outputs at most one run. */
  ghost function MergeSort<X>(less: (X, X) -> bool, s: seq<X>): (r: seq<X>)
    requires Orders(less, s)
    decreases Runs(less, s)
  {
    PassShrinks(less, s);
    if PassRuns(less, s) <= 1 then Pass(less, s) else MergeSort(less, Pass(less, s))
  }

  // ----- Splitting and joining

  lemma {:induction false} DescentsJoin<X>(less: (X, X) -> bool, a: seq<X>, b: seq<X>)
    requires a != [] && b != []
    ensures Descents(less, a + b)
         == Descents(less, a) + (if less(b[0], a[|a| - 1]) then 1 else 0) + Descents(less, b)
  {
    if |a| == 1 {
      assert (a + b)[1..] == b;
    } else {
      DescentsJoin(less, a[1..], b);
      assert (a + b)[1..] == a[1..] + b;
    }
  }

  lemma {:induction false} NoDescents<X>(less: (X, X) -> bool, s: seq<X>)
    requires Ascending(less, s)
    ensures Descents(less, s) == 0
  {
    if |s| > 1 {
      forall i | 1 <= i < |s[1..]| ensures !less(s[1..][i], s[1..][i - 1]) {
        assert s[1..][i] == s[i + 1];
      }
      NoDescents(less, s[1..]);
    }
  }

  /** Cutting off the first run removes exactly one run. */
  lemma RunsAfterFirst<X>(less: (X, X) -> bool, s: seq<X>)
    requires s != []
    ensures Runs(less, s) == 1 + Runs(less, s[RunLength(less, s)..])
  {
    var n := RunLength(less, s);
    RunIsMaximal(less, s);
    NoDescents(less, s[..n]);
    if n == |s| {
      assert s[..n] == s;
    } else {
      assert s[..n] + s[n..] == s;
      DescentsJoin(less, s[..n], s[n..]);
    }
  }

  lemma RunsAfterSecond<X>(less: (X, X) -> bool, s: seq<X>)
    requires s != [] && RunLength(less, s) < |s|
    ensures Runs(less, s) == 2 + Runs(less, s[SecondEnd(less, s)..])
  {
    var n := RunLength(less, s);
    RunsAfterFirst(less, s);
    RunsAfterFirst(less, s[n..]);
    assert s[n..][RunLength(less, s[n..])..] == s[SecondEnd(less, s)..];
  }

  /** A pass over R runs outputs ceil(R / 2) runs. */
  lemma {:induction false} PassRunsIsHalf<X>(less: (X, X) -> bool, s: seq<X>)
    ensures PassRuns(less, s) == (Runs(less, s) + 1) / 2
  {
    if s != [] {
      if RunLength(less, s) == |s| {
        RunsAfterFirst(less, s);
      } else {
        RunsAfterSecond(less, s);
        PassRunsIsHalf(less, s[SecondEnd(less, s)..]);
      }
    }
  }

  // ----- Merge

  lemma {:induction false} MergeElements<X>(less: (X, X) -> bool, a: seq<X>, b: seq<X>)
    ensures multiset(Merge(less, a, b)) == multiset(a) + multiset(b)
  {
    if a != [] && b != [] {
      assert a == [a[0]] + a[1..];
      assert b == [b[0]] + b[1..];
      if !less(b[0], a[0]) {
        MergeElements(less, a[1..], b);
      } else {
        MergeElements(less, a, b[1..]);
      }
    }
  }

  lemma MergeIn<X>(less: (X, X) -> bool, a: seq<X>, b: seq<X>, x: X)
    ensures x in Merge(less, a, b) <==> x in a || x in b
  {
    MergeElements(less, a, b);
    assert x in Merge(less, a, b) <==> x in multiset(Merge(less, a, b));
  }

  lemma SortedCons<X>(less: (X, X) -> bool, x: X, s: seq<X>)
    requires Sorted(less, s)
    requires forall y | y in s :: !less(y, x)
    ensures Sorted(less, [x] + s)
  {
  }

  lemma OrdersSubset<X>(less: (X, X) -> bool, s: seq<X>, t: seq<X>)
    requires Orders(less, s)
    requires forall x | x in t :: x in s
    ensures Orders(less, t)
  {
  }

  lemma {:induction false} MergeSorted<X>(less: (X, X) -> bool, a: seq<X>, b: seq<X>)
    requires Orders(less, a + b)
    requires Sorted(less, a) && Sorted(less, b)
    ensures Sorted(less, Merge(less, a, b))
  {
    if a != [] && b != [] {
      if !less(b[0], a[0]) {
        OrdersSubset(less, a + b, a[1..] + b);
        MergeSorted(less, a[1..], b);
        forall y | y in Merge(less, a[1..], b) ensures !less(y, a[0]) {
          MergeIn(less, a[1..], b, y);
          if y in a[1..] {
            var i :| 0 <= i < |a[1..]| && a[1..][i] == y;
            assert a[i + 1] == y;
          } else {
            var i :| 0 <= i < |b| && b[i] == y;
            assert !less(y, b[0]);
            assert y in a + b && b[0] in a + b && a[0] in a + b;
          }
        }
        SortedCons(less, a[0], Merge(less, a[1..], b));
      } else {
        OrdersSubset(less, a + b, a + b[1..]);
        MergeSorted(less, a, b[1..]);
        forall y | y in Merge(less, a, b[1..]) ensures !less(y, b[0]) {
          MergeIn(less, a, b[1..], y);
          assert y in a + b && b[0] in a + b && a[0] in a + b;
          if y in b[1..] {
            var i :| 0 <= i < |b[1..]| && b[1..][i] == y;
            assert b[i + 1] == y;
          } else {
            var i :| 0 <= i < |a| && a[i] == y;
            assert !less(y, a[0]);
            assert !less(a[0], b[0]);
          }
        }
        SortedCons(less, b[0], Merge(less, a, b[1..]));
      }
    }
  }

  lemma {:induction false} ClassJoin<X>(less: (X, X) -> bool, a: seq<X>, b: seq<X>, x: X)
    ensures Class(less, a + b, x) == Class(less, a, x) + Class(less, b, x)
  {
    if a == [] {
      assert a + b == b;
    } else {
      hide Equivalent;
      ClassJoin(less, a[1..], b, x);
      var c, h := a + b, if Equivalent(less, a[0], x) then [a[0]] else [];
      assert c[0] == a[0] && c[1..] == a[1..] + b;
      assert Class(less, c, x) == h + Class(less, c[1..], x) && Class(less, a, x) == h + Class(less, a[1..], x);
      hide Class;
      assert h + (Class(less, a[1..], x) + Class(less, b, x)) == (h + Class(less, a[1..], x)) + Class(less, b, x);
    }
  }

  lemma {:induction false} ClassEmpty<X>(less: (X, X) -> bool, s: seq<X>, x: X)
    requires forall y | y in s :: !Equivalent(less, y, x)
    ensures Class(less, s, x) == []
  {
    if s != [] {
      ClassEmpty(less, s[1..], x);
    }
  }

  /** Merging sorted runs keeps equivalent elements in order. */
  lemma {:induction false} MergeStable<X>(less: (X, X) -> bool, a: seq<X>, b: seq<X>, all: seq<X>, x: X)
    requires Orders(less, all) && x in all
    requires (forall y | y in a :: y in all) && (forall y | y in b :: y in all)
    requires Sorted(less, a) && Sorted(less, b)
    ensures Class(less, Merge(less, a, b), x) == Class(less, a, x) + Class(less, b, x)
  {
    if a != [] && b != [] {
      hide Orders, Equivalent, Merge, Class;
      FirstOfMerge(less, a, b);
      FirstOfClass(less, a, x);
      FirstOfClass(less, b, x);
      FirstOfClass(less, Merge(less, a, b), x);
      if !less(b[0], a[0]) {
        MergeStable(less, a[1..], b, all, x);
      } else {
        MergeStable(less, a, b[1..], all, x);
        if Equivalent(less, b[0], x) {
          NoneEquivalent(less, a, b[0], all, x);
        }
      }
    }
  }

  lemma FirstOfMerge<X>(less: (X, X) -> bool, a: seq<X>, b: seq<X>)
    requires a != [] && b != []
    ensures Merge(less, a, b) != []
    ensures if less(b[0], a[0]) then Merge(less, a, b)[0] == b[0] && Merge(less, a, b)[1..] == Merge(less, a, b[1..])
            else Merge(less, a, b)[0] == a[0] && Merge(less, a, b)[1..] == Merge(less, a[1..], b)
  {
  }

  lemma FirstOfClass<X>(less: (X, X) -> bool, s: seq<X>, x: X)
    requires s != []
    ensures Class(less, s, x) == (if Equivalent(less, s[0], x) then [s[0]] else []) + Class(less, s[1..], x)
  {
  }

  /** If b comes before a sorted run then nothing in the run is equivalent to what b is equivalent to. */
  lemma NoneEquivalent<X>(less: (X, X) -> bool, a: seq<X>, b: X, all: seq<X>, x: X)
    requires Orders(less, all) && x in all && b in all && a != [] && forall y | y in a :: y in all
    requires Sorted(less, a) && less(b, a[0]) && Equivalent(less, b, x)
    ensures Class(less, a, x) == []
  {
    hide Class;
    assert a[0] in all;
    forall y | y in a ensures !Equivalent(less, y, x) {
      var i :| 0 <= i < |a| && a[i] == y;
      NotBelowFirst(less, all, a, i);
      BelowAll(less, all, b, a[0], y, x);
    }
    ClassEmpty(less, a, x);
  }

  lemma NotBelowFirst<X>(less: (X, X) -> bool, all: seq<X>, a: seq<X>, i: nat)
    requires Orders(less, all) && Sorted(less, a) && i < |a| && a[i] in all
    ensures !less(a[i], a[0])
  {
  }

  /** If b < a0 <= y then y is not equivalent to anything equivalent to b. */
  lemma BelowAll<X>(less: (X, X) -> bool, all: seq<X>, b: X, a0: X, y: X, x: X)
    requires Orders(less, all) && b in all && a0 in all && y in all && x in all
    requires less(b, a0) && !less(y, a0)
    requires Equivalent(less, b, x)
    ensures !Equivalent(less, y, x)
  {
    assert less(b, y);
    assert less(x, y) || less(b, x);
  }

  // ----- Pass

  lemma AscendingIsSorted<X>(less: (X, X) -> bool, s: seq<X>)
    requires Orders(less, s) && Ascending(less, s)
    ensures Sorted(less, s)
  {
    forall i, j | 0 <= i < j < |s| ensures !less(s[j], s[i]) {
      AscendingPair(less, s, i, j);
    }
  }

  lemma {:induction false} AscendingPair<X>(less: (X, X) -> bool, s: seq<X>, i: nat, j: nat)
    requires i < j < |s| && Orders(less, s) && Ascending(less, s)
    ensures !less(s[j], s[i])
    decreases j - i
  {
    if i + 1 < j {
      AscendingPair(less, s, i, j - 1);
      assert s[j] in s && s[j - 1] in s && s[i] in s;
    }
  }

  lemma FirstRunSorted<X>(less: (X, X) -> bool, s: seq<X>)
    requires Orders(less, s) && s != []
    ensures Sorted(less, s[..RunLength(less, s)])
  {
    var run := s[..RunLength(less, s)];
    RunIsMaximal(less, s);
    OrdersSubset(less, s, run);
    AscendingIsSorted(less, run);
  }

  lemma SecondRunSorted<X>(less: (X, X) -> bool, s: seq<X>)
    requires Orders(less, s) && s != [] && RunLength(less, s) < |s|
    ensures Sorted(less, s[RunLength(less, s)..SecondEnd(less, s)])
  {
    hide Orders, Sorted, RunLength;
    var n, m := RunLength(less, s), SecondEnd(less, s);
    var rest := s[n..];
    OrdersSubset(less, s, rest);
    FirstRunSorted(less, rest);
    assert rest[..m - n] == s[n..m];
  }

  /** The two runs a pass merges first: both sorted, and made of elements of `s`. */
  lemma FirstTwoRuns<X>(less: (X, X) -> bool, s: seq<X>)
    requires Orders(less, s) && s != [] && RunLength(less, s) < |s|
    ensures var n, m := RunLength(less, s), SecondEnd(less, s);
            && Sorted(less, s[..n]) && Sorted(less, s[n..m])
            && Orders(less, s[..n] + s[n..m])
  {
    FirstRunSorted(less, s);
    SecondRunSorted(less, s);
    OrdersSubset(less, s, s[..RunLength(less, s)] + s[RunLength(less, s)..SecondEnd(less, s)]);
  }

  lemma Thirds<X>(s: seq<X>, n: nat, m: nat)
    requires n <= m <= |s|
    ensures s == s[..n] + s[n..m] + s[m..]
    ensures multiset(s) == multiset(s[..n]) + multiset(s[n..m]) + multiset(s[m..])
  {
    assert s == s[..n] + s[n..m] + s[m..];
  }

  lemma {:induction false} PassElements<X>(less: (X, X) -> bool, s: seq<X>)
    ensures multiset(Pass(less, s)) == multiset(s)
  {
    if s != [] && RunLength(less, s) < |s| {
      var n, m := RunLength(less, s), SecondEnd(less, s);
      MergeElements(less, s[..n], s[n..m]);
      PassElements(less, s[m..]);
      Thirds(s, n, m);
    }
  }

  lemma {:induction false} PassStable<X>(less: (X, X) -> bool, s: seq<X>, all: seq<X>, x: X)
    requires Orders(less, all) && x in all && forall y | y in s :: y in all
    ensures Class(less, Pass(less, s), x) == Class(less, s, x)
  {
    if s != [] && RunLength(less, s) < |s| {
      var n, m := RunLength(less, s), SecondEnd(less, s);
      OrdersSubset(less, all, s);
      FirstTwoRuns(less, s);
      MergeStable(less, s[..n], s[n..m], all, x);
      PassStable(less, s[m..], all, x);
      ClassJoin(less, Merge(less, s[..n], s[n..m]), Pass(less, s[m..]), x);
      Thirds(s, n, m);
      ClassJoin(less, s[..n] + s[n..m], s[m..], x);
      ClassJoin(less, s[..n], s[n..m], x);
    }
  }

  /** The output of a pass has at most as many runs as the pass counted. */
  lemma {:induction false} PassOutputRuns<X>(less: (X, X) -> bool, s: seq<X>)
    requires Orders(less, s)
    ensures Runs(less, Pass(less, s)) <= PassRuns(less, s)
  {
    if s != [] {
      var n := RunLength(less, s);
      if n == |s| {
        FirstRunSorted(less, s);
        assert s[..n] == s;
        NoDescents(less, s);
      } else {
        var m := SecondEnd(less, s);
        FirstTwoRuns(less, s);
        var merged := Merge(less, s[..n], s[n..m]);
        MergeSorted(less, s[..n], s[n..m]);
        NoDescents(less, merged);
        OrdersSubset(less, s, s[m..]);
        PassOutputRuns(less, s[m..]);
        RunsJoin(less, merged, Pass(less, s[m..]));
      }
    }
  }

  lemma RunsJoin<X>(less: (X, X) -> bool, a: seq<X>, b: seq<X>)
    ensures Runs(less, a + b) <= Runs(less, a) + Runs(less, b)
  {
    if a == [] || b == [] {
      assert a + b == if a == [] then b else a;
    } else {
      DescentsJoin(less, a, b);
    }
  }

  lemma PassKeepsOrder<X>(less: (X, X) -> bool, s: seq<X>)
    requires Orders(less, s)
    ensures Orders(less, Pass(less, s))
  {
    PassElements(less, s);
    forall x | x in Pass(less, s) ensures x in s {
      assert x in multiset(Pass(less, s));
    }
    OrdersSubset(less, s, Pass(less, s));
  }

  /** Why `list_sort` terminates: a pass leaves at most ceil(R / 2) of R runs. */
  lemma PassShrinks<X>(less: (X, X) -> bool, s: seq<X>)
    requires Orders(less, s)
    ensures Orders(less, Pass(less, s))
    ensures Runs(less, Pass(less, s)) <= (Runs(less, s) + 1) / 2
    ensures PassRuns(less, s) > 1 ==> Runs(less, Pass(less, s)) < Runs(less, s)
  {
    PassKeepsOrder(less, s);
    PassRunsIsHalf(less, s);
    PassOutputRuns(less, s);
  }

  lemma {:induction false} DescentsZero<X>(less: (X, X) -> bool, s: seq<X>, i: nat)
    requires Descents(less, s) == 0 && 1 <= i < |s|
    ensures !less(s[i], s[i - 1])
  {
    if i > 1 {
      DescentsZero(less, s[1..], i - 1);
    }
  }

  lemma OneRunIsSorted<X>(less: (X, X) -> bool, s: seq<X>)
    requires Orders(less, s) && Runs(less, s) <= 1
    ensures Sorted(less, s)
  {
    forall i | 1 <= i < |s| ensures !less(s[i], s[i - 1]) {
      DescentsZero(less, s, i);
    }
    AscendingIsSorted(less, s);
  }

  /** The main theorem: the natural merge sort is a stable sort. */
  lemma {:induction false} MergeSortCorrect<X>(less: (X, X) -> bool, s: seq<X>)
    requires Orders(less, s)
    ensures IsStableSort(less, s, MergeSort(less, s))
    decreases Runs(less, s)
  {
    var p := Pass(less, s);
    PassShrinks(less, s);
    PassElements(less, s);
    forall x | x in s ensures Class(less, p, x) == Class(less, s, x) {
      PassStable(less, s, s, x);
    }
    if PassRuns(less, s) <= 1 {
      PassOutputRuns(less, s);
      OneRunIsSorted(less, p);
    } else {
      MergeSortCorrect(less, p);
      forall x | x in s ensures Class(less, MergeSort(less, p), x) == Class(less, s, x) {
        assert x in multiset(p);
        assert x in p;
      }
    }
  }

  /** A stable sort has only one possible result, so `IsStableSort` pins `MergeSort` down. */
  lemma {:induction false} StableSortUnique<X>(less: (X, X) -> bool, s: seq<X>, r: seq<X>, q: seq<X>)
    requires Orders(less, s) && IsStableSort(less, s, r) && IsStableSort(less, s, q)
    ensures r == q
  {
    forall x | x in r ensures x in s {
      assert x in multiset(r);
    }
    SameClassesSame(less, s, r, q);
  }

  lemma {:induction false} SameClassesSame<X>(less: (X, X) -> bool, all: seq<X>, r: seq<X>, q: seq<X>)
    requires Orders(less, all)
    requires multiset(r) == multiset(q)
    requires forall x | x in r :: x in all
    requires Sorted(less, r) && Sorted(less, q)
    requires forall x | x in all :: Class(less, r, x) == Class(less, q, x)
    ensures r == q
  {
    assert |r| == |multiset(r)| == |multiset(q)| == |q|;
    if r != [] {
      hide Sorted, Orders, Class, Equivalent;
      HeadsEquivalent(less, all, r, q);
      ClassHead(less, r, r[0]);
      ClassHead(less, q, r[0]);
      SameTail(r, q);
      TailSorted(less, r);
      TailSorted(less, q);
      forall x | x in all ensures Class(less, r[1..], x) == Class(less, q[1..], x) {
        ClassTails(less, r, q, x);
      }
      SameClassesSame(less, all, r[1..], q[1..]);
    }
  }

  lemma ClassHead<X>(less: (X, X) -> bool, s: seq<X>, x: X)
    requires s != [] && Equivalent(less, s[0], x)
    ensures Class(less, s, x) != [] && Class(less, s, x)[0] == s[0]
  {
  }

  lemma SameTail<X>(r: seq<X>, q: seq<X>)
    requires r != [] && q != [] && r[0] == q[0] && multiset(r) == multiset(q)
    ensures multiset(r[1..]) == multiset(q[1..])
  {
    assert r == [r[0]] + r[1..] && q == [q[0]] + q[1..];
    assert multiset(r[1..]) == multiset(r) - multiset{r[0]};
    assert multiset(q[1..]) == multiset(q) - multiset{q[0]};
  }

  lemma TailSorted<X>(less: (X, X) -> bool, s: seq<X>)
    requires s != [] && Sorted(less, s)
    ensures Sorted(less, s[1..])
  {
  }

  lemma ClassTails<X>(less: (X, X) -> bool, r: seq<X>, q: seq<X>, x: X)
    requires r != [] && q != [] && r[0] == q[0] && Class(less, r, x) == Class(less, q, x)
    ensures Class(less, r[1..], x) == Class(less, q[1..], x)
  {
    var h := if Equivalent(less, r[0], x) then [r[0]] else [];
    assert Class(less, r, x) == h + Class(less, r[1..], x);
    assert Class(less, q, x) == h + Class(less, q[1..], x);
    assert (h + Class(less, r[1..], x))[|h|..] == Class(less, r[1..], x);
    assert (h + Class(less, q[1..], x))[|h|..] == Class(less, q[1..], x);
  }

  lemma HeadsEquivalent<X>(less: (X, X) -> bool, all: seq<X>, r: seq<X>, q: seq<X>)
    requires Orders(less, all) && r != [] && q != []
    requires multiset(r) == multiset(q) && forall x | x in r :: x in all
    requires Sorted(less, r) && Sorted(less, q)
    ensures Equivalent(less, r[0], q[0]) && Equivalent(less, q[0], r[0])
    ensures Equivalent(less, r[0], r[0])
  {
    assert r[0] in multiset(r) && q[0] in multiset(q);
    assert r[0] in q && q[0] in r;
    var i :| 0 <= i < |q| && q[i] == r[0];
    var j :| 0 <= j < |r| && r[j] == q[0];
    assert !less(r[0], q[0]) by {
      if i == 0 { assert r[0] in all; }
    }
    assert !less(q[0], r[0]) by {
      if j == 0 { assert r[0] in all; }
    }
  }
}
