/**
 The kernel's doubly linked list (lib/kernel/list.c) at pointer level.

 A list is a head and a tail element with the interior elements between them.
 The ghost sequence `nodes` names all of them from head to tail; `Linked(nodes)`
 says that the `prev` and `next` pointers in the heap spell out that sequence.
 Every operation is proved to turn `Linked(s)` into `Linked(s')` for the
 sequence `s'` that the operation is meant to produce.
 */
module KernelList {
  import opened Sequences
  import opened NaturalMergeSort
  import opened Words

  class Elem {
    var prev: Elem?
    var next: Elem?

    constructor ()
      ensures prev == null && next == null
    {
      prev, next := null, null;
    }
  }

  /** Consecutive elements of `s` point at each other. */
  ghost predicate Chained(s: seq<Elem>)
    reads s
  {
    && (forall i {:trigger s[i].next} :: 0 <= i < |s| - 1 ==> s[i].next == s[i + 1])
    && (forall i {:trigger s[i].prev} :: 1 <= i < |s| ==> s[i].prev == s[i - 1])
  }

  /** The heap spells out the list `s`, from its head to its tail. */
  ghost predicate Linked(s: seq<Elem>)
    reads s
  {
    && |s| >= 2
    && NoDup(s)
    && Chained(s)
    && s[0].prev == null
    && s[|s| - 1].next == null
  }

  ghost predicate Disjoint(s: seq<Elem>, t: seq<Elem>) {
    forall i, j :: 0 <= i < |s| && 0 <= j < |t| ==> s[i] != t[j]
  }

  function Inserted<X>(s: seq<X>, k: nat, seg: seq<X>): seq<X>
    requires k <= |s|
  {
    s[..k] + seg + s[k..]
  }

  function Removed<X>(s: seq<X>, i: nat, j: nat): seq<X>
    requires i <= j <= |s|
  {
    s[..i] + s[j..]
  }

  lemma NoDupInserted<X>(t: seq<X>, k: nat, seg: seq<X>)
    requires k <= |t| && NoDup(t) && NoDup(seg)
    requires forall i, j :: 0 <= i < |seg| && 0 <= j < |t| ==> seg[i] != t[j]
    ensures NoDup(Inserted(t, k, seg))
  {
    var r := Inserted(t, k, seg);
    forall i, j | 0 <= i < j < |r| ensures r[i] != r[j] {
      assert r[i] == if i < k then t[i] else if i < k + |seg| then seg[i - k] else t[i - |seg|];
      assert r[j] == if j < k then t[j] else if j < k + |seg| then seg[j - k] else t[j - |seg|];
    }
  }

  /** `list_insert`: puts `elem` just before `before`. */
  method Insert(before: Elem, elem: Elem, ghost s: seq<Elem>, ghost k: nat)
    requires Linked(s) && 1 <= k < |s| && s[k] == before && elem !in s
    modifies s[k - 1], s[k], elem
    ensures Linked(Inserted(s, k, [elem]))
  {
    elem.prev := before.prev;
    elem.next := before;
    before.prev.next := elem;
    before.prev := elem;
  }

  /** `list_remove`: takes `elem` out and returns the element that followed it. */
  method Remove(elem: Elem, ghost s: seq<Elem>, ghost k: nat) returns (after: Elem)
    requires Linked(s) && 1 <= k < |s| - 1 && s[k] == elem
    modifies s[k - 1], s[k + 1]
    ensures Linked(Removed(s, k, k + 1))
    ensures after == s[k + 1]
  {
    elem.prev.next := elem.next;
    elem.next.prev := elem.prev;
    after := elem.next;
  }

  /** First half of `list_splice`: cuts `first` .. `last` (inclusive) out of its list. */
  method CutOut(first: Elem, last: Elem, ghost s: seq<Elem>, ghost i: nat, ghost j: nat)
    requires Linked(s) && 1 <= i < j < |s| && s[i] == first && s[j - 1] == last
    modifies s[i - 1], s[j]
    ensures Linked(Removed(s, i, j))
    ensures Chained(s[i..j]) && s[i..j][0] == first && s[i..j][j - i - 1] == last
  {
    first.prev.next := last.next;
    last.next.prev := first.prev;
  }

  /** Second half of `list_splice`: ties the chain `seg` in before `before`. */
  method TieIn(before: Elem, first: Elem, last: Elem, ghost t: seq<Elem>, ghost k: nat, ghost seg: seq<Elem>)
    requires Linked(t) && 1 <= k < |t| && t[k] == before
    requires Chained(seg) && NoDup(seg) && Disjoint(seg, t)
    requires seg != [] && seg[0] == first && seg[|seg| - 1] == last
    modifies t[k - 1], t[k], first, last
    ensures Linked(Inserted(t, k, seg))
  {
    ghost var r := Inserted(t, k, seg);
    NoDupInserted(t, k, seg);
    first.prev := before.prev;
    last.next := before;
    before.prev.next := first;
    before.prev := last;
    forall m | 0 <= m < |r| - 1 ensures r[m].next == r[m + 1] {
      if m < k {
        assert r[m] == t[m];
      } else if m < k + |seg| {
        assert r[m] == seg[m - k];
      } else {
        assert r[m] == t[m - |seg|];
      }
    }
    forall m | 1 <= m < |r| ensures r[m].prev == r[m - 1] {
      if m < k {
        assert r[m] == t[m];
      } else if m < k + |seg| {
        assert r[m] == seg[m - k];
      } else {
        assert r[m] == t[m - |seg|];
      }
    }
    assert r[0] == t[0] && r[|r| - 1] == t[|t| - 1];
  }

  /**
   `list_splice`: moves the elements from `first` up to but excluding `last` to
   just before `before`.  `s` is the list they come from; `t` is the list they go
   to as it is once they are gone, so that moves within one list and between two
   lists are the same case.
   */
  method Splice(before: Elem, first: Elem, last: Elem,
                ghost s: seq<Elem>, ghost i: nat, ghost j: nat, ghost t: seq<Elem>, ghost k: nat)
    requires Linked(s) && 1 <= i <= j < |s| && s[i] == first && s[j] == last
    requires 1 <= k < |t| && t[k] == before
    requires t == Removed(s, i, j) || (Linked(t) && Disjoint(s, t))
    modifies s, t
    ensures Linked(Inserted(t, k, s[i..j]))
    ensures t != Removed(s, i, j) ==> Linked(Removed(s, i, j))
  {
    if first == last {
      assert Removed(s, i, j) == s;
      assert Inserted(t, k, s[i..j]) == t;
      return;
    }
    var end := last.prev;
    CutOut(first, end, s, i, j);
    TieIn(before, first, end, t, k, s[i..j]);
  }

  // ----- Walking a list

  lemma NextOf(s: seq<Elem>, i: nat)
    requires Linked(s) && i < |s| - 1
    ensures s[i].next == s[i + 1]
  {
  }

  lemma PrevOf(s: seq<Elem>, i: nat)
    requires Linked(s) && 1 <= i < |s|
    ensures s[i].prev == s[i - 1]
  {
  }

  lemma SamePlace(s: seq<Elem>, i: nat, j: nat)
    requires Linked(s) && i < |s| && j < |s| && s[i] == s[j]
    ensures i == j
  {
  }

  // ----- Sorting

  /** `is_sorted`: compares neighbours only. */
  method IsSorted(a: Elem, b: Elem, less: (Elem, Elem) -> bool, ghost s: seq<Elem>, ghost i: nat, ghost j: nat)
    returns (yes: bool)
    requires Linked(s) && 0 <= i <= j < |s| && s[i] == a && s[j] == b && Orders(less, s[i..j])
    ensures yes <==> Sorted(less, s[i..j])
  {
    ghost var t := s[i..j];
    if a != b {
      var x := a.next;
      ghost var m := i + 1;
      while x != b
        invariant i + 1 <= m <= j && x == s[m]
        invariant forall k :: i < k < m ==> !less(s[k], s[k - 1])
        decreases j - m
      {
        if less(x, x.prev) {
          assert less(t[m - i], t[m - i - 1]);
          return false;
        }
        x := x.next;
        m := m + 1;
      }
      forall k | 1 <= k < |t| ensures !less(t[k], t[k - 1]) {
        assert t[k] == s[i + k] && t[k - 1] == s[i + k - 1];
      }
      AscendingIsSorted(less, t);
    }
    yes := true;
  }

  /** `find_end_of_run`. */
  method FindEndOfRun(a: Elem, b: Elem, less: (Elem, Elem) -> bool, ghost s: seq<Elem>, ghost i: nat, ghost j: nat)
    returns (end: Elem, ghost m: nat)
    requires Linked(s) && 0 <= i < j < |s| && s[i] == a && s[j] == b
    ensures m == i + RunLength(less, s[i..j]) && end == s[m]
  {
    end := a.next;
    m := i + 1;
    while end != b && !less(end, end.prev)
      invariant i + 1 <= m <= j && end == s[m]
      invariant RunLength(less, s[i..j]) == m - i - 1 + RunLength(less, s[m - 1..j])
      decreases j - m
    {
      assert s[m - 1..j][1..] == s[m..j];
      end := end.next;
      m := m + 1;
    }
  }

  /**
   `inplace_merge`: merges the adjacent sorted ranges [a0, a1b0) and [a1b0, b1).
   `s` is the list before; the list after is returned as `r`.
   */
  method InplaceMerge(a0: Elem, a1b0: Elem, b1: Elem, less: (Elem, Elem) -> bool,
                      ghost s: seq<Elem>, ghost i: nat, ghost n: nat, ghost j: nat)
    returns (ghost r: seq<Elem>)
    requires Linked(s) && 1 <= i < n < j < |s| && s[i] == a0 && s[n] == a1b0 && s[j] == b1
    modifies s
    ensures Linked(r)
    ensures forall k :: 0 <= k < |r| ==> r[k] in s
    ensures r == s[..i] + Merge(less, s[i..n], s[n..j]) + s[j..]
  {
    hide *;
    var a, b := a0, a1b0;
    ghost var p, q := i, n;
    r := s;
    while a != b && b != b1
      invariant 1 <= p <= q <= j && |r| == |s| && Linked(r)
      invariant r[p] == a && r[q] == b && r[j] == b1
      invariant forall k :: 0 <= k < |r| ==> r[k] in s
      invariant r[j..] == s[j..]
      invariant r[..p] + Merge(less, r[p..q], r[q..j]) == s[..i] + Merge(less, s[i..n], s[n..j])
      decreases j - p
    {
      if !less(b, a) {
        MergeSkip(less, r, p, q, j);
        NextOf(r, p);
        a := a.next;
        p := p + 1;
      } else {
        NextOf(r, q);
        b := b.next;
        ghost var was := r;
        r := MoveUp(a, b, r, p, q);
        MergeStep(less, was, r, p, q, j);
        StillIn(r, was, s);
        p, q := p + 1, q + 1;
      }
    }
    if a == b {
      SamePlace(r, p, q);
    } else {
      SamePlace(r, q, j);
    }
    MergeDone(less, r, p, q, j);
  }

  lemma StillIn(r: seq<Elem>, was: seq<Elem>, s: seq<Elem>)
    requires forall k :: 0 <= k < |r| ==> r[k] in was
    requires forall k :: 0 <= k < |was| ==> was[k] in s
    ensures forall k :: 0 <= k < |r| ==> r[k] in s
  {
  }

  /** The list after one splice of `inplace_merge`: element `q` moved up to `p`. */
  lemma Moved(r: seq<Elem>, r': seq<Elem>, p: nat, q: nat)
    requires p < q < |r|
    requires r' == Inserted(Removed(r, q, q + 1), p, r[q..q + 1])
    ensures r' == r[..p] + [r[q]] + r[p..q] + r[q + 1..]
    ensures |r'| == |r|
    ensures r'[p + 1] == r[p]
    ensures forall m :: q < m < |r| ==> r'[m] == r[m]
    ensures forall k :: 0 <= k < |r'| ==> r'[k] in r
  {
    assert r' == r[..p] + [r[q]] + r[p..q] + r[q + 1..];
    forall k | 0 <= k < |r'| ensures r'[k] in r {
      assert r'[k] == r[if k < p || q < k then k else if k == p then q else k - 1];
    }
  }

  /** The call `list_splice (a0, list_prev (a1b0), a1b0)` in `inplace_merge`. */
  method MoveUp(a: Elem, b: Elem, ghost r: seq<Elem>, ghost p: nat, ghost q: nat) returns (ghost r': seq<Elem>)
    requires Linked(r) && 1 <= p < q < |r| - 1 && r[p] == a && r[q + 1] == b
    modifies r
    ensures Linked(r')
    ensures r' == r[..p] + [r[q]] + r[p..q] + r[q + 1..]
    ensures |r'| == |r| && r'[p + 1] == a
    ensures forall m :: q < m < |r| ==> r'[m] == r[m]
    ensures forall k :: 0 <= k < |r'| ==> r'[k] in r
  {
    hide Linked;
    r' := Inserted(Removed(r, q, q + 1), p, r[q..q + 1]);
    PrevOf(r, q + 1);
    Moved(r, r', p, q);
    Splice(a, b.prev, b, r, q, q + 1, Removed(r, q, q + 1), p);
  }

  lemma MergeStep(less: (Elem, Elem) -> bool, r: seq<Elem>, r': seq<Elem>, p: nat, q: nat, j: nat)
    requires p < q < j <= |r|
    requires less(r[q], r[p])
    requires r' == r[..p] + [r[q]] + r[p..q] + r[q + 1..]
    ensures |r'| == |r| && r'[j..] == r[j..]
    ensures r'[..p + 1] + Merge(less, r'[p + 1..q + 1], r'[q + 1..j])
         == r[..p] + Merge(less, r[p..q], r[q..j])
  {
    assert r'[..p + 1] == r[..p] + [r[q]];
    assert r'[p + 1..q + 1] == r[p..q];
    var b := r[q..j];
    assert r'[q + 1..j] == b[1..];
    assert r[p..q][0] == r[p] && b[0] == r[q];
    var rest := Merge(less, r[p..q], b[1..]);
    assert Merge(less, r[p..q], b) == [r[q]] + rest;
    assert r[..p] + [r[q]] + rest == r[..p] + ([r[q]] + rest);
  }

  lemma MergeSkip(less: (Elem, Elem) -> bool, r: seq<Elem>, p: nat, q: nat, j: nat)
    requires p < q < j <= |r|
    requires !less(r[q], r[p])
    ensures r[..p + 1] + Merge(less, r[p + 1..q], r[q..j]) == r[..p] + Merge(less, r[p..q], r[q..j])
  {
    var a := r[p..q];
    assert r[p + 1..q] == a[1..];
    assert a[0] == r[p] && r[q..j][0] == r[q];
    var rest := Merge(less, a[1..], r[q..j]);
    assert r[..p + 1] == r[..p] + [r[p]];
    assert r[..p] + [r[p]] + rest == r[..p] + ([r[p]] + rest);
  }

  lemma MergeDone(less: (Elem, Elem) -> bool, r: seq<Elem>, p: nat, q: nat, j: nat)
    requires p <= q <= j <= |r| && (p == q || q == j)
    ensures r == r[..p] + Merge(less, r[p..q], r[q..j]) + r[j..]
  {
    if p == q {
      assert r == r[..p] + r[q..j] + r[j..];
    } else {
      assert r == r[..p] + r[p..q] + r[j..];
    }
  }

  class List {
    const head: Elem
    const tail: Elem
    ghost var elems: seq<Elem>

    ghost function Nodes(): seq<Elem>
      reads this
    {
      [head] + elems + [tail]
    }

    ghost predicate Valid()
      reads this, Nodes()
    {
      Linked(Nodes())
    }

    /** `list_init`. */
    constructor ()
      ensures Valid() && elems == [] && fresh(head) && fresh(tail)
    {
      var h := new Elem();
      var t := new Elem();
      h.next := t;
      t.prev := h;
      head, tail := h, t;
      elems := [];
    }

    /** `list_push_back`. */
    method PushBack(e: Elem)
      requires Valid() && e !in Nodes()
      modifies this, Nodes(), e
      ensures Valid() && elems == old(elems) + [e]
    {
      ghost var s := Nodes();
      Insert(tail, e, s, |s| - 1);
      elems := elems + [e];
      assert Nodes() == Inserted(s, |s| - 1, [e]);
    }

    /** `list_pop_front`. */
    method PopFront() returns (e: Elem)
      requires Valid() && elems != []
      modifies this, Nodes()
      ensures Valid() && e == old(elems)[0] && elems == old(elems)[1..]
    {
      ghost var s := Nodes();
      e := head.next;
      var _ := Remove(e, s, 1);
      elems := elems[1..];
      assert Nodes() == Removed(s, 1, 2);
    }

    /** `list_reverse`. */
    method Reverse()
      requires Valid()
      modifies this, Nodes()
      ensures Valid()
      ensures elems == Reversed(old(elems))
    {
      if head.next != tail {
        ghost var s := Nodes();
        ghost var n := |s|;
        var e := head.next;
        ghost var m := 1;
        while e != tail
          invariant 1 <= m <= n - 1 && e == s[m] && elems == old(elems)
          invariant HalfReversed(s, m)
          decreases n - m
        {
          e := TurnLinks(e, s, m);
          m := m + 1;
        }
        TurnEnds(s);
        elems := Reversed(elems);
      }
    }

    /** One round of the loop of `list_reverse`. */
    method TurnLinks(e: Elem, ghost s: seq<Elem>, ghost m: nat) returns (next: Elem)
      requires HalfReversed(s, m) && 1 <= m < |s| - 1 && e == s[m]
      modifies e
      ensures HalfReversed(s, m + 1) && next == s[m + 1]
    {
      e.prev, e.next := e.next, e.prev;
      next := e.prev;
    }

    /** The end of `list_reverse`: head and tail change their neighbours. */
    method TurnEnds(ghost s: seq<Elem>)
      requires |s| >= 3 && s[0] == head && s[|s| - 1] == tail && HalfReversed(s, |s| - 1)
      modifies s
      ensures Linked([s[0]] + Reversed(s[1..|s| - 1]) + [s[|s| - 1]])
    {
      head.next, tail.prev := tail.prev, head.next;
      head.next.prev, tail.prev.next := tail.prev.next, head.next.prev;
      AllReversed(s, [s[0]] + Reversed(s[1..|s| - 1]) + [s[|s| - 1]]);
    }

    /**
     `list_sort`: repeated passes that merge neighbouring runs.
     `passes` counts them: with R > 1 runs at the start, at most 1 + log2(R - 1).
     */
    method Sort(less: (Elem, Elem) -> bool) returns (ghost passes: nat)
      requires Valid() && Orders(less, elems)
      modifies this, Nodes()
      ensures Valid()
      ensures elems == MergeSort(less, old(elems))
      ensures IsStableSort(less, old(elems), elems)
      ensures passes >= 1
      ensures passes >= 2 ==> Pow2(passes - 1) < Runs(less, old(elems))
    {
      hide Linked, Orders, Runs, Pass, PassRuns, MergeSort, IsStableSort, Pow2;
      ghost var was := elems;
      MergeSortCorrect(less, was);
      var outputRuns := SortPass(less);
      passes := 1;
      PassFacts(less, was);
      FirstHalving(outputRuns, Runs(less, was));
      while outputRuns > 1
        invariant Valid() && Orders(less, elems)
        invariant forall k :: 0 <= k < |Nodes()| ==> Nodes()[k] in old(Nodes())
        invariant passes >= 1
        invariant Runs(less, elems) <= outputRuns
        invariant outputRuns > 1 ==> Pow2(passes) * (outputRuns - 1) < Runs(less, was)
        invariant MergeSort(less, was) == if outputRuns > 1 then MergeSort(less, elems) else elems
        invariant passes >= 2 ==> Pow2(passes - 1) < Runs(less, was)
        decreases outputRuns
      {
        ghost var before, count := elems, outputRuns;
        outputRuns := SortPass(less);
        PassFacts(less, before);
        HalvingCount(passes, count, outputRuns, Runs(less, was));
        passes := passes + 1;
      }
    }

    /** One iteration of the outer loop of `list_sort`; returns its `output_run_cnt`. */
    method SortPass(less: (Elem, Elem) -> bool) returns (outputRuns: nat)
      requires Valid()
      modifies this, Nodes()
      ensures Valid()
      ensures elems == Pass(less, old(elems))
      ensures outputRuns == PassRuns(less, old(elems))
      ensures forall k :: 0 <= k < |Nodes()| ==> Nodes()[k] in old(Nodes())
    {
      hide Linked, Pass, PassRuns, MergedHead, HeadLength;
      ghost var was := elems;
      outputRuns := 0;
      NextOf(Nodes(), 0);
      var a0 := head.next;
      ghost var p := 0;   // elems[..p] is output, elems[p..] still to be read
      while a0 != tail
        invariant Valid() && |elems| == |was| && 0 <= p <= |elems|
        invariant a0 == Nodes()[p + 1]
        invariant forall k :: 0 <= k < |Nodes()| ==> Nodes()[k] in old(Nodes())
        invariant elems[p..] == was[p..]
        invariant elems[..p] + Pass(less, was[p..]) == Pass(less, was)
        invariant outputRuns + PassRuns(less, was[p..]) == PassRuns(less, was)
        decreases |was| - p
      {
        ghost var before := elems;
        ghost var m;
        a0, m := MergeNextRuns(a0, less, p);
        PassAdvance(less, was, before, elems, p, m);
        p := m;
        outputRuns := outputRuns + 1;
      }
      SamePlace(Nodes(), p + 1, |elems| + 1);
      PassOfNothing(less, was[p..]);
      assert elems == elems[..p] + [];
    }

    /** One iteration of the inner loop of `list_sort`, from the `p`th element on. */
    method MergeNextRuns(a0: Elem, less: (Elem, Elem) -> bool, ghost p: nat) returns (b1: Elem, ghost m: nat)
      requires Valid() && p < |elems| && a0 == elems[p]
      modifies this, Nodes()
      ensures Valid()
      ensures m == p + HeadLength(less, old(elems)[p..])
      ensures elems == old(elems)[..p] + MergedHead(less, old(elems)[p..]) + old(elems)[m..]
      ensures b1 == Nodes()[m + 1]
      ensures forall k :: 0 <= k < |Nodes()| ==> Nodes()[k] in old(Nodes())
    {
      hide Linked, HeadLength, MergedHead, RunLength, SecondEnd, Merge;
      ghost var was, s := elems, Nodes();
      assert s[p + 1..|s| - 1] == was[p..];
      var a1b0, n := FindEndOfRun(a0, tail, less, s, p + 1, |s| - 1);
      if a1b0 == tail {
        SamePlace(s, n, |s| - 1);
        WholeRun(less, was, p);
        return tail, |was|;
      }
      b1, m := MergeTwoRuns(a0, a1b0, less, p, n);
    }

    /** The two runs that begin at `a0` and at `a1b0`. */
    method MergeTwoRuns(a0: Elem, a1b0: Elem, less: (Elem, Elem) -> bool, ghost p: nat, ghost n: nat)
      returns (b1: Elem, ghost m: nat)
      requires Valid() && p < |elems| && a0 == elems[p]
      requires n == p + 1 + RunLength(less, elems[p..]) && p + 1 < n < |Nodes()| - 1 && a1b0 == Nodes()[n]
      modifies this, Nodes()
      ensures Valid()
      ensures m == p + HeadLength(less, old(elems)[p..])
      ensures elems == old(elems)[..p] + MergedHead(less, old(elems)[p..]) + old(elems)[m..]
      ensures b1 == Nodes()[m + 1]
      ensures forall k :: 0 <= k < |Nodes()| ==> Nodes()[k] in old(Nodes())
    {
      hide Linked, HeadLength, MergedHead, RunLength, SecondEnd, Merge;
      hide List.Nodes;
      NodesAre();
      ghost var was, s, k := elems, Nodes(), 0;
      b1, k := FindEndOfRun(a1b0, tail, less, s, n, |s| - 1);
      m := k - 1;
      RunsInPlace(less, was, s, p, n, k);
      ghost var r := InplaceMerge(a0, a1b0, b1, less, s, p + 1, n, k);
      ghost var merged := MergedHead(less, was[p..]);
      elems := was[..p] + merged + was[m..];
      NodesAround(s, was, merged, p, k, r, [head] + elems + [tail]);
      NodesAre();
    }

    lemma NodesAre()
      ensures Nodes() == [head] + elems + [tail] && |Nodes()| == |elems| + 2 && elems == Nodes()[1..|Nodes()| - 1]
      ensures Nodes()[0] == head && Nodes()[|Nodes()| - 1] == tail
    {
    }

    /** The loop of `list_insert_ordered`. */
    method PlaceFor(elem: Elem, less: (Elem, Elem) -> bool) returns (e: Elem, ghost k: nat)
      requires Valid()
      ensures k <= |elems| && e == Nodes()[k + 1]
      ensures forall i :: 0 <= i < k ==> !less(elem, elems[i])
      ensures k < |elems| ==> less(elem, elems[k])
    {
      hide Linked;
      ghost var s := Nodes();
      NextOf(s, 0);
      e := head.next;
      k := 0;
      while e != tail
        invariant k <= |elems| && e == s[k + 1]
        invariant forall i :: 0 <= i < k ==> !less(elem, elems[i])
        decreases |elems| - k
      {
        if less(elem, e) {
          return;
        }
        NextOf(s, k + 1);
        e := e.next;
        k := k + 1;
      }
      SamePlace(s, k + 1, |s| - 1);
    }

    /**
     `list_insert_ordered`: behind the elements that `elem` is not less than, and
     so behind those equivalent to it, and before the others.
     */
    method InsertOrdered(elem: Elem, less: (Elem, Elem) -> bool) returns (ghost k: nat)
      requires Valid() && elem !in Nodes()
      modifies this, Nodes(), elem
      ensures Valid() && k <= |old(elems)| && elems == old(elems)[..k] + [elem] + old(elems)[k..]
      ensures forall i :: 0 <= i < k ==> !less(elem, old(elems)[i])
      ensures k < |old(elems)| ==> less(elem, old(elems)[k])
      ensures Orders(less, old(elems) + [elem]) && Sorted(less, old(elems)) ==>
                Sorted(less, elems) && forall i :: k <= i < |old(elems)| ==> less(elem, old(elems)[i])
    {
      hide Linked, Orders, Sorted;
      ghost var s := Nodes();
      var e;
      e, k := PlaceFor(elem, less);
      InsertedSorted(less, elems, elem, k);
      Insert(e, elem, s, k + 1);
      elems := elems[..k] + [elem] + elems[k..];
      assert Nodes() == Inserted(s, k + 1, [elem]);
    }

    /** `list_remove` of an interior element. */
    method TakeOut(e: Elem, ghost k: nat)
      requires Valid() && k < |elems| && elems[k] == e
      modifies this, Nodes()
      ensures Valid() && elems == old(elems)[..k] + old(elems)[k + 1..] && e !in Nodes()
      ensures forall i :: 0 <= i < |Nodes()| ==> Nodes()[i] in old(Nodes())
    {
      ghost var s := Nodes();
      NoDupNodes(s);
      hide Linked;
      var _ := Remove(e, s, k + 1);
      elems := elems[..k] + elems[k + 1..];
      assert Nodes() == Removed(s, k + 1, k + 2);
    }

    /** The removal in `list_unique`: element `k` goes to the end of `duplicates`. */
    method MoveOut(e: Elem, ghost k: nat, duplicates: List)
      requires Valid() && k < |elems| && elems[k] == e
      requires duplicates != this && duplicates.Valid() && Apart(Nodes(), duplicates.Nodes())
      modifies this, Nodes(), duplicates, duplicates.Nodes()
      ensures Valid() && elems == old(elems)[..k] + old(elems)[k + 1..]
      ensures duplicates.Valid() && duplicates.elems == old(duplicates.elems) + [e] && Apart(Nodes(), duplicates.Nodes())
      ensures forall i :: 0 <= i < |Nodes()| ==> Nodes()[i] in old(Nodes())
      ensures forall x :: x in duplicates.Nodes() ==> x == e || x in old(duplicates.Nodes())
    {
      assert e in Nodes();
      TakeOut(e, k);
      duplicates.PushBack(e);
    }

    /** A removal of `list_unique`, with or without a list of duplicates. */
    method Discard(e: Elem, ghost k: nat, duplicates: List?)
      requires Valid() && k < |elems| && elems[k] == e
      requires duplicates != null ==> duplicates != this && duplicates.Valid() && Apart(Nodes(), duplicates.Nodes())
      modifies this, Nodes(), duplicates, if duplicates == null then [] else duplicates.Nodes()
      ensures Valid() && elems == old(elems)[..k] + old(elems)[k + 1..]
      ensures forall i :: 0 <= i < |Nodes()| ==> Nodes()[i] in old(Nodes())
      ensures duplicates != null ==>
                && duplicates.Valid() && duplicates.elems == old(duplicates.elems) + [e] && Apart(Nodes(), duplicates.Nodes())
                && forall x :: x in duplicates.Nodes() ==> x == e || x in old(duplicates.Nodes())
    {
      hide Linked, Apart;
      if duplicates == null {
        TakeOut(e, k);
      } else {
        MoveOut(e, k, duplicates);
      }
    }

    lemma NodesAt(m: nat)
      requires m <= |elems|
      ensures |Nodes()| == |elems| + 2 && elems == Nodes()[1..|Nodes()| - 1]
      ensures Nodes()[0] == head && Nodes()[|Nodes()| - 1] == tail
      ensures m > 0 ==> Nodes()[m] == elems[m - 1]
    {
    }

    /** One round of the loop of `list_unique`. */
    method UniqueStep(elem: Elem, next: Elem, less: (Elem, Elem) -> bool, duplicates: List?,
                      ghost was: seq<Elem>, ghost added: seq<Elem>, ghost n: nat, ghost m: nat)
      returns (elem': Elem, ghost m': nat)
      requires Valid() && Halfway(less, was, elems, n, m) && 1 <= m <= |elems| && n <= |was|
      requires elem == elems[m - 1] && next == Nodes()[m + 1] && next != tail
      requires duplicates != null ==>
                 && duplicates != this && duplicates.Valid() && Apart(Nodes(), duplicates.Nodes())
                 && duplicates.elems == added + Dropped(less, was[..n])
      modifies this, Nodes(), duplicates, if duplicates == null then [] else duplicates.Nodes()
      ensures Valid() && n < |was| && Halfway(less, was, elems, n + 1, m') && 1 <= m' <= |elems|
      ensures elem' == elems[m' - 1]
      ensures forall i :: 0 <= i < |Nodes()| ==> Nodes()[i] in old(Nodes())
      ensures duplicates != null ==>
                && duplicates.Valid() && Apart(Nodes(), duplicates.Nodes())
                && duplicates.elems == added + Dropped(less, was[..n + 1])
                && forall k :: 0 <= k < |duplicates.Nodes()| ==>
                     duplicates.Nodes()[k] in old(Nodes()) || duplicates.Nodes()[k] in old(duplicates.Nodes())
    {
      hide Linked, Kept, Dropped, Apart, Halfway;
      hide List.Nodes;
      NodesAt(m);
      NotAtEnd(Nodes(), elems, m);
      HalfwayNext(less, was, elems, n, m);
      elem', m' := elem, m;
      if !less(elem, next) && !less(next, elem) {
        Discard(next, m, duplicates);
      } else {
        elem', m' := next, m + 1;
      }
    }

    /**
     `list_unique`: of each group of neighbours that are equal to the first of the
     group, the first stays; the others go to `duplicates`, in their order.
     */
    method Unique(less: (Elem, Elem) -> bool, duplicates: List?)
      requires Valid()
      requires duplicates != null ==> duplicates != this && duplicates.Valid() && Apart(Nodes(), duplicates.Nodes())
      modifies this, Nodes(), duplicates, if duplicates == null then [] else duplicates.Nodes()
      ensures Valid() && elems == Kept(less, old(elems))
      ensures duplicates != null ==> duplicates.Valid() && duplicates.elems == old(duplicates.elems) + Dropped(less, old(elems))
    {
      hide Linked, Kept, Dropped, Apart, Halfway, List.Nodes;
      ghost var was := elems;
      NodesAt(0);
      NextOf(Nodes(), 0);
      if head.next == tail {
        SamePlace(Nodes(), 1, |elems| + 1);
        KeptNone(less, was);
        return;
      }
      ghost var mine, theirs := Nodes(), if duplicates == null then [] else duplicates.Nodes();
      ghost var added := if duplicates == null then [] else duplicates.elems;
      var elem: Elem := head.next;
      ghost var n, m := 1, 1;
      NotAtEnd(Nodes(), elems, 0);
      HalfwayFirst(less, was);
      NodesAt(1);
      NextOf(Nodes(), 1);
      var next: Elem := elem.next;
      while next != tail
        invariant Valid() && Halfway(less, was, elems, n, m) && 1 <= m <= |elems| && n <= |was|
        invariant |Nodes()| == |elems| + 2 && elem == elems[m - 1] && next == Nodes()[m + 1]
        invariant forall k :: 0 <= k < |Nodes()| ==> Nodes()[k] in mine
        invariant duplicates != null ==>
                    && duplicates.Valid() && duplicates.elems == added + Dropped(less, was[..n])
                    && Apart(Nodes(), duplicates.Nodes())
        invariant duplicates != null ==>
                    forall k :: 0 <= k < |duplicates.Nodes()| ==> duplicates.Nodes()[k] in mine || duplicates.Nodes()[k] in theirs
        decreases |was| - n
      {
        elem, m := UniqueStep(elem, next, less, duplicates, was, added, n, m);
        n := n + 1;
        NodesAt(m);
        NextOf(Nodes(), m);
        next := elem.next;
      }
      NodesAt(m);
      SamePlace(Nodes(), m + 1, |elems| + 1);
      HalfwayLast(less, was, elems, n, m);
    }
  }

  /** `list_unique` has looked at `n` elements of `was` and kept `m` of them. */
  ghost predicate Halfway<X>(less: (X, X) -> bool, was: seq<X>, elems: seq<X>, n: nat, m: nat) {
    1 <= m <= n <= |was| && m <= |elems| && m == |Kept(less, was[..n])| && elems == Kept(less, was[..n]) + was[n..]
  }

  lemma HalfwayFirst<X>(less: (X, X) -> bool, was: seq<X>)
    requires was != []
    ensures Halfway(less, was, was, 1, 1) && Dropped(less, was[..1]) == []
  {
    assert was[..1][..0] == [];
    assert Kept(less, was[..1]) == was[..1];
  }

  lemma HalfwayNext<X>(less: (X, X) -> bool, was: seq<X>, elems: seq<X>, n: nat, m: nat)
    requires Halfway(less, was, elems, n, m) && m < |elems|
    ensures n < |was| && m > 0
    ensures var equal := !less(elems[m - 1], elems[m]) && !less(elems[m], elems[m - 1]);
            && Halfway(less, was, if equal then elems[..m] + elems[m + 1..] else elems, n + 1, if equal then m else m + 1)
            && Dropped(less, was[..n + 1]) == if equal then Dropped(less, was[..n]) + [elems[m]] else Dropped(less, was[..n])
  {
    hide Kept, Dropped;
    KeptNext(less, was, n);
    var k := Kept(less, was[..n]);
    assert was[n..] == [was[n]] + was[n + 1..];
    assert elems[m - 1] == k[m - 1] && elems[m] == was[n];
    assert elems[..m] + elems[m + 1..] == k + was[n + 1..];
    assert elems == k + [was[n]] + was[n + 1..];
  }

  lemma HalfwayLast<X>(less: (X, X) -> bool, was: seq<X>, elems: seq<X>, n: nat, m: nat)
    requires Halfway(less, was, elems, n, m) && m == |elems|
    ensures n == |was| && elems == Kept(less, was) && was[..n] == was
  {
    assert was[..|was|] == was;
  }

  lemma KeptNone<X>(less: (X, X) -> bool, s: seq<X>)
    requires s == []
    ensures Kept(less, s) == s && Dropped(less, s) == []
  {
  }

  /** One element more. */
  lemma KeptNext<X>(less: (X, X) -> bool, s: seq<X>, n: nat)
    requires 1 <= n < |s|
    ensures var k := Kept(less, s[..n]);
            && k != []
            && (if !less(k[|k| - 1], s[n]) && !less(s[n], k[|k| - 1])
                then Kept(less, s[..n + 1]) == k && Dropped(less, s[..n + 1]) == Dropped(less, s[..n]) + [s[n]]
                else Kept(less, s[..n + 1]) == k + [s[n]] && Dropped(less, s[..n + 1]) == Dropped(less, s[..n]))
  {
    assert s[..n + 1][..n] == s[..n];
  }

  /** A node that is not the tail is an element. */
  lemma NotAtEnd(s: seq<Elem>, elems: seq<Elem>, m: nat)
    requires Linked(s) && |s| == |elems| + 2 && elems == s[1..|s| - 1] && m <= |elems| && s[m + 1] != s[|s| - 1]
    ensures m < |elems| && s[m + 1] == elems[m]
  {
  }

  ghost predicate Apart(s: seq<Elem>, t: seq<Elem>) {
    (forall j :: 0 <= j < |t| ==> t[j] !in s) && (forall i :: 0 <= i < |s| ==> s[i] !in t)
  }

  lemma NoDupNodes(s: seq<Elem>)
    requires Linked(s)
    ensures forall i, j :: 0 <= i < j < |s| ==> s[i] != s[j]
  {
  }

  /** What `list_unique` leaves of `s`, and what it takes out. */
  function Kept<X>(less: (X, X) -> bool, s: seq<X>): seq<X> {
    if s == [] then []
    else
      var k, x := Kept(less, s[..|s| - 1]), s[|s| - 1];
      if k != [] && Equivalent(less, k[|k| - 1], x) then k else k + [x]
  }

  function Dropped<X>(less: (X, X) -> bool, s: seq<X>): seq<X> {
    if s == [] then []
    else
      var k, x := Kept(less, s[..|s| - 1]), s[|s| - 1];
      var d := Dropped(less, s[..|s| - 1]);
      if k != [] && Equivalent(less, k[|k| - 1], x) then d + [x] else d
  }

  /** No two neighbours that stay are equal, nothing is lost, and what goes is equal to something that stays. */
  lemma {:induction false} UniqueMeans<X>(less: (X, X) -> bool, s: seq<X>)
    ensures forall i :: 0 <= i < |Kept(less, s)| - 1 ==> !Equivalent(less, Kept(less, s)[i], Kept(less, s)[i + 1])
    ensures multiset(Kept(less, s)) + multiset(Dropped(less, s)) == multiset(s)
    ensures forall x :: x in Dropped(less, s) ==> exists y :: y in Kept(less, s) && Equivalent(less, y, x)
  {
    hide *;
    NeighboursDiffer(less, s);
    NothingLost(less, s);
    DroppedEqual(less, s);
  }

  lemma {:induction false} NeighboursDiffer<X>(less: (X, X) -> bool, s: seq<X>)
    ensures forall i :: 0 <= i < |Kept(less, s)| - 1 ==> !Equivalent(less, Kept(less, s)[i], Kept(less, s)[i + 1])
  {
    if s != [] {
      NeighboursDiffer(less, s[..|s| - 1]);
      KeptOrDropped(less, s);
      hide Kept, Dropped, Equivalent;
    }
  }

  lemma {:induction false} NothingLost<X>(less: (X, X) -> bool, s: seq<X>)
    ensures multiset(Kept(less, s)) + multiset(Dropped(less, s)) == multiset(s)
  {
    if s != [] {
      hide Kept, Dropped, Equivalent;
      var front, x := s[..|s| - 1], s[|s| - 1];
      NothingLost(less, front);
      KeptOrDropped(less, s);
      OneMore(Kept(less, front), Dropped(less, front), front, x);
      FrontLast(s);
    }
  }

  lemma FrontLast<X>(s: seq<X>)
    requires s != []
    ensures s == s[..|s| - 1] + [s[|s| - 1]]
  {
  }

  lemma OneMore<X>(k: seq<X>, d: seq<X>, s: seq<X>, x: X)
    requires multiset(k) + multiset(d) == multiset(s)
    ensures multiset(k + [x]) + multiset(d) == multiset(s + [x])
    ensures multiset(k) + multiset(d + [x]) == multiset(s + [x])
  {
    assert multiset(k + [x]) == multiset(k) + multiset{x};
    assert multiset(d + [x]) == multiset(d) + multiset{x};
    assert multiset(s + [x]) == multiset(s) + multiset{x};
  }

  lemma {:induction false} DroppedEqual<X>(less: (X, X) -> bool, s: seq<X>)
    ensures forall x :: x in Dropped(less, s) ==> exists y :: y in Kept(less, s) && Equivalent(less, y, x)
  {
    if s != [] {
      DroppedEqual(less, s[..|s| - 1]);
      KeptOrDropped(less, s);
      hide Kept, Dropped, Equivalent;
    }
  }

  /**
   `s` in groups: element `f[j]` is the first of group `j`, and `k` are these; those
   behind it, up to the next group, are equal to it, and `d` are those.
   */
  ghost predicate Groups<X>(less: (X, X) -> bool, s: seq<X>, k: seq<X>, d: seq<X>, f: seq<nat>) {
    Places(s, k, f) && Apartness(less, k, f) && Inside(less, s, k, f) && d == Others(s, f)
  }

  ghost predicate Places<X>(s: seq<X>, k: seq<X>, f: seq<nat>) {
    && |f| == |k| && (s != [] <==> f != []) && (s != [] ==> f[0] == 0)
    && forall j :: 0 <= j < |f| ==> f[j] < |s| && k[j] == s[f[j]]
  }

  ghost predicate Apartness<X>(less: (X, X) -> bool, k: seq<X>, f: seq<nat>) {
    |f| == |k| && forall j :: 0 <= j < |f| - 1 ==> f[j] < f[j + 1] && !Equivalent(less, k[j], k[j + 1])
  }

  ghost predicate Inside<X>(less: (X, X) -> bool, s: seq<X>, k: seq<X>, f: seq<nat>) {
    |f| == |k| && forall j, i :: 0 <= j < |f| && f[j] < i < GroupEnd(s, f, j) && i < |s| ==> Equivalent(less, k[j], s[i])
  }

  function GroupEnd<X>(s: seq<X>, f: seq<nat>, j: nat): nat
    requires j < |f|
  {
    if j + 1 < |f| then f[j + 1] else |s|
  }

  /** The elements at none of the places `f`, in order. */
  function Others<X>(s: seq<X>, f: seq<nat>): seq<X> {
    if f == [] then s
    else
      var l := f[|f| - 1];
      if l < |s| then Others(s[..l], f[..|f| - 1]) + s[l + 1..] else []
  }

  /** The first of each group stays, and the others are taken out in their order. */
  lemma {:induction false} FirstOfGroupStays<X>(less: (X, X) -> bool, s: seq<X>) returns (f: seq<nat>)
    ensures Groups(less, s, Kept(less, s), Dropped(less, s), f)
  {
    if s == [] {
      f := [];
    } else {
      hide Kept, Dropped, Equivalent, Groups;
      var n := |s| - 1;
      f := FirstOfGroupStays(less, s[..n]);
      KeptOrDropped(less, s);
      var k, d := Kept(less, s[..n]), Dropped(less, s[..n]);
      if k == [] || !Equivalent(less, k[|k| - 1], s[n]) {
        NewGroup(less, s, k, d, f);
        f := f + [n];
      } else {
        SameGroup(less, s, k, d, f);
      }
    }
  }

  lemma NewGroup<X>(less: (X, X) -> bool, s: seq<X>, k: seq<X>, d: seq<X>, f: seq<nat>)
    requires s != [] && Groups(less, s[..|s| - 1], k, d, f) && (k == [] || !Equivalent(less, k[|k| - 1], s[|s| - 1]))
    ensures Groups(less, s, k + [s[|s| - 1]], d, f + [|s| - 1])
  {
    hide Equivalent, Inside, Others;
    NewInside(less, s, k, f);
    NewOthers(s, f);
  }

  lemma NewInside<X>(less: (X, X) -> bool, s: seq<X>, k: seq<X>, f: seq<nat>)
    requires s != [] && Inside(less, s[..|s| - 1], k, f) && forall j :: 0 <= j < |f| ==> f[j] < |s| - 1
    ensures Inside(less, s, k + [s[|s| - 1]], f + [|s| - 1])
  {
    hide Equivalent;
    var n := |s| - 1;
    var front, f', k' := s[..n], f + [n], k + [s[n]];
    forall j, i | 0 <= j < |f'| && f'[j] < i < GroupEnd(s, f', j) && i < |s| ensures Equivalent(less, k'[j], s[i]) {
      assert j < |f| && f'[j] == f[j] && k'[j] == k[j];
      assert GroupEnd(s, f', j) == GroupEnd(front, f, j) && front[i] == s[i];
    }
  }

  lemma NewOthers<X>(s: seq<X>, f: seq<nat>)
    requires s != []
    ensures Others(s, f + [|s| - 1]) == Others(s[..|s| - 1], f)
  {
    var n := |s| - 1;
    assert (f + [n])[..|f|] == f && s[n + 1..] == [];
  }

  lemma SameGroup<X>(less: (X, X) -> bool, s: seq<X>, k: seq<X>, d: seq<X>, f: seq<nat>)
    requires s != [] && Groups(less, s[..|s| - 1], k, d, f) && k != [] && Equivalent(less, k[|k| - 1], s[|s| - 1])
    ensures Groups(less, s, k, d + [s[|s| - 1]], f)
  {
    hide Equivalent, Inside, Others;
    SameInside(less, s, k, f);
    SameOthers(s, f);
  }

  lemma SameInside<X>(less: (X, X) -> bool, s: seq<X>, k: seq<X>, f: seq<nat>)
    requires s != [] && Inside(less, s[..|s| - 1], k, f) && k != [] && Equivalent(less, k[|k| - 1], s[|s| - 1])
    requires forall j :: 0 <= j < |f| ==> f[j] < |s| - 1
    ensures Inside(less, s, k, f)
  {
    hide Equivalent;
    var n := |s| - 1;
    var front := s[..n];
    forall j, i | 0 <= j < |f| && f[j] < i < GroupEnd(s, f, j) && i < |s| ensures Equivalent(less, k[j], s[i]) {
      if i < n {
        assert i < GroupEnd(front, f, j) && front[i] == s[i];
      }
    }
  }

  lemma SameOthers<X>(s: seq<X>, f: seq<nat>)
    requires s != [] && f != [] && f[|f| - 1] < |s| - 1
    ensures Others(s, f) == Others(s[..|s| - 1], f) + [s[|s| - 1]]
  {
    hide Others;
    var n := |s| - 1;
    var front, l, g := s[..n], f[|f| - 1], f[..|f| - 1];
    OthersLast(s, f);
    OthersLast(front, f);
    Around(s, l);
    Associate(Others(s[..l], g), front[l + 1..], [s[n]]);
  }

  lemma Around<X>(s: seq<X>, l: nat)
    requires l < |s| - 1
    ensures s[..|s| - 1][..l] == s[..l] && s[l + 1..] == s[..|s| - 1][l + 1..] + [s[|s| - 1]]
  {
  }

  lemma Associate<X>(a: seq<X>, b: seq<X>, c: seq<X>)
    ensures a + (b + c) == (a + b) + c
  {
  }

  lemma OthersLast<X>(s: seq<X>, f: seq<nat>)
    requires f != [] && f[|f| - 1] < |s|
    ensures Others(s, f) == Others(s[..f[|f| - 1]], f[..|f| - 1]) + s[f[|f| - 1] + 1..]
  {
  }

  lemma KeptOrDropped<X>(less: (X, X) -> bool, s: seq<X>)
    requires s != []
    ensures var k, d, x := Kept(less, s[..|s| - 1]), Dropped(less, s[..|s| - 1]), s[|s| - 1];
            if k != [] && Equivalent(less, k[|k| - 1], x) then Kept(less, s) == k && Dropped(less, s) == d + [x]
            else Kept(less, s) == k + [x] && Dropped(less, s) == d
  {
  }

  /** `k` is strictly increasing, of elements of `s`, and ends with one that is equal to `f`. */
  ghost predicate Strict<X>(less: (X, X) -> bool, s: seq<X>, k: seq<X>, f: X) {
    && k != [] && (forall i :: 0 <= i < |k| ==> k[i] in s)
    && Equivalent(less, k[|k| - 1], f)
    && (forall i, j :: 0 <= i < j < |k| ==> less(k[i], k[j]))
  }

  lemma StrictNext<X>(less: (X, X) -> bool, s: seq<X>, k: seq<X>, f: X, x: X)
    requires Orders(less, s) && Strict(less, s, k, f) && f in s && x in s && !less(x, f)
    ensures Strict(less, s, if Equivalent(less, k[|k| - 1], x) then k else k + [x], x)
  {
    var y := k[|k| - 1];
    assert !less(x, y) && !less(x, x);
    if less(y, x) {
      forall i | 0 <= i < |k| ensures less(k[i], x) {
        if i < |k| - 1 { Transitive(less, s, k[i], y, x); }
      }
    }
  }

  /** On a sorted list every group of equal elements is adjacent: what stays is strictly increasing. */
  lemma {:induction false} UniqueOfSorted<X>(less: (X, X) -> bool, s: seq<X>, n: nat)
    requires Orders(less, s) && Sorted(less, s) && 1 <= n <= |s|
    ensures Strict(less, s, Kept(less, s[..n]), s[n - 1])
  {
    hide Strict, Orders, Sorted;
    if n == 1 {
      assert s[..1][..0] == [];
      assert Kept(less, s[..1]) == [s[0]];
      StrictOne(less, s);
    } else {
      UniqueOfSorted(less, s, n - 1);
      KeptNext(less, s, n - 1);
      InOrder(less, s, n - 1);
      StrictNext(less, s, Kept(less, s[..n - 1]), s[n - 2], s[n - 1]);
    }
  }

  lemma StrictOne<X>(less: (X, X) -> bool, s: seq<X>)
    requires Orders(less, s) && s != []
    ensures Strict(less, s, [s[0]], s[0])
  {
    assert s[0] in s;
  }

  lemma InOrder<X>(less: (X, X) -> bool, s: seq<X>, n: nat)
    requires Sorted(less, s) && 1 <= n < |s|
    ensures !less(s[n], s[n - 1])
  {
  }

  lemma Transitive<X>(less: (X, X) -> bool, s: seq<X>, a: X, b: X, c: X)
    requires Orders(less, s) && a in s && b in s && c in s && less(a, b) && less(b, c)
    ensures less(a, c)
  {
    assert !less(b, a) && !less(c, b);
  }

  lemma InsertedSorted<X>(less: (X, X) -> bool, s: seq<X>, x: X, k: nat)
    requires k <= |s| && (forall i :: 0 <= i < k ==> !less(x, s[i])) && (k < |s| ==> less(x, s[k]))
    ensures Orders(less, s + [x]) && Sorted(less, s) ==>
              Sorted(less, s[..k] + [x] + s[k..]) && forall i :: k <= i < |s| ==> less(x, s[i])
  {
    if Orders(less, s + [x]) && Sorted(less, s) {
      var t := s + [x];
      assert x == t[|s|] && x in t;
      forall i | k <= i < |s| ensures less(x, s[i]) {
        assert s[i] == t[i] && s[k] == t[k];
        assert k < i ==> !less(s[i], s[k]);
      }
      forall i | k <= i < |s| ensures !less(s[i], x) {
        assert s[i] == t[i];
      }
      var r := s[..k] + [x] + s[k..];
      assert forall i :: 0 <= i < |r| ==> r[i] == if i < k then s[i] else if i == k then x else s[i - 1];
    }
  }

  function Reversed<X>(s: seq<X>): seq<X> {
    seq(|s|, i requires 0 <= i < |s| => s[|s| - 1 - i])
  }

  /** The state of `list_reverse`'s loop: interior elements before `m` are turned around. */
  ghost predicate HalfReversed(s: seq<Elem>, m: nat)
    reads s
  {
    && |s| >= 2 && m < |s| && NoDup(s)
    && s[0].next == s[1] && s[0].prev == null
    && s[|s| - 1].prev == s[|s| - 2] && s[|s| - 1].next == null
    && (forall i {:trigger s[i].next} :: 1 <= i < |s| - 1 ==> s[i].next == if i < m then s[i - 1] else s[i + 1])
    && (forall i {:trigger s[i].prev} :: 1 <= i < |s| - 1 ==> s[i].prev == if i < m then s[i + 1] else s[i - 1])
  }

  lemma AllReversed(s: seq<Elem>, r: seq<Elem>)
    requires |s| >= 3 && NoDup(s)
    requires r == [s[0]] + Reversed(s[1..|s| - 1]) + [s[|s| - 1]]
    requires s[0].prev == null && s[|s| - 1].next == null
    requires s[0].next == s[|s| - 2] && s[|s| - 1].prev == s[1]
    requires forall i {:trigger s[i].next} :: 2 <= i < |s| - 1 ==> s[i].next == s[i - 1]
    requires forall i {:trigger s[i].prev} :: 1 <= i < |s| - 2 ==> s[i].prev == s[i + 1]
    requires s[1].next == s[|s| - 1] && s[|s| - 2].prev == s[0]
    ensures Linked(r)
  {
    var n := |s|;
    assert |r| == n;
    forall i | 0 <= i < n ensures r[i] == s[Mirror(n, i)] {
    }
    forall i, j | 0 <= i < j < n ensures r[i] != r[j] {
      assert s[Mirror(n, i)] != s[Mirror(n, j)];
    }
    forall i | 0 <= i < n - 1 ensures r[i].next == r[i + 1] {
      assert r[i] == s[Mirror(n, i)] && r[i + 1] == s[Mirror(n, i + 1)];
    }
    forall i | 1 <= i < n ensures r[i].prev == r[i - 1] {
      assert r[i] == s[Mirror(n, i)] && r[i - 1] == s[Mirror(n, i - 1)];
    }
  }

  function Mirror(n: nat, i: nat): nat
    requires i < n
  {
    if i == 0 || i == n - 1 then i else n - 1 - i
  }

  /** Replacing a range of the interior leaves the head and the tail in place. */
  lemma NodesAround(s: seq<Elem>, was: seq<Elem>, merged: seq<Elem>, p: nat, k: nat, r: seq<Elem>, nodes: seq<Elem>)
    requires |s| == |was| + 2 && was == s[1..|s| - 1] && p < k - 1 <= |was|
    requires r == s[..p + 1] + merged + s[k..]
    requires nodes == [s[0]] + (was[..p] + merged + was[k - 1..]) + [s[|s| - 1]]
    requires |merged| == k - 1 - p
    ensures r == nodes
    ensures nodes[k] == s[k]
  {
    assert s[..p + 1] == [s[0]] + was[..p];
    assert s[k..] == was[k - 1..] + [s[|s| - 1]];
  }

  lemma WholeRun(less: (Elem, Elem) -> bool, was: seq<Elem>, p: nat)
    requires p < |was| && RunLength(less, was[p..]) == |was| - p
    ensures HeadLength(less, was[p..]) == |was| - p
    ensures was == was[..p] + MergedHead(less, was[p..]) + was[|was|..]
  {
  }

  /** What one step of a pass does to the pass's loop invariant. */
  lemma PassAdvance(less: (Elem, Elem) -> bool, was: seq<Elem>, before: seq<Elem>, after: seq<Elem>, p: nat, m: nat)
    requires |before| == |was| && p < |was| && before[p..] == was[p..]
    requires before[..p] + Pass(less, was[p..]) == Pass(less, was)
    requires m == p + HeadLength(less, was[p..])
    requires after == before[..p] + MergedHead(less, was[p..]) + before[m..]
    ensures |after| == |was| && after[m..] == was[m..]
    ensures after[..m] + Pass(less, was[m..]) == Pass(less, was)
    ensures PassRuns(less, was[p..]) == 1 + PassRuns(less, was[m..])
  {
    hide *;
    var rest, head := was[p..], MergedHead(less, was[p..]);
    PassByHeads(less, rest);
    assert rest[m - p..] == was[m..];
    assert before[m..] == before[p..][m - p..];
    Reassociate(before[..p], head, before[m..], Pass(less, was[m..]), after, m);
  }

  lemma Reassociate<X>(a: seq<X>, b: seq<X>, c: seq<X>, d: seq<X>, whole: seq<X>, m: nat)
    requires whole == a + b + c && m == |a| + |b|
    ensures whole[m..] == c && whole[..m] + d == a + (b + d)
  {
  }

  /** The ranges that `find_end_of_run` delimits are the runs of the rest of the list. */
  lemma RunsInPlace(less: (Elem, Elem) -> bool, was: seq<Elem>, s: seq<Elem>, p: nat, n: nat, k: nat)
    requires |s| == |was| + 2 && was == s[1..|s| - 1] && p + 1 <= n < |s| - 1
    requires n == p + 1 + RunLength(less, was[p..])
    requires k == n + RunLength(less, s[n..|s| - 1])
    ensures k == p + 1 + HeadLength(less, was[p..])
    ensures MergedHead(less, was[p..]) == Merge(less, s[p + 1..n], s[n..k])
  {
    hide RunLength, Merge;
    var rest := was[p..];
    var w := n - p - 1;
    SliceOf(s, was, p, n, |s| - 1);
    SliceOf(s, was, p, p + 1, n);
    SliceOf(s, was, p, n, k);
    assert rest[..w] == rest[0..w] && rest[w..] == rest[w..|rest|];
  }

  /** A range of the nodes as a range of the rest of the elements. */
  lemma SliceOf(s: seq<Elem>, was: seq<Elem>, p: nat, i: nat, j: nat)
    requires |s| == |was| + 2 && was == s[1..|s| - 1] && p + 1 <= i <= j <= |s| - 1
    ensures s[i..j] == was[p..][i - p - 1..j - p - 1]
  {
    forall k | 0 <= k < j - i ensures s[i..j][k] == was[p..][i - p - 1..j - p - 1][k] {
      assert s[i..j][k] == s[i + k] == was[i - 1 + k];
    }
  }

  lemma PassFacts(less: (Elem, Elem) -> bool, s: seq<Elem>)
    requires Orders(less, s)
    ensures Orders(less, Pass(less, s))
    ensures PassRuns(less, s) == (Runs(less, s) + 1) / 2
    ensures Runs(less, Pass(less, s)) <= PassRuns(less, s)
    ensures MergeSort(less, s) == if PassRuns(less, s) > 1 then MergeSort(less, Pass(less, s)) else Pass(less, s)
  {
    PassShrinks(less, s);
    PassOutputRuns(less, s);
    PassRunsIsHalf(less, s);
  }

  lemma FirstHalving(count: nat, runs: nat)
    requires count == (runs + 1) / 2
    ensures count > 1 ==> Pow2(1) * (count - 1) < runs
  {
    assert Pow2(1) == 2;
  }

  lemma HalvingCount(passes: nat, count: nat, count': nat, runs: nat)
    requires count > 1 && Pow2(passes) * (count - 1) < runs && count' <= (count + 1) / 2
    ensures Pow2(passes) < runs
    ensures count' > 1 ==> Pow2(passes + 1) * (count' - 1) < runs
  {
    var a := Pow2(passes);
    Scale(a, 1, count - 1);
    if count' > 1 {
      Scale(a, 2 * (count' - 1), count - 1);
      assert a * (2 * (count' - 1)) == Pow2(passes + 1) * (count' - 1);
    }
  }

  lemma Scale(a: nat, x: nat, y: nat)
    requires x <= y
    ensures a * x <= a * y
  {
  }
}
