/** The in-place heapsort and the binary search of lib/stdlib.c.  Heap indices are 1-based, as there. */
module HeapSort {
  import opened Sequences

  /** What callers must pass: the sign of `cmp` describes a total preorder. */
  ghost predicate Preorder<T(!new)>(cmp: (T, T) -> int) {
    && (forall x, y :: cmp(x, y) <= 0 <==> cmp(y, x) >= 0)
    && (forall x, y, z {:trigger cmp(x, y), cmp(y, z)} :: cmp(x, y) <= 0 && cmp(y, z) <= 0 ==> cmp(x, z) <= 0)
  }

  ghost predicate Sorted<T>(cmp: (T, T) -> int, s: seq<T>) {
    forall i, j :: 0 <= i < j < |s| ==> cmp(s[i], s[j]) <= 0
  }

  /** Element `k` is no greater than its parent. */
  ghost predicate BelowParent<T>(cmp: (T, T) -> int, s: seq<T>, k: nat)
    requires 2 <= k <= |s|
  {
    cmp(s[k - 1], s[k / 2 - 1]) <= 0
  }

  ghost predicate BelowGrandparent<T>(cmp: (T, T) -> int, s: seq<T>, k: nat)
    requires k / 2 / 2 >= 1 && k <= |s|
  {
    cmp(s[k - 1], s[k / 2 / 2 - 1]) <= 0
  }

  /** The first `cnt` elements form a heap as far as the nodes from `low` on and their children are concerned. */
  ghost predicate HeapFrom<T>(cmp: (T, T) -> int, s: seq<T>, low: nat, cnt: nat) {
    cnt <= |s| && forall k :: 2 <= k <= cnt && k / 2 >= low ==> BelowParent(cmp, s, k)
  }

  /** The same but for the children of node `i`, which are no greater than the parent of `i`. */
  ghost predicate HeapBut<T>(cmp: (T, T) -> int, s: seq<T>, low: nat, cnt: nat, i: nat) {
    && 1 <= low <= i && cnt <= |s|
    && (forall k :: 2 <= k <= cnt && k / 2 >= low && k / 2 != i ==> BelowParent(cmp, s, k))
    && (forall k :: 2 <= k <= cnt && k / 2 == i && i / 2 >= low ==> BelowGrandparent(cmp, s, k))
  }

  function Swap<T>(s: seq<T>, i: nat, j: nat): seq<T>
    requires 1 <= i <= |s| && 1 <= j <= |s|
  {
    s[i - 1 := s[j - 1]][j - 1 := s[i - 1]]
  }

  /** A swap within the first `cnt` elements permutes them. */
  lemma SwapPermutes<T>(s: seq<T>, i: nat, j: nat, cnt: nat)
    requires 1 <= i <= cnt && 1 <= j <= cnt && cnt <= |s|
    ensures multiset(Swap(s, i, j)[..cnt]) == multiset(s[..cnt]) && Swap(s, i, j)[cnt..] == s[cnt..]
  {
    var p := s[..cnt];
    assert Swap(s, i, j)[..cnt] == p[i - 1 := s[j - 1]][j - 1 := s[i - 1]];
  }

  /** The largest of node `i` and its children. */
  ghost predicate IsLargest<T>(cmp: (T, T) -> int, s: seq<T>, i: nat, cnt: nat, max: nat) {
    && 1 <= i <= cnt && 1 <= max <= cnt <= |s| && (max == i || max == 2 * i || max == 2 * i + 1)
    && cmp(s[i - 1], s[max - 1]) <= 0
    && (2 * i <= cnt ==> cmp(s[2 * i - 1], s[max - 1]) <= 0)
    && (2 * i + 1 <= cnt ==> cmp(s[2 * i], s[max - 1]) <= 0)
  }

  lemma HeapBegins<T>(cmp: (T, T) -> int, s: seq<T>, first: nat, cnt: nat)
    requires 1 <= first && HeapFrom(cmp, s, first + 1, cnt)
    ensures HeapBut(cmp, s, first, cnt, first)
  {
  }

  /** Nothing to do: the heap is complete. */
  lemma HeapDone<T(!new)>(cmp: (T, T) -> int, s: seq<T>, low: nat, cnt: nat, i: nat)
    requires HeapBut(cmp, s, low, cnt, i) && IsLargest(cmp, s, i, cnt, i)
    ensures HeapFrom(cmp, s, low, cnt)
  {
    forall k | 2 <= k <= cnt && k / 2 >= low ensures BelowParent(cmp, s, k) {
      if k / 2 == i { assert k == 2 * i || k == 2 * i + 1; }
    }
  }

  /** One step down: the hole moves to the larger child. */
  lemma HeapStep<T(!new)>(cmp: (T, T) -> int, s: seq<T>, low: nat, cnt: nat, i: nat, max: nat)
    requires Preorder(cmp) && HeapBut(cmp, s, low, cnt, i) && IsLargest(cmp, s, i, cnt, max) && max > i
    ensures HeapBut(cmp, Swap(s, i, max), low, cnt, max)
  {
    var s' := Swap(s, i, max);
    assert max / 2 == i;
    forall k | 2 <= k <= cnt && k / 2 >= low && k / 2 != max ensures BelowParent(cmp, s', k) {
      if k / 2 == i {
        assert k == 2 * i || k == 2 * i + 1;
      } else if k == i {
        assert BelowGrandparent(cmp, s, max);
      } else {
        assert BelowParent(cmp, s, k);
      }
    }
    forall k | 2 <= k <= cnt && k / 2 == max && max / 2 >= low ensures BelowGrandparent(cmp, s', k) {
      assert BelowParent(cmp, s, k);
    }
  }

  /** The root of a heap is a greatest element. */
  lemma {:induction false} RootIsGreatest<T(!new)>(cmp: (T, T) -> int, s: seq<T>, cnt: nat, k: nat)
    requires Preorder(cmp) && HeapFrom(cmp, s, 1, cnt) && 1 <= k <= cnt
    ensures cmp(s[k - 1], s[0]) <= 0
  {
    if k > 1 {
      assert BelowParent(cmp, s, k);
      RootIsGreatest(cmp, s, cnt, k / 2);
    } else {
      Reflexive(cmp, s[0]);
    }
  }

  lemma Reflexive<T(!new)>(cmp: (T, T) -> int, x: T)
    requires Preorder(cmp)
    ensures cmp(x, x) == 0
  {
    assert cmp(x, x) <= 0 <==> cmp(x, x) >= 0;
  }

  /** `do_swap`. */
  method DoSwap<T>(a: array<T>, i: nat, j: nat)
    requires 1 <= i <= a.Length && 1 <= j <= a.Length
    modifies a
    ensures a[..] == Swap(old(a[..]), i, j)
  {
    a[i - 1], a[j - 1] := a[j - 1], a[i - 1];
  }

  /** `heapify`: floats element `i` down until the heap that begins at `i` is complete. */
  method Heapify<T(!new)>(a: array<T>, first: nat, cnt: nat, cmp: (T, T) -> int)
    requires Preorder(cmp) && 1 <= first <= cnt <= a.Length && HeapFrom(cmp, a[..], first + 1, cnt)
    modifies a
    ensures HeapFrom(cmp, a[..], first, cnt)
    ensures multiset(a[..cnt]) == old(multiset(a[..cnt])) && a[cnt..] == old(a[cnt..])
  {
    hide HeapBut, HeapFrom, IsLargest, Swap;
    var i := first;
    HeapBegins(cmp, a[..], first, cnt);
    ghost var start := a[..];
    assert a[..][..cnt] == a[..cnt] && a[..][cnt..] == a[cnt..];
    while true
      invariant 1 <= i <= cnt && HeapBut(cmp, a[..], first, cnt, i)
      invariant multiset(a[..][..cnt]) == multiset(start[..cnt]) && a[..][cnt..] == start[cnt..]
      decreases cnt - i
    {
      var max := Largest(a, i, cnt, cmp);
      if max == i {
        HeapDone(cmp, a[..], first, cnt, i);
        break;
      }
      HeapStep(cmp, a[..], first, cnt, i, max);
      SwapPermutes(a[..], i, max, cnt);
      DoSwap(a, i, max);
      i := max;
    }
    assert a[..cnt] == a[..][..cnt] && a[cnt..] == a[..][cnt..];
  }

  /** The two comparisons of the loop body. */
  method Largest<T(!new)>(a: array<T>, i: nat, cnt: nat, cmp: (T, T) -> int) returns (max: nat)
    requires Preorder(cmp) && 1 <= i <= cnt <= a.Length
    ensures IsLargest(cmp, a[..], i, cnt, max) && max >= i
  {
    var left := 2 * i;
    var right := 2 * i + 1;
    max := i;
    if left <= cnt && cmp(a[left - 1], a[max - 1]) > 0 {
      max := left;
    }
    if right <= cnt && cmp(a[right - 1], a[max - 1]) > 0 {
      max := right;
    }
  }

  // ----- sort

  /** Beyond the first `cnt` elements everything is sorted, and no less than what comes before. */
  ghost predicate TailSorted<T>(cmp: (T, T) -> int, s: seq<T>, cnt: nat) {
    && cnt <= |s|
    && Sorted(cmp, s[cnt..])
    && (forall x, y :: x in s[..cnt] && y in s[cnt..] ==> cmp(x, y) <= 0)
  }

  /** Moving the root of the heap behind it extends the sorted part. */
  lemma TailGrows<T(!new)>(cmp: (T, T) -> int, s: seq<T>, i: nat)
    requires Preorder(cmp) && 2 <= i <= |s| && HeapFrom(cmp, s, 1, i) && TailSorted(cmp, s, i)
    ensures var s' := Swap(s, 1, i); TailSorted(cmp, s', i - 1) && HeapFrom(cmp, s', 2, i - 1)
  {
    var s' := Swap(s, 1, i);
    assert s'[i - 1..] == [s[0]] + s[i..] && s[0] in s[..i];
    HeapShrinks(cmp, s, i);
    forall x | x in s'[..i - 1] ensures cmp(x, s[0]) <= 0 && x in s[..i] {
      var k :| 0 <= k < i - 1 && s'[k] == x;
      assert x == if k == 0 then s[i - 1] else s[k];
      RootIsGreatest(cmp, s, i, if k == 0 then i else k + 1);
    }
  }

  lemma HeapShrinks<T(!new)>(cmp: (T, T) -> int, s: seq<T>, i: nat)
    requires 2 <= i <= |s| && HeapFrom(cmp, s, 1, i)
    ensures HeapFrom(cmp, Swap(s, 1, i), 2, i - 1)
  {
    forall k | 2 <= k <= i - 1 && k / 2 >= 2 ensures BelowParent(cmp, Swap(s, 1, i), k) {
      assert BelowParent(cmp, s, k);
    }
  }

  /** Permuting the front does not concern the sorted part. */
  lemma TailKept<T(!new)>(cmp: (T, T) -> int, s: seq<T>, s': seq<T>, cnt: nat)
    requires TailSorted(cmp, s, cnt) && |s'| == |s| && s'[cnt..] == s[cnt..] && multiset(s'[..cnt]) == multiset(s[..cnt])
    ensures TailSorted(cmp, s', cnt)
  {
    forall x | x in s'[..cnt] ensures x in s[..cnt] { assert x in multiset(s'[..cnt]); }
  }

  lemma WholePermuted<T>(s: seq<T>, s': seq<T>, cnt: nat)
    requires cnt <= |s| == |s'| && s'[cnt..] == s[cnt..] && multiset(s'[..cnt]) == multiset(s[..cnt])
    ensures multiset(s') == multiset(s)
  {
    assert s == s[..cnt] + s[cnt..] && s' == s'[..cnt] + s'[cnt..];
  }

  lemma AllSorted<T(!new)>(cmp: (T, T) -> int, s: seq<T>, cnt: nat)
    requires Preorder(cmp) && TailSorted(cmp, s, cnt) && cnt <= 1
    ensures Sorted(cmp, s)
  {
    forall i, j | 0 <= i < j < |s| ensures cmp(s[i], s[j]) <= 0 {
      if i < cnt {
        assert s[i] in s[..cnt] && s[j] == s[cnt..][j - cnt];
      } else {
        assert s[i] == s[cnt..][i - cnt] && s[j] == s[cnt..][j - cnt];
      }
    }
  }

  /** `sort`: the same elements, in order. */
  method Sort<T(!new)>(a: array<T>, cmp: (T, T) -> int)
    requires Preorder(cmp)
    modifies a
    ensures Sorted(cmp, a[..]) && multiset(a[..]) == old(multiset(a[..]))
  {
    hide HeapFrom, TailSorted, Swap, Sorted;
    var cnt := a.Length;
    BuildHeap(a, cmp);
    TailEmpty(cmp, a[..]);
    var i: nat := cnt;
    while i > 1
      invariant (cnt > 0 ==> 1 <= i) && i <= cnt
      invariant i > 0 ==> HeapFrom(cmp, a[..], 1, i)
      invariant TailSorted(cmp, a[..], i) && multiset(a[..]) == old(multiset(a[..]))
      decreases i
    {
      MoveRoot(a, i, cmp);
      i := i - 1;
    }
    AllSorted(cmp, a[..], i);
  }

  lemma TailEmpty<T>(cmp: (T, T) -> int, s: seq<T>)
    ensures TailSorted(cmp, s, |s|)
  {
  }

  method BuildHeap<T(!new)>(a: array<T>, cmp: (T, T) -> int)
    requires Preorder(cmp)
    modifies a
    ensures HeapFrom(cmp, a[..], 1, a.Length) && multiset(a[..]) == old(multiset(a[..]))
  {
    var cnt := a.Length;
    var i := cnt / 2;
    assert HeapFrom(cmp, a[..], i + 1, cnt);
    hide HeapFrom;
    while i > 0
      invariant 0 <= i <= cnt / 2 && HeapFrom(cmp, a[..], i + 1, cnt) && multiset(a[..]) == old(multiset(a[..]))
      decreases i
    {
      ghost var was := a[..];
      Heapify(a, i, cnt, cmp);
      assert a[..] == a[..cnt] && was == was[..cnt];
      i := i - 1;
    }
  }

  /** One round of the second loop of `sort`. */
  method MoveRoot<T(!new)>(a: array<T>, i: nat, cmp: (T, T) -> int)
    requires Preorder(cmp) && 2 <= i <= a.Length && HeapFrom(cmp, a[..], 1, i) && TailSorted(cmp, a[..], i)
    modifies a
    ensures HeapFrom(cmp, a[..], 1, i - 1) && TailSorted(cmp, a[..], i - 1) && multiset(a[..]) == old(multiset(a[..]))
  {
    hide HeapFrom, TailSorted, Swap;
    ghost var was := a[..];
    TailGrows(cmp, was, i);
    SwapPermutes(was, 1, i, i);
    DoSwap(a, 1, i);
    ghost var swapped := a[..];
    WholePermuted(was, swapped, i);
    Heapify(a, 1, i - 1, cmp);
    assert a[..][..i - 1] == a[..i - 1] && a[..][i - 1..] == a[i - 1..];
    TailKept(cmp, swapped, a[..], i - 1);
    WholePermuted(swapped, a[..], i - 1);
  }

  // ----- binary_search

  /** `binary_search` finds a match exactly when there is one. */
  method BinarySearch<T(!new)>(key: T, a: array<T>, cmp: (T, T) -> int) returns (found: Option<nat>)
    requires Preorder(cmp) && Sorted(cmp, a[..])
    ensures found.Some? ==> found.value < a.Length && cmp(key, a[found.value]) == 0
    ensures found.None? ==> forall k :: 0 <= k < a.Length ==> cmp(key, a[k]) != 0
  {
    var first, last := 0, a.Length;
    while first < last
      invariant 0 <= first <= last <= a.Length
      invariant forall k :: 0 <= k < first ==> cmp(key, a[k]) > 0
      invariant forall k :: last <= k < a.Length ==> cmp(key, a[k]) < 0
      decreases last - first
    {
      var middle := first + (last - first) / 2;
      var c := cmp(key, a[middle]);
      if c < 0 {
        Beyond(key, a[..], middle, cmp);
        last := middle;
      } else if c > 0 {
        Beyond(key, a[..], middle, cmp);
        first := middle + 1;
      } else {
        return Some(middle);
      }
    }
    return None;
  }

  lemma Beyond<T(!new)>(key: T, s: seq<T>, m: nat, cmp: (T, T) -> int)
    requires Preorder(cmp) && Sorted(cmp, s) && m < |s|
    ensures cmp(key, s[m]) < 0 ==> forall k :: m <= k < |s| ==> cmp(key, s[k]) < 0
    ensures cmp(key, s[m]) > 0 ==> forall k :: 0 <= k <= m ==> cmp(key, s[k]) > 0
  {
    forall k | 0 <= k < |s|
      ensures cmp(key, s[m]) < 0 && m <= k ==> cmp(key, s[k]) < 0
      ensures cmp(key, s[m]) > 0 && k <= m ==> cmp(key, s[k]) > 0
    {
      assert k < m ==> cmp(s[k], s[m]) <= 0;
      assert m < k ==> cmp(s[m], s[k]) <= 0;
      assert cmp(s[k], key) <= 0 <==> cmp(key, s[k]) >= 0;
      assert cmp(key, s[k]) <= 0 <==> cmp(s[k], key) >= 0;
      assert cmp(s[m], key) <= 0 <==> cmp(key, s[m]) >= 0;
    }
  }
}
