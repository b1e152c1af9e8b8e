/**
 The chained hash table (lib/kernel/hash.c): a finite set of elements, of which
 no two are equivalent under `less`, spread over a power of two of buckets.
 */
module HashTable {
  import opened Sequences
  import opened Words

  // ----- Powers of two

  /** `turn_off_least_1bit`. */
  function TurnOffLeast1Bit(x: nat): nat { if x == 0 then 0 else And(x, x - 1) }

  /** `is_power_of_2`. */
  predicate IsPowerOf2(x: nat) { x != 0 && TurnOffLeast1Bit(x) == 0 }

  lemma {:induction false} AndSelf(x: nat)
    ensures And(x, x) == x
  {
    if x > 0 { AndSelf(x / 2); }
  }

  lemma TurnOffHalves(x: nat)
    requires x > 0
    ensures TurnOffLeast1Bit(x) == if x % 2 == 1 then x - 1 else 2 * TurnOffLeast1Bit(x / 2)
  {
    if x % 2 == 1 {
      AndSelf(x / 2);
      assert (x - 1) / 2 == x / 2;
    } else {
      assert (x - 1) / 2 == x / 2 - 1;
    }
  }

  lemma PowerHalves(x: nat)
    requires x > 0
    ensures IsPowerOf2(x) <==> x == 1 || (x % 2 == 0 && IsPowerOf2(x / 2))
  {
    TurnOffHalves(x);
    if x % 2 == 0 { TurnOffHalves(x / 2); }
  }

  lemma {:induction false} PowerOf2(x: nat) returns (n: nat)
    requires IsPowerOf2(x)
    ensures x == Pow2(n)
  {
    hide TurnOffLeast1Bit;
    PowerHalves(x);
    if x == 1 {
      n := 0;
    } else {
      n := PowerOf2(x / 2);
      n := n + 1;
    }
  }

  lemma {:induction false} Pow2IsPower(n: nat)
    ensures IsPowerOf2(Pow2(n))
  {
    hide IsPowerOf2;
    PowerHalves(Pow2(n));
    if n > 0 { Pow2IsPower(n - 1); }
  }

  /** Clearing the lowest bit of another number keeps its highest one. */
  lemma {:induction false} TurnOffKeepsHigh(x: nat, k: nat)
    requires Pow2(k) <= x < Pow2(k + 1) && !IsPowerOf2(x)
    ensures Pow2(k) <= TurnOffLeast1Bit(x) < x
  {
    hide TurnOffLeast1Bit, IsPowerOf2, Pow2;
    TurnOffHalves(x);
    PowerHalves(x);
    Pow2Step(k);
    if k > 0 {
      Pow2Step(k - 1);
      if x % 2 == 0 { TurnOffKeepsHigh(x / 2, k - 1); }
    } else {
      Pow2Step(0);
    }
  }

  lemma Pow2Step(k: nat)
    ensures Pow2(k + 1) == 2 * Pow2(k) && Pow2(0) == 1
  {
  }

  lemma {:induction false} HighBit(x: nat) returns (k: nat)
    requires x > 0
    ensures Pow2(k) <= x < Pow2(k + 1)
  {
    if x == 1 {
      k := 0;
      assert Pow2(1) == 2 * Pow2(0);
    } else {
      k := HighBit(x / 2);
      assert Pow2(k + 2) == 2 * Pow2(k + 1);
      k := k + 1;
    }
  }

  /** The number of buckets that `rehash` chooses: the largest power of two that is at most max(4, elems / 2). */
  predicate IsIdeal(elems: nat, buckets: nat) {
    var best := if elems / 2 < 4 then 4 else elems / 2;
    IsPowerOf2(buckets) && buckets <= best < 2 * buckets
  }

  method IdealBuckets(elems: nat) returns (count: nat)
    ensures IsIdeal(elems, count) && count >= 4
  {
    count := elems / 2;
    if count < 4 {
      count := 4;
    }
    ghost var best := count;
    ghost var k := HighBit(best);
    while !IsPowerOf2(count)
      invariant Pow2(k) <= count <= best < Pow2(k + 1)
      decreases count
    {
      TurnOffKeepsHigh(count, k);
      count := TurnOffLeast1Bit(count);
    }
    ghost var n := PowerOf2(count);
    SameExponent(count, n, k);
    Pow2Step(k);
    AtLeastFour(best, k);
  }

  lemma SameExponent(x: nat, n: nat, k: nat)
    requires x == Pow2(n) && Pow2(k) <= x < Pow2(k + 1)
    ensures n == k
  {
    if n > k { Pow2Grows(k + 1, n); } else if n < k { Pow2Strict(n, k); }
  }

  lemma AtLeastFour(best: nat, k: nat)
    requires 4 <= best < Pow2(k + 1)
    ensures Pow2(k) >= 4
  {
    hide Pow2;
    Pow2Step(0);
    Pow2Step(1);
    assert k != 0 && k != 1;
    Pow2Grows(2, k);
  }

  /** There is only one such number, and with eight elements or more it makes two or three to a bucket. */
  lemma IdealUnique(elems: nat, a: nat, b: nat)
    requires IsIdeal(elems, a) && IsIdeal(elems, b)
    ensures a == b
    ensures elems >= 8 ==> 2 * a <= elems < 4 * a
  {
    var m := PowerOf2(a);
    var n := PowerOf2(b);
    if m < n {
      Pow2Grows(m + 1, n);
    } else if n < m {
      Pow2Grows(n + 1, m);
    }
  }

  // ----- Buckets

  function Flat<T>(b: seq<seq<T>>): seq<T> {
    if b == [] then [] else Flat(b[..|b| - 1]) + b[|b| - 1]
  }

  /** Everything in the table, in the order of an iteration. */
  function Bag<T>(b: seq<seq<T>>): multiset<T> { multiset(Flat(b)) }

  lemma {:induction false} BagUpdate<T>(b: seq<seq<T>>, i: nat, q: seq<T>)
    requires i < |b|
    ensures forall x :: Bag(b[i := q])[x] + multiset(b[i])[x] == Bag(b)[x] + multiset(q)[x]
  {
    hide Flat, Bag;
    var last := |b| - 1;
    var b' := b[i := q];
    BagLast(b);
    BagLast(b');
    if i < last {
      BagUpdate(b[..last], i, q);
      assert b'[..last] == b[..last][i := q];
    } else {
      assert b'[..last] == b[..last];
    }
  }

  lemma NoBuckets<T>()
    ensures Bag<T>([]) == multiset{}
  {
  }

  lemma BagLast<T>(b: seq<seq<T>>)
    requires b != []
    ensures Bag(b) == Bag(b[..|b| - 1]) + multiset(b[|b| - 1])
  {
  }

  lemma {:induction false} InBag<T>(b: seq<seq<T>>, x: T)
    ensures x in Bag(b) <==> exists i :: 0 <= i < |b| && x in b[i]
  {
    if b != [] {
      var front := b[..|b| - 1];
      InBag(front, x);
      assert forall i :: 0 <= i < |front| ==> front[i] == b[i];
      assert x in Flat(b) <==> x in Flat(front) || x in b[|b| - 1];
    }
  }

  lemma {:induction false} EmptyBag<T>(b: seq<seq<T>>)
    requires forall i :: 0 <= i < |b| ==> b[i] == []
    ensures Flat(b) == []
  {
    if b != [] { EmptyBag(b[..|b| - 1]); }
  }

  ghost function Set<T(!new)>(m: multiset<T>): set<T> { set x | x in m }

  lemma {:induction false} SetSize<T(!new)>(m: multiset<T>)
    requires forall x :: m[x] <= 1
    ensures |Set(m)| == |m|
    decreases |m|
  {
    if m == multiset{} {
      assert Set(m) == {};
    } else {
      var x :| x in m;
      var rest := m - multiset{x};
      SetSize(rest);
      assert Set(m) == Set(rest) + {x};
    }
  }

  // ----- The hash function and the order

  /** `less` is a strict weak order, and equivalent elements have the same hash. */
  ghost predicate Usable<T(!new)>(hash: T -> nat, less: (T, T) -> bool) {
    && (forall a, b {:trigger less(a, b)} :: less(a, b) ==> !less(b, a))
    && (forall a, b, c {:trigger less(a, b), less(b, c)} :: !less(a, b) && !less(b, c) ==> !less(a, c))
    && (forall a, b :: Equal(less, a, b) ==> hash(a) == hash(b))
  }

  predicate Equal<T>(less: (T, T) -> bool, a: T, b: T) { !less(a, b) && !less(b, a) }

  /** No two equivalent elements, and none twice. */
  ghost predicate Distinct<T(!new)>(less: (T, T) -> bool, m: multiset<T>) {
    && (forall x :: m[x] <= 1)
    && (forall x, y :: x in m && y in m && Equal(less, x, y) ==> x == y)
  }

  /** Every element is in the bucket of its hash. */
  ghost predicate Placed<T>(hash: T -> nat, b: seq<seq<T>>) {
    |b| > 0 && forall i, x :: 0 <= i < |b| && x in b[i] ==> hash(x) % |b| == i
  }

  lemma NonePlaced<T>(hash: T -> nat, b: seq<seq<T>>)
    requires |b| > 0 && forall i :: 0 <= i < |b| ==> b[i] == []
    ensures Placed(hash, b) && Bag(b) == multiset{}
  {
    EmptyBag(b);
  }

  /** `find_bucket` computes a remainder. */
  lemma BucketIsRemainder(h: nat, count: nat)
    requires IsPowerOf2(count)
    ensures And(h, count - 1) == h % count < count
  {
    var n := PowerOf2(count);
    MaskIsMod(h, n);
  }

  /** An element equivalent to `e` can only be in the bucket of `e`. */
  lemma InOwnBucket<T(!new)>(hash: T -> nat, less: (T, T) -> bool, b: seq<seq<T>>, e: T, x: T)
    requires Usable(hash, less) && Placed(hash, b) && x in Bag(b) && Equal(less, x, e)
    ensures x in b[hash(e) % |b|]
  {
    InBag(b, x);
    var i :| 0 <= i < |b| && x in b[i];
  }

  // ----- What insertion, removal and moving do to the buckets

  /** `list_remove`. */
  function Without<T(==)>(q: seq<T>, x: T): seq<T> {
    if q == [] then [] else if q[0] == x then q[1..] else [q[0]] + Without(q[1..], x)
  }

  lemma {:induction false} WithoutBag<T>(q: seq<T>, x: T)
    requires x in q
    ensures multiset(Without(q, x)) == multiset(q) - multiset{x}
    ensures forall y :: y in Without(q, x) ==> y in q
  {
    assert q == [q[0]] + q[1..];
    if q[0] != x { WithoutBag(q[1..], x); }
  }

  lemma SameBag<T>(a: multiset<T>, q: multiset<T>, b: multiset<T>, r: multiset<T>, e: multiset<T>)
    requires r == e + q && forall x :: a[x] + q[x] == b[x] + r[x]
    ensures a == b + e
  {
    forall x ensures a[x] == (b + e)[x] { assert r[x] == e[x] + q[x]; }
  }

  /** `list_push_front` into the right bucket. */
  lemma Pushed<T>(hash: T -> nat, b: seq<seq<T>>, i: nat, e: T)
    requires Placed(hash, b) && i < |b| && i == hash(e) % |b|
    ensures var b' := b[i := [e] + b[i]]; Placed(hash, b') && Bag(b') == Bag(b) + multiset{e}
  {
    BagUpdate(b, i, [e] + b[i]);
    hide Bag;
    assert multiset([e] + b[i]) == multiset{e} + multiset(b[i]);
    SameBag(Bag(b[i := [e] + b[i]]), multiset(b[i]), Bag(b), multiset([e] + b[i]), multiset{e});
  }

  lemma Inserted<T(!new)>(less: (T, T) -> bool, m: multiset<T>, e: T)
    requires Distinct(less, m) && !less(e, e) && forall x :: x in m ==> !Equal(less, x, e)
    ensures Distinct(less, m + multiset{e}) && Set(m + multiset{e}) == Set(m) + {e} && e !in Set(m)
  {
    assert Equal(less, e, e) && e !in m;
    var m' := m + multiset{e};
    forall x, y | x in m' && y in m' && Equal(less, x, y) ensures x == y {
      assert Equal(less, y, x);
    }
  }

  lemma Removed<T>(hash: T -> nat, b: seq<seq<T>>, i: nat, x: T)
    requires Placed(hash, b) && i < |b| && x in b[i]
    ensures var b' := b[i := Without(b[i], x)]; Placed(hash, b') && Bag(b') == Bag(b) - multiset{x} && x in Bag(b)
  {
    RemovedPlaced(hash, b, i, x);
    InBag(b, x);
    hide Bag, Without, Placed;
    WithoutBag(b[i], x);
    BagUpdate(b, i, Without(b[i], x));
    var b', q := Bag(b[i := Without(b[i], x)]), multiset(Without(b[i], x));
    SameBag(Bag(b), q, b', multiset(b[i]), multiset{x});
  }

  lemma RemovedPlaced<T>(hash: T -> nat, b: seq<seq<T>>, i: nat, x: T)
    requires Placed(hash, b) && i < |b| && x in b[i]
    ensures Placed(hash, b[i := Without(b[i], x)])
  {
    WithoutBag(b[i], x);
  }

  lemma Deleted<T(!new)>(less: (T, T) -> bool, m: multiset<T>, x: T)
    requires Distinct(less, m) && x in m
    ensures Distinct(less, m - multiset{x}) && Set(m - multiset{x}) == Set(m) - {x}
  {
    assert forall y :: (m - multiset{x})[y] == if y == x then m[y] - 1 else m[y];
  }

  class Hash<T(==, !new)> {
    const hash: T -> nat
    const less: (T, T) -> bool
    var buckets: array<seq<T>>
    var elemCnt: nat

    ghost predicate Valid()
      reads this, buckets
    {
      && Usable(hash, less)
      && buckets.Length >= 4 && IsPowerOf2(buckets.Length)
      && Placed(hash, buckets[..])
      && Distinct(less, Bag(buckets[..]))
      && elemCnt == |Contents()|
    }

    ghost function Contents(): (r: set<T>)
      reads this, buckets
    {
      Set(Bag(buckets[..]))
    }

    /** `hash_init`. */
    constructor (hash: T -> nat, less: (T, T) -> bool)
      requires Usable(hash, less)
      ensures Valid() && fresh(buckets) && Contents() == {} && this.hash == hash && this.less == less
    {
      this.hash, this.less, elemCnt := hash, less, 0;
      buckets := new seq<T>[4](_ => []);
      new;
      EmptyBag(buckets[..]);
      assert TurnOffLeast1Bit(4) == 0 by { TurnOffHalves(4); TurnOffHalves(2); TurnOffHalves(1); }
    }

    /** `find_bucket`. */
    method FindBucket(e: T) returns (i: nat)
      requires IsPowerOf2(buckets.Length)
      ensures i == hash(e) % buckets.Length < buckets.Length
    {
      i := And(hash(e), buckets.Length - 1);
      BucketIsRemainder(hash(e), buckets.Length);
    }

    /** `find_elem`. */
    method FindElem(i: nat, e: T) returns (found: Option<T>)
      requires i < buckets.Length
      ensures found.Some? ==> found.value in buckets[i] && Equal(less, found.value, e)
      ensures found.None? ==> forall x :: x in buckets[i] ==> !Equal(less, x, e)
    {
      for j := 0 to |buckets[i]|
        invariant forall k :: 0 <= k < j ==> !Equal(less, buckets[i][k], e)
      {
        var hi := buckets[i][j];
        if !less(hi, e) && !less(e, hi) {
          return Some(hi);
        }
      }
      return None;
    }

    /** `hash_find`: the one element of the table that is equivalent to `e`, if there is one. */
    method Find(e: T) returns (found: Option<T>)
      requires Valid()
      ensures found.Some? ==> found.value in Contents() && Equal(less, found.value, e)
      ensures found.None? ==> forall x :: x in Contents() ==> !Equal(less, x, e)
    {
      var i := FindBucket(e);
      found := FindElem(i, e);
      FoundIs(e, i, found);
    }

    lemma FoundIs(e: T, i: nat, found: Option<T>)
      requires Valid() && i == hash(e) % buckets.Length < buckets.Length
      requires found.Some? ==> found.value in buckets[i]
      requires found.None? ==> forall x :: x in buckets[i] ==> !Equal(less, x, e)
      ensures found.Some? ==> found.value in Contents()
      ensures found.None? ==> forall x :: x in Contents() ==> !Equal(less, x, e)
    {
      var b := buckets[..];
      if found.Some? {
        assert found.value in b[i];
        InBag(b, found.value);
      } else {
        forall x | x in Contents() ensures !Equal(less, x, e) {
          if Equal(less, x, e) { InOwnBucket(hash, less, b, e, x); }
        }
      }
    }

    /** `insert_elem`. */
    method InsertElem(i: nat, e: T)
      requires Valid() && i == hash(e) % buckets.Length < buckets.Length
      requires forall x :: x in Contents() ==> !Equal(less, x, e)
      modifies this, buckets
      ensures Valid() && buckets == old(buckets) && Contents() == old(Contents()) + {e} && e !in old(Contents())
    {
      Pushed(hash, buckets[..], i, e);
      Inserted(less, Bag(buckets[..]), e);
      ghost var b := buckets[..];
      elemCnt := elemCnt + 1;
      buckets[i] := [e] + buckets[i];
      assert buckets[..] == b[i := [e] + b[i]];
    }

    /** `remove_elem`. */
    method RemoveElem(i: nat, e: T)
      requires Valid() && i < buckets.Length && e in buckets[i]
      modifies this, buckets
      ensures Valid() && buckets == old(buckets) && Contents() == old(Contents()) - {e} && e in old(Contents())
    {
      ghost var b := buckets[..];
      Removed(hash, b, i, e);
      Deleted(less, Bag(b), e);
      assert e in Contents();
      elemCnt := elemCnt - 1;
      buckets[i] := Without(buckets[i], e);
      assert buckets[..] == b[i := Without(b[i], e)];
    }

    /**
     `rehash`.  `memory` says whether `malloc` delivers.  Afterwards the table has the
     ideal number of buckets, or is as it was, and in both cases holds what it held.
     */
    method Rehash(memory: bool)
      requires Valid()
      modifies this
      ensures Valid() && Contents() == old(Contents()) && elemCnt == old(elemCnt)
      ensures buckets == old(buckets) || fresh(buckets)
      ensures memory ==> IsIdeal(elemCnt, buckets.Length)
      ensures !memory ==> buckets == old(buckets)
    {
      var count := IdealBuckets(elemCnt);
      if count == buckets.Length || !memory {
        return;
      }
      var buckets' := MoveAll(count);
      buckets := buckets';
    }

    /** The loops of `rehash`, which move every element to its new bucket. */
    method MoveAll(count: nat) returns (b: array<seq<T>>)
      requires Valid() && IsPowerOf2(count)
      ensures fresh(b) && b.Length == count
      ensures Placed(hash, b[..]) && Bag(b[..]) == Bag(buckets[..])
    {
      hide Bag, Placed, Equal, Distinct, Usable;
      b := new seq<T>[count](_ => []);
      NonePlaced(hash, b[..]);
      NoBuckets<T>();
      assert buckets[..0] == [];
      for i := 0 to buckets.Length
        invariant Placed(hash, b[..]) && Bag(b[..]) == Bag(buckets[..i])
      {
        MoveBucket(b, buckets[i]);
        BagLast(buckets[..i + 1]);
        assert buckets[..i + 1][..i] == buckets[..i];
      }
      assert buckets[..buckets.Length] == buckets[..];
    }

    method MoveBucket(b: array<seq<T>>, q: seq<T>)
      requires IsPowerOf2(b.Length) && Placed(hash, b[..])
      modifies b
      ensures Placed(hash, b[..]) && Bag(b[..]) == old(Bag(b[..])) + multiset(q)
    {
      hide Bag, IsPowerOf2;
      for j := 0 to |q|
        invariant Placed(hash, b[..]) && Bag(b[..]) == old(Bag(b[..])) + multiset(q[..j])
      {
        var k := And(hash(q[j]), b.Length - 1);
        BucketIsRemainder(hash(q[j]), b.Length);
        Pushed(hash, b[..], k, q[j]);
        ghost var was := b[..];
        b[k] := [q[j]] + b[k];
        assert b[..] == was[k := [q[j]] + was[k]];
        assert q[..j + 1] == q[..j] + [q[j]];
        hide Placed;
      }
      assert q[..|q|] == q;
    }

    /** `hash_insert`: inserts `e` unless an equivalent element is there, which is returned. */
    method Insert(e: T, memory: bool) returns (found: Option<T>)
      requires Valid()
      modifies this, buckets
      ensures Valid() && (buckets == old(buckets) || fresh(buckets))
      ensures found.Some? ==> found.value in old(Contents()) && Equal(less, found.value, e) && Contents() == old(Contents())
      ensures found.None? ==> (forall x :: x in old(Contents()) ==> !Equal(less, x, e)) && Contents() == old(Contents()) + {e}
      ensures memory ==> IsIdeal(|Contents()|, buckets.Length)
    {
      var i := FindBucket(e);
      found := FindElem(i, e);
      FoundIs(e, i, found);
      if found.None? {
        InsertElem(i, e);
      }
      Rehash(memory);
    }

    /** `hash_replace`: inserts `e` in any case; an equivalent element is taken out and returned. */
    method Replace(e: T, memory: bool) returns (found: Option<T>)
      requires Valid()
      modifies this, buckets
      ensures Valid() && (buckets == old(buckets) || fresh(buckets))
      ensures found.Some? ==> found.value in old(Contents()) && Equal(less, found.value, e)
                              && Contents() == old(Contents()) - {found.value} + {e}
      ensures found.None? ==> (forall x :: x in old(Contents()) ==> !Equal(less, x, e)) && Contents() == old(Contents()) + {e}
      ensures memory ==> IsIdeal(|Contents()|, buckets.Length)
    {
      var i := FindBucket(e);
      found := FindElem(i, e);
      FoundIs(e, i, found);
      if found.Some? {
        OnlyOne(found.value, e);
        RemoveElem(i, found.value);
      }
      InsertElem(i, e);
      Rehash(memory);
    }

    lemma OnlyOne(x: T, e: T)
      requires Valid() && x in Contents() && Equal(less, x, e)
      ensures forall y :: y in Contents() && Equal(less, y, e) ==> y == x
    {
      forall y | y in Contents() && Equal(less, y, e) ensures y == x {
        assert Equal(less, x, y);
      }
    }

    /** `hash_delete`: takes out and returns the element equivalent to `e`, if there is one. */
    method Delete(e: T, memory: bool) returns (found: Option<T>)
      requires Valid()
      modifies this, buckets
      ensures Valid() && (buckets == old(buckets) || fresh(buckets))
      ensures found.Some? ==> found.value in old(Contents()) && Equal(less, found.value, e) && Contents() == old(Contents()) - {found.value}
      ensures found.None? ==> (forall x :: x in old(Contents()) ==> !Equal(less, x, e)) && Contents() == old(Contents())
      ensures if found.Some? && memory then IsIdeal(|Contents()|, buckets.Length) else buckets == old(buckets)
    {
      var i := FindBucket(e);
      found := FindElem(i, e);
      FoundIs(e, i, found);
      if found.Some? {
        RemoveElem(i, found.value);
        Rehash(memory);
      }
    }
  }

  // ----- Iteration

  lemma {:induction false} FlatSplit<T>(b: seq<seq<T>>, i: nat)
    requires i < |b|
    ensures Flat(b[..i + 1]) == Flat(b[..i]) + b[i] && Flat(b[..i + 1]) <= Flat(b)
  {
    assert b[..i + 1][..i] == b[..i];
    if i + 1 < |b| {
      var front := b[..|b| - 1];
      FlatSplit(front, i);
      assert front[..i + 1] == b[..i + 1];
    } else {
      assert b[..i + 1] == b;
    }
  }

  /** An iteration returns every element of the table, and each of them once. */
  lemma EachOnce<T(!new)>(h: Hash<T>)
    requires h.Valid()
    ensures var all := Flat(h.buckets[..]);
            && |all| == h.elemCnt == |h.Contents()|
            && (forall x :: x in h.Contents() <==> x in all)
            && (forall i, j :: 0 <= i < j < |all| ==> all[i] != all[j])
  {
    var all := Flat(h.buckets[..]);
    SetSize(Bag(h.buckets[..]));
    forall i, j | 0 <= i < j < |all| ensures all[i] != all[j] {
      if all[i] == all[j] { Twice(all, i, j); }
    }
  }

  lemma Twice<T>(q: seq<T>, i: nat, j: nat)
    requires i < j < |q| && q[i] == q[j]
    ensures multiset(q)[q[i]] >= 2
  {
    assert q == q[..j] + [q[j]] + q[j + 1..];
    assert q[i] in q[..j];
  }

  class HashIterator<T(==, !new)> {
    const table: Hash<T>
    var bucket: nat
    var pos: int
    var atEnd: bool

    ghost predicate Valid()
      reads this, table, table.buckets
    {
      table.Valid() && !atEnd ==> bucket < table.buckets.Length && -1 <= pos < |table.buckets[bucket]|
    }

    /** How many elements have been returned. */
    ghost function Returned(): nat
      reads this, table, table.buckets
      requires Valid() && table.Valid() && !atEnd
    {
      |Flat(table.buckets[..bucket])| + pos + 1
    }

    /** `hash_first`. */
    constructor (h: Hash<T>)
      requires h.Valid()
      ensures table == h && Valid() && !atEnd && Returned() == 0
    {
      table, bucket, pos, atEnd := h, 0, -1, false;
    }

    /** `hash_next`: the next element of the table, or none at the end of it. */
    method Next() returns (elem: Option<T>)
      requires Valid() && table.Valid() && !atEnd
      modifies this
      ensures Valid()
      ensures var all, n := Flat(table.buckets[..]), old(Returned());
              if n < |all| then !atEnd && elem == Some(all[n]) && Returned() == n + 1
              else atEnd && elem == None
    {
      hide Flat, Hash.Valid;
      ghost var n := Returned();
      ghost var b := table.buckets[..];
      assert table.buckets[..bucket] == b[..bucket];
      pos := pos + 1;
      while pos == |table.buckets[bucket]|
        invariant bucket < table.buckets.Length && 0 <= pos <= |table.buckets[bucket]| && !atEnd
        invariant |Flat(b[..bucket])| + pos == n && b == table.buckets[..]
        decreases table.buckets.Length - bucket
      {
        FlatSplit(b, bucket);
        bucket := bucket + 1;
        if bucket >= table.buckets.Length {
          atEnd := true;
          assert b[..bucket] == b;
          return None;
        }
        pos := 0;
      }
      FlatSplit(b, bucket);
      assert table.buckets[..bucket] == b[..bucket];
      elem := Some(table.buckets[bucket][pos]);
    }
  }
}
