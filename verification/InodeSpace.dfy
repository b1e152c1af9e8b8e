/**
 How many disk sectors an inode needs to have its first file sectors, counted
 against the sectors that are free.  Allocation keeps the difference, so that
 whether an operation has space enough can be said before it begins.
 */
module InodeSpace {
  import opened Sequences
  import opened InodeModel

  ghost function FreeSectors(used: seq<bool>): set<nat> { set k: nat | k < |used| && !used[k] }

  /** The file sectors below `n` that have no disk sector. */
  ghost function Missing(st: State, n: nat): set<nat>
    requires Shape(st)
  {
    set r: nat | r < n && Lookup(st, r) == SECTOR_ERROR
  }

  /** The index blocks for file sectors below `n` that are not there. */
  ghost function MissingIndex(st: State, n: nat): set<nat>
    requires Shape(st)
  {
    set m: nat | m < INDEX_MAIN_ENTRIES && DIRECT_BLOCKS <= m < DIRECT_BLOCKS + INDIRECT_BLOCKS && Rel(m, 0) < n
                 && st.main[m] == SECTOR_ERROR
  }

  /** The sectors to allocate before the file sectors below `n` are all there. */
  ghost function Need(st: State, n: nat): nat
    requires Shape(st)
  {
    |Missing(st, n)| + |MissingIndex(st, n)|
  }

  /** Free sectors left over; negative if there are too few. */
  ghost function Slack(st: State, n: nat): int
    requires Shape(st)
  {
    |FreeSectors(st.used)| - Need(st, n)
  }

  lemma Taken(used: seq<bool>, s: nat)
    requires s < |used| && !used[s]
    ensures |FreeSectors(used[s := true])| == |FreeSectors(used)| - 1
  {
    assert FreeSectors(used[s := true]) == FreeSectors(used) - {s};
  }

  lemma NoneFree(st: State, r: nat)
    requires Shape(st) && Lookup(st, r) == SECTOR_ERROR && forall k :: 0 <= k < |st.used| ==> st.used[k]
    ensures forall n: nat :: r < n ==> Slack(st, n) < 0
  {
    assert FreeSectors(st.used) == {};
    forall n: nat | r < n ensures Slack(st, n) < 0 {
      assert r in Missing(st, n);
    }
  }

  /** Giving file sector `r` the free disk sector `s`. */
  lemma SectorGiven(a: State, b: State, r: nat, s: nat)
    requires Shape(a) && Shape(b) && s < |a.used| && !a.used[s] && b.used == a.used[s := true]
    requires Lookup(a, r) == SECTOR_ERROR != s
    requires forall q: nat :: Lookup(b, q) == if q == r then s else Lookup(a, q)
    requires forall m :: DIRECT_BLOCKS <= m < DIRECT_BLOCKS + INDIRECT_BLOCKS ==> b.main[m] == a.main[m]
    ensures forall n: nat :: r < n ==> Slack(b, n) == Slack(a, n)
  {
    hide Shape, Lookup;
    Taken(a.used, s);
    forall n: nat | r < n ensures Slack(b, n) == Slack(a, n) {
      assert Missing(b, n) == Missing(a, n) - {r} && r in Missing(a, n);
      assert MissingIndex(b, n) == MissingIndex(a, n);
    }
  }

  /** Giving index slot `m` the free disk sector `s`. */
  lemma IndexGiven(a: State, b: State, m: nat, s: nat)
    requires Shape(a) && Shape(b) && s < |a.used| && !a.used[s] && b.used == a.used[s := true]
    requires DIRECT_BLOCKS <= m < DIRECT_BLOCKS + INDIRECT_BLOCKS && a.main[m] == SECTOR_ERROR != s
    requires b.main == a.main[m := s] && forall q: nat :: Lookup(b, q) == Lookup(a, q)
    ensures forall n: nat :: Rel(m, 0) < n ==> Slack(b, n) == Slack(a, n)
  {
    hide Lookup;
    Taken(a.used, s);
    forall n: nat | Rel(m, 0) < n ensures Slack(b, n) == Slack(a, n) {
      assert Missing(b, n) == Missing(a, n);
      assert MissingIndex(b, n) == MissingIndex(a, n) - {m} && m in MissingIndex(a, n);
    }
  }

  /** A covered range needs nothing. */
  lemma CoveredNeedsNothing(st: State, n: nat)
    requires Shape(st) && Covered(st, n)
    ensures Need(st, n) == 0 && Slack(st, n) >= 0
  {
    assert Missing(st, n) == {};
    forall m: nat | m in MissingIndex(st, n) ensures false {
      NoIndexNoData(st, m);
    }
    assert MissingIndex(st, n) == {};
  }

  lemma NoIndexNoData(st: State, m: nat)
    requires Shape(st) && DIRECT_BLOCKS <= m < DIRECT_BLOCKS + INDIRECT_BLOCKS && st.main[m] == SECTOR_ERROR
    ensures Lookup(st, Rel(m, 0)) == SECTOR_ERROR
  {
    IndexBijection(m, 0);
  }

  /** Only the free map and the sectors found matter. */
  lemma SameSlack(a: State, b: State, n: nat)
    requires Shape(a) && Shape(b) && a.used == b.used && a.main == b.main
    requires forall q: nat :: Lookup(b, q) == Lookup(a, q)
    ensures Slack(a, n) == Slack(b, n)
  {
    assert Missing(a, n) == Missing(b, n) && MissingIndex(a, n) == MissingIndex(b, n);
  }

  // ----- New files

  /** The sectors of a file of `length` bytes: its data, and its index blocks behind the direct ones. */
  function SectorsTaken(length: nat): nat {
    var n := SectorsFor(length);
    n + IndexBlocks(n)
  }

  function IndexBlocks(n: nat): nat { if n <= DIRECT_BLOCKS then 0 else DivRoundUp(n - DIRECT_BLOCKS, INDEX_BLOCK_ENTRIES) }

  ghost function Interval(a: nat, b: nat): (r: set<nat>)
    requires a <= b
    ensures |r| == b - a && forall k: nat :: k in r <==> a <= k < b
    decreases b - a
  {
    if a == b then {} else Interval(a, b - 1) + {b - 1}
  }

  /** What a file lacks that has its first sector only. */
  lemma NewFileNeeds(st: State, n: nat)
    requires Shape(st) && 1 <= n <= ACCESS_INDIRECT + 1
    requires forall q: nat :: (Lookup(st, q) == SECTOR_ERROR) == (q != 0)
    requires forall m :: DIRECT_BLOCKS <= m < DIRECT_BLOCKS + INDIRECT_BLOCKS ==> st.main[m] == SECTOR_ERROR
    ensures Need(st, n) == n - 1 + IndexBlocks(n)
  {
    hide Shape, Lookup;
    assert Missing(st, n) == Interval(1, n);
    var c := IndexBlocks(n);
    IndexesBelow(n);
    assert MissingIndex(st, n) == Interval(DIRECT_BLOCKS, DIRECT_BLOCKS + c);
  }

  /** The index slots that lead to file sectors below `n`. */
  lemma IndexesBelow(n: nat)
    requires n <= ACCESS_INDIRECT + 1
    ensures IndexBlocks(n) <= INDIRECT_BLOCKS
    ensures forall m: nat :: m >= DIRECT_BLOCKS ==> (Rel(m, 0) < n <==> m < DIRECT_BLOCKS + IndexBlocks(n))
  {
  }
}
