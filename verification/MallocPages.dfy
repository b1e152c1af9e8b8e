/**
 The pages of the heap of `MallocModel`: they are the pages on which live blocks
 lie, and the other pages of the pool are left alone.
 */
module MallocPages {
  import opened Sequences
  import opened MallocModel
  import Bitmap

  /** `x` is the only live block on its page, if it is one. */
  ghost predicate Alone(live: map<nat, nat>, x: nat) {
    forall y :: y in live && PageOf(y) == PageOf(x) ==> y == x
  }

  /** A page in use that is not the heap's. */
  ghost predicate Foreign(st: State, q: nat) {
    IsUsed(st, q) && q !in st.owner
  }

  ghost predicate SameForeign(a: State, b: State) {
    a.base == b.base && |a.used| == |b.used| && forall q: nat :: Foreign(a, q) == Foreign(b, q)
  }

  /** Some byte of the block `x` is on page `q`. */
  ghost predicate LiesOn(st: State, x: nat, q: nat)
    requires Inv(st, -1) && x in st.live
  {
    x < (q + 1) * PGSIZE && q * PGSIZE < x + Size(st, x)
  }

  /** A block of `size` bytes brings pages with it: it is big, or alone on its page. */
  ghost predicate HasPages(live: map<nat, nat>, x: nat, size: nat) {
    size > BlockSize(DESC_CNT - 1) || Alone(live, x)
  }

  /** Exactly the `n` pages from that of block `x` on became used, or free again. */
  ghost predicate PagesMoved(base: nat, before: seq<bool>, after: seq<bool>, x: nat, n: nat, used: bool) {
    && base <= PageOf(x) && PageOf(x) + n <= base + |before| && |after| == |before|
    && forall i :: 0 <= i < |before| ==>
         if PageOf(x) <= i + base < PageOf(x) + n then before[i] == !used && after[i] == used else after[i] == before[i]
  }

  /** What `malloc` does to the page allocator when it hands out `x`, and `free` when it takes `x` back. */
  ghost predicate PagesFollow(base: nat, before: seq<bool>, after: seq<bool>, live: map<nat, nat>, x: nat, size: nat, used: bool) {
    if HasPages(live, x, size) then PagesMoved(base, before, after, x, PagesNeeded(size), used) else after == before
  }

  /** Freeing what was just allocated gives back exactly the pages it took. */
  lemma PagesReturn(base: nat, a: seq<bool>, b: seq<bool>, c: seq<bool>, live: map<nat, nat>, x: nat, size: nat)
    requires PagesFollow(base, a, b, live, x, size, true) && PagesFollow(base, b, c, live, x, size, false)
    ensures c == a
  {
  }

  // ----- Small blocks

  /** An arena is not wholly free exactly when there is a live block on its page. */
  lemma LiveOnArena(st: State, p: nat, full: int)
    requires Inv(st, full) && p in st.arenas && st.arenas[p].Small?
    ensures st.arenas[p].desc < DESC_CNT
    ensures st.arenas[p].freeCnt < BlocksPerArena(st.arenas[p].desc) <==> exists y :: y in st.live && PageOf(y) == p
  {
    hide PagesOk, ListsOk, Block, IdxOf, BlocksPerArena, Idxs, BlockSize, PageOf, RightArena;
    var d := st.arenas[p].desc;
    CardBound(st.freeIdx[p], d);
    if st.arenas[p].freeCnt < BlocksPerArena(d) {
      var i := NotThere(st.freeIdx[p], BlocksPerArena(d));
      BlockInArena(p, d, i);
      assert InUse(st, Block(p, d, i), 0);
    } else if y: nat :| y in st.live && PageOf(y) == p {
      assert InUse(st, y, st.live[y]);
      InIdxSet(d, IdxOf(d, y));
    }
  }

  lemma InIdxSet(d: nat, i: nat)
    requires d < DESC_CNT && i < BlocksPerArena(d)
    ensures i in Idxs(d)
  {
  }

  lemma NotThere(s: set<nat>, n: nat) returns (i: nat)
    requires |s| < n
    ensures i < n && i !in s
  {
    if UpTo(n) <= s {
      Subset(UpTo(n), s);
    }
    i :| i in UpTo(n) && i !in s;
  }

  /** Taking a block off a list: it is alone on its page exactly when its arena was wholly free. */
  lemma TakenAlone(st: State, d: nat, size: nat, full: int)
    requires Inv(st, full) && d < DESC_CNT && st.free[d] != [] && RightArena(Small(d, 0), size)
    requires full < 0 || full == PageOf(st.free[d][0])
    ensures Listed(st, d, st.free[d][0]) && st.arenas[PageOf(st.free[d][0])].freeCnt > 0
    ensures Alone(Taken(st, d, size).live, st.free[d][0])
            <==> st.arenas[PageOf(st.free[d][0])].freeCnt >= BlocksPerArena(d)
  {
    hide PagesOk, ArenasOk, ListsOk, LiveOk, PageOf, BlocksPerArena, RightArena;
    ListCount(st);
    HeadFacts(st, d, full);
    TakenOk(st, d, size, full);
    ListedFacts(st, d, st.free[d][0]);
    LiveOnArena(st, PageOf(st.free[d][0]), full);
  }

  /** Freeing a block: it was alone on its page exactly when its arena is wholly free afterwards. */
  lemma PutAlone(st: State, x: nat)
    requires Inv(st, -1) && x in st.live && PageOf(x) in st.arenas && st.arenas[PageOf(x)].Small?
    ensures st.arenas[PageOf(x)].desc < DESC_CNT
    ensures Alone(st.live, x) <==> st.arenas[PageOf(x)].freeCnt + 1 >= BlocksPerArena(st.arenas[PageOf(x)].desc)
  {
    hide Inv, PagesOk, ArenasOk, ListsOk, LiveOk, PageOf, BlocksPerArena;
    LiveOnArena(st, PageOf(x), -1);
    PutOk(st, x);
    LiveOnArena(Put(st, x), PageOf(x), PageOf(x));
  }

  // ----- The pages of the heap

  /** The pages of the heap are the pages that live blocks lie on: no page is kept for nothing. */
  lemma PagesHoldLive(st: State, q: nat)
    requires Inv(st, -1)
    ensures q in st.owner <==> exists x :: x in st.live && LiesOn(st, x, q)
  {
    hide ListsOk, RightArena, BlocksPerArena, Idxs;
    if q in st.owner {
      var p := st.owner[q];
      assert InArena(st, q, p);
      var x := OneLive(st, p);
      LiesWithin(st, x, q);
    }
    if x :| x in st.live && LiesOn(st, x, q) {
      LiesWithin(st, x, q);
      assert InArena(st, q, PageOf(x));
    }
  }

  lemma OneLive(st: State, p: nat) returns (x: nat)
    requires Inv(st, -1) && p in st.arenas
    ensures x in st.live && PageOf(x) == p
  {
    hide PagesOk, ListsOk, RightArena, BlocksPerArena, Idxs, Block, IdxOf, BlockSize;
    if st.arenas[p].Small? {
      LiveOnArena(st, p, -1);
      x :| x in st.live && PageOf(x) == p;
    } else {
      x := p * PGSIZE + ARENA_SIZE;
      BigInArena(p);
      assert InUse(st, x, 0);
    }
  }

  lemma LiesWithin(st: State, x: nat, q: nat)
    requires Inv(st, -1) && x in st.live
    ensures PageOf(x) in st.arenas
    ensures LiesOn(st, x, q) <==> PageOf(x) <= q < PageOf(x) + ArenaPages(st, PageOf(x))
  {
    hide PagesOk, ListsOk, RightArena, BlocksPerArena, Idxs, Block;
    Extent(st, x);
    assert InUse(st, x, st.live[x]);
  }

  /** When nothing is live the heap has no page: all that it took it has given back. */
  lemma NothingLive(st: State, q: nat)
    requires Inv(st, -1) && st.live == map[]
    ensures IsUsed(st, q) <==> Foreign(st, q)
  {
    hide Inv;
    PagesHoldLive(st, q);
  }

  // ----- Foreign pages

  lemma ForeignKept(a: State, b: State)
    requires a.base == b.base && a.used == b.used && a.owner == b.owner
    ensures SameForeign(a, b)
  {
  }

  lemma ForeignThrough(a: State, b: State, c: State)
    requires SameForeign(a, b) && SameForeign(b, c)
    ensures SameForeign(a, c)
  {
  }

  lemma NewBigForeign(st: State, p: nat, n: nat, size: nat, used: seq<bool>)
    requires |used| == |st.used| && forall q :: p <= q < p + n ==> !IsUsed(st, q)
    requires forall i :: 0 <= i < |used| ==> used[i] == (st.used[i] || p <= i + st.base < p + n)
    ensures SameForeign(st, NewBig(st, p, n, size, used))
  {
    var st' := NewBig(st, p, n, size, used);
    forall q: nat ensures Foreign(st', q) == Foreign(st, q) {
      if InPool(st, q) { assert used[q - st.base] == (st.used[q - st.base] || p <= q < p + n); }
    }
  }

  lemma NewArenaForeign(st: State, p: nat, d: nat, blocks: seq<nat>)
    requires InPool(st, p) && !IsUsed(st, p) && d < DESC_CNT == |st.free|
    ensures SameForeign(st, NewArena(st, p, d, blocks))
  {
    hide BlocksPerArena, Idxs;
    var st' := NewArena(st, p, d, blocks);
    forall q: nat ensures Foreign(st', q) == Foreign(st, q) { }
  }

  lemma DroppedForeign(st: State, p: nat, rest: seq<nat>)
    requires p in st.arenas && st.arenas[p].Small? && st.arenas[p].desc < |st.free| && InPool(st, p) && p in st.owner
    ensures SameForeign(st, Dropped(st, p, rest))
  {
    var st' := Dropped(st, p, rest);
    forall q: nat ensures Foreign(st', q) == Foreign(st, q) { }
  }

  lemma DroppedBigForeign(st: State, p: nat, used: seq<bool>)
    requires PagesOk(st) && p in st.arenas && st.arenas[p].Big? && |used| == |st.used|
    requires forall i :: 0 <= i < |used| ==> used[i] == (st.used[i] && !(p <= i + st.base < p + st.arenas[p].pages))
    ensures SameForeign(st, DroppedBig(st, p, used))
  {
    var st' := DroppedBig(st, p, used);
    forall q: nat ensures Foreign(st', q) == Foreign(st, q) {
      if p <= q < p + st.arenas[p].pages { assert InArena(st, q, p); }
      if InPool(st, q) { assert used[q - st.base] == (st.used[q - st.base] && !(p <= q < p + st.arenas[p].pages)); }
    }
  }
}
