/**
 The kernel's `malloc` and `free` (threads/malloc.c) on top of the page pool.
 Block addresses are integers, 0 is the null pointer.  Every call keeps
 `MallocModel.Inv` and changes the set of live blocks by exactly one block.
 */
module Malloc {
  import opened Sequences
  import opened MallocModel
  import opened MallocPages
  import opened Palloc
  import Bitmap

  /** No `n` consecutive pages are free. */
  ghost predicate NoRoom(used: seq<bool>, n: nat) {
    forall i: nat :: !Bitmap.Group(used, i, n, false)
  }

  class Heap {
    const pool: Pool
    const blockSizes: seq<nat>
    const blocksPerArena: seq<nat>
    var arenas: map<nat, Arena>
    var free: seq<seq<nat>>
    ghost var freeIdx: map<nat, set<nat>>
    ghost var owner: map<nat, nat>
    ghost var live: map<nat, nat>

    ghost function Here(): State
      requires pool.Valid()
      reads this, pool.usedMap.bits
    {
      State(pool.base, pool.Used(), arenas, free, freeIdx, owner, live)
    }

    ghost predicate Descs() {
      && |blockSizes| == |blocksPerArena| == DESC_CNT
      && forall d :: 0 <= d < DESC_CNT ==> blockSizes[d] == BlockSize(d) && blocksPerArena[d] == BlocksPerArena(d)
    }

    ghost predicate Valid()
      reads this, pool.usedMap.bits
    {
      pool.Valid() && Descs() && Inv(Here(), -1)
    }

    /** `malloc_init`, over an empty pool. */
    constructor (pool: Pool)
      requires pool.Valid()
      ensures Valid() && this.pool == pool && live == map[]
    {
      var sizes: seq<nat>, counts: seq<nat> := [], [];
      var blockSize := 16;
      while blockSize < PGSIZE / 2
        invariant |sizes| == |counts| <= DESC_CNT
        invariant blockSize == if |sizes| == DESC_CNT then 2048 else BlockSize(|sizes|)
        invariant forall d :: 0 <= d < |sizes| ==> sizes[d] == BlockSize(d) && counts[d] == BlocksPerArena(d)
        decreases DESC_CNT - |sizes|
      {
        sizes := sizes + [blockSize];
        counts := counts + [(PGSIZE - ARENA_SIZE) / blockSize];
        blockSize := blockSize * 2;
      }
      this.pool, blockSizes, blocksPerArena := pool, sizes, counts;
      arenas, free, freeIdx, owner, live := map[], seq(DESC_CNT, _ => []), map[], map[], map[];
    }

    /** The descriptor for `size`: the smallest block size that is large enough. */
    method FindDesc(size: nat) returns (d: nat)
      requires Descs()
      ensures d <= DESC_CNT && (d < DESC_CNT ==> size <= BlockSize(d))
      ensures forall e :: 0 <= e < d ==> BlockSize(e) < size
    {
      d := 0;
      while d < |blockSizes|
        invariant d <= DESC_CNT
        invariant forall e :: 0 <= e < d ==> BlockSize(e) < size
      {
        if blockSizes[d] >= size {
          return;
        }
        d := d + 1;
      }
    }

    /** `malloc`.  Sizes are such that size + header + page does not wrap around 32 bits. */
    method Malloc(size: nat) returns (x: nat)
      requires Valid() && size + ARENA_SIZE + PGSIZE <= 0x1_0000_0000
      modifies this, pool.usedMap.bits
      ensures Valid()
      ensures x != 0 ==> x !in old(live) && live == old(live)[x := size]
      ensures x == 0 ==> live == old(live) && pool.Used() == old(pool.Used())
      ensures x == 0 && size > 0 ==> NoRoom(old(pool.Used()), PagesNeeded(size))
      ensures x != 0 ==> PagesFollow(pool.base, old(pool.Used()), pool.Used(), live, x, size, true)
      ensures SameForeign(old(Here()), Here())
    {
      hide Inv, NoRoom, PagesFollow;
      if size == 0 {
        return 0;
      }
      var d := FindDesc(size);
      if d == DESC_CNT {
        x := MallocBig(size);
      } else {
        x := MallocSmall(d, size);
      }
    }

    method MallocBig(size: nat) returns (x: nat)
      requires Valid() && size > BlockSize(DESC_CNT - 1)
      modifies this, pool.usedMap.bits
      ensures Valid()
      ensures x != 0 ==> x !in old(live) && live == old(live)[x := size]
      ensures x == 0 ==> live == old(live) && pool.Used() == old(pool.Used()) && NoRoom(old(pool.Used()), PagesNeeded(size))
      ensures x != 0 ==> PagesFollow(pool.base, old(pool.Used()), pool.Used(), live, x, size, true)
      ensures SameForeign(old(Here()), Here())
    {
      hide PagesOk, ArenasOk, ListsOk, LiveOk, NewBig;
      var pageCnt := (size + ARENA_SIZE + PGSIZE - 1) / PGSIZE;
      ghost var was := Here();
      var p := pool.GetMultiple(pageCnt);
      if p == 0 {
        return 0;
      }
      forall q | p <= q < p + pageCnt ensures InPool(was, q) && !IsUsed(was, q) {
        assert !was.used[q - was.base];
      }
      NewBigOk(was, p, pageCnt, size, pool.Used());
      NewBigForeign(was, p, pageCnt, size, pool.Used());
      BigInArena(p);
      x := p * PGSIZE + ARENA_SIZE;
      arenas := arenas[p := Big(pageCnt)];
      live := live[x := size];
      owner := NewBig(was, p, pageCnt, size, pool.Used()).owner;
      NewBigState(was, p, pageCnt, size, pool.Used(), Here());
    }

    method MallocSmall(d: nat, size: nat) returns (x: nat)
      requires Valid() && d < DESC_CNT && 0 < size && RightArena(Small(d, 0), size)
      modifies this, pool.usedMap.bits
      ensures Valid()
      ensures x != 0 ==> x !in old(live) && live == old(live)[x := size]
      ensures x == 0 ==> live == old(live) && pool.Used() == old(pool.Used()) && NoRoom(old(pool.Used()), PagesNeeded(size))
      ensures d < |old(free)| && old(free)[d] != [] ==> x == old(free)[d][0] && pool.Used() == old(pool.Used())
      ensures x != 0 ==> PagesFollow(pool.base, old(pool.Used()), pool.Used(), live, x, size, true)
      ensures SameForeign(old(Here()), Here())
    {
      hide Inv, PagesFollow, PageOf, RightArena, NoRoom, SameForeign, Alone;
      ListThere(Here());
      RightSmall(d, size);
      ghost var full: int := -1;
      ghost var before := Here();
      if free[d] == [] {
        var p := FillFreeList(d);
        if p == 0 {
          ForeignKept(before, before);
          return 0;
        }
        full := p;
      } else {
        NotWholeFree(Here(), d);
        ForeignKept(before, before);
      }
      ghost var mid := Here();
      x := TakeHead(d, size, full);
      ForeignThrough(before, mid, Here());
      if full >= 0 {
        PageFollows(before.base, before.used, pool.Used(), live, x, size, true);
      }
      SmallFollows(before.base, before.used, live, x, size);
    }

    /** Takes the first block off the list of `d`, which is not empty. */
    method TakeHead(d: nat, size: nat, ghost full: int) returns (x: nat)
      requires pool.Valid() && Descs() && Inv(Here(), full) && d < DESC_CNT && d < |free| && free[d] != []
      requires RightArena(Small(d, 0), size) && (full < 0 || full == PageOf(free[d][0]))
      modifies `free, `arenas, `freeIdx, `live
      ensures Valid() && x == old(free)[d][0] && x > 0 && x !in old(live) && live == old(live)[x := size]
      ensures PageOf(x) in old(arenas) && old(arenas)[PageOf(x)].Small?
      ensures Alone(live, x) <==> old(arenas)[PageOf(x)].freeCnt >= BlocksPerArena(d)
      ensures SameForeign(old(Here()), Here())
    {
      hide PagesOk, ArenasOk, LiveOk, ListsOk, Alone, RightArena, BlocksPerArena, SameForeign;
      ghost var was := Here();
      ListThere(was);
      HeadFacts(was, d, full);
      TakenOk(was, d, size, full);
      TakenAlone(was, d, size, full);
      x := free[d][0];
      free := free[d := free[d][1..]];
      var a := PageOf(x);
      arenas := arenas[a := Small(arenas[a].desc, arenas[a].freeCnt - 1)];
      freeIdx := freeIdx[a := set i | i in freeIdx[a] && i != IdxOf(d, x)];
      live := live[x := size];
      assert Here() == Taken(was, d, size);
      ForeignKept(was, Here());
      NotNull(was, d);
    }

    /** Makes a new arena for descriptor `d`, whose free list is empty. */
    method FillFreeList(d: nat) returns (p: nat)
      requires Valid() && d < DESC_CNT && |free| == DESC_CNT && free[d] == []
      modifies this, pool.usedMap.bits
      ensures pool.Valid() && live == old(live)
      ensures p != 0 ==> Inv(Here(), p) && |free| == DESC_CNT && free[d] != [] && PageOf(free[d][0]) == p
      ensures p != 0 ==> p in arenas && arenas[p] == Small(d, BlocksPerArena(d))
      ensures p != 0 ==> pool.base <= p < pool.base + |old(pool.Used())| && !old(pool.Used())[p - pool.base]
      ensures p != 0 ==> pool.Used() == old(pool.Used())[p - pool.base := true] && SameForeign(old(Here()), Here())
      ensures p == 0 ==> Here() == old(Here()) && NoRoom(old(pool.Used()), 1)
    {
      hide Inv, Idxs, BlocksPerArena, Block, PageOf, BlockSize, SameForeign;
      ghost var was := Here();
      p := pool.GetMultiple(1);
      if p == 0 {
        return;
      }
      assert pool.Used() == was.used[p - was.base := true];
      assert !was.used[p - was.base];
      arenas := arenas[p := Small(d, blocksPerArena[d])];
      ListBlocks(p, d);
      freeIdx := freeIdx[p := Idxs(d)];
      owner := owner[p := p];
      NewArenaOk(was, p, d, free[d]);
      NewArenaForeign(was, p, d, free[d]);
      assert free == was.free[d := free[d]];
      assert Here() == NewArena(was, p, d, free[d]);
      BlockInArena(p, d, 0);
    }

    /** The loop of `malloc` that lists the blocks of a new arena. */
    method ListBlocks(p: nat, d: nat)
      requires Descs() && d < DESC_CNT == |free| && free[d] == []
      modifies `free
      ensures |free| == DESC_CNT && AllBlocks(free[d], p, d)
      ensures forall e :: 0 <= e < DESC_CNT && e != d ==> free[e] == old(free)[e]
    {
      hide BlocksPerArena, Block, BlockSize;
      for i := 0 to blocksPerArena[d]
        invariant |free| == DESC_CNT && |free[d]| == i
        invariant forall k :: 0 <= k < i ==> free[d][k] == Block(p, d, k)
        invariant forall e :: 0 <= e < DESC_CNT && e != d ==> free[e] == old(free)[e]
      {
        free := free[d := free[d] + [Block(p, d, i)]];
      }
    }

    /** `free`. */
    method Free(x: nat)
      requires Valid() && (x == 0 || x in live)
      modifies this, pool.usedMap.bits
      ensures Valid() && live == old(live) - {x}
      ensures x == 0 ==> pool.Used() == old(pool.Used())
      ensures x != 0 ==> PagesFollow(pool.base, old(pool.Used()), pool.Used(), old(live), x, old(live)[x], false)
      ensures SameForeign(old(Here()), Here())
    {
      hide PagesOk, ArenasOk, LiveOk, ListsOk, InUse, RightArena;
      if x == 0 {
        NullNotLive(Here());
        assert live - {0} == live;
        return;
      }
      LiveFacts(Here(), x);
      var a := PageOf(x);
      if arenas[a].Small? {
        FreeSmall(x, a);
      } else {
        FreeBig(x, a);
      }
    }

    method FreeBig(x: nat, a: nat)
      requires Valid() && x in live && a == PageOf(x) && a in arenas && arenas[a].Big?
      modifies this, pool.usedMap.bits
      ensures Valid() && live == old(live) - {x}
      ensures PagesFollow(pool.base, old(pool.Used()), pool.Used(), old(live), x, old(live)[x], false)
      ensures SameForeign(old(Here()), Here())
    {
      hide PagesOk, ArenasOk, LiveOk, ListsOk, InUse, Bitmap.Group, Bitmap.Filled;
      ghost var was := Here();
      BigPages(was, a);
      LiveFacts(was, x);
      var n := arenas[a].pages;
      BigGroup(was, a);
      pool.FreeMultiple(a, n);
      BigFreed(was, a, pool.Used());
      BigReturns(was, x, pool.Used());
      arenas := arenas - {a};
      live := live - {x};
      owner := owner - PageRange(a, n);
      assert Here() == DroppedBig(was, a, pool.Used());
    }

    method FreeSmall(x: nat, a: nat)
      requires Valid() && x in live && a == PageOf(x) && a in arenas && arenas[a].Small?
      modifies this, pool.usedMap.bits
      ensures Valid() && live == old(live) - {x}
      ensures PagesFollow(pool.base, old(pool.Used()), pool.Used(), old(live), x, old(live)[x], false)
      ensures SameForeign(old(Here()), Here())
    {
      hide Inv, RightArena, BlocksPerArena, PageOf, PagesFollow, Alone, IsUsed, LiveOk;
      ghost var was := Here();
      SmallIsSmall(was, x);
      ListThere(was);
      PutAlone(was, x);
      var d := arenas[a].desc;
      PutBack(x, a, d);
      ForeignKept(was, Here());
      SmallFollows(was.base, was.used, was.live, x, was.live[x]);
      if arenas[a].freeCnt >= blocksPerArena[d] {
        DropArena(a, d);
        PageFollows(was.base, was.used, pool.Used(), was.live, x, was.live[x], false);
      } else {
        NotFull(Here(), a);
      }
    }

    /** Puts a block at the front of its free list. */
    method PutBack(x: nat, a: nat, d: nat)
      requires Valid() && x in live && a == PageOf(x) && a in arenas && arenas[a].Small? && arenas[a].desc == d < |free|
      modifies `free, `arenas, `freeIdx, `live
      ensures pool.Valid() && Inv(Here(), a) && live == old(live) - {x} && |free| == DESC_CNT && d < DESC_CNT
      ensures a in arenas && arenas[a] == Small(d, old(arenas)[a].freeCnt + 1) && arenas[a].freeCnt <= BlocksPerArena(d)
    {
      hide PagesOk, ArenasOk, LiveOk, ListsOk, BlocksPerArena, Put;
      ghost var was := Here();
      PutOk(was, x);
      free := free[d := [x] + free[d]];
      arenas := arenas[a := Small(d, arenas[a].freeCnt + 1)];
      freeIdx := freeIdx[a := freeIdx[a] + {IdxOf(d, x)}];
      live := live - {x};
      PutState(was, x, Here());
    }

    /** Gives back the page of an arena all of whose blocks are free. */
    method DropArena(a: nat, d: nat)
      requires pool.Valid() && Descs() && Inv(Here(), a) && a in arenas && arenas[a].Small? && arenas[a].desc == d < |free|
      requires d < DESC_CNT == |free| && arenas[a].freeCnt == BlocksPerArena(d)
      modifies `free, `arenas, `freeIdx, `owner, pool.usedMap.bits
      ensures Valid() && live == old(live) && SameForeign(old(Here()), Here())
      ensures pool.base <= a < pool.base + |old(pool.Used())| && old(pool.Used())[a - pool.base]
      ensures pool.Used() == old(pool.Used())[a - pool.base := false]
    {
      hide PagesOk, ArenasOk, LiveOk, ListsOk, BlocksPerArena, Dropped, SameForeign;
      ghost var mid := Here();
      SmallPage(mid, a, a);
      RemoveArenaBlocks(a, d);
      DroppedOk(mid, a, free[d]);
      DroppedForeign(mid, a, free[d]);
      pool.FreeMultiple(a, 1);
      arenas := arenas - {a};
      freeIdx := freeIdx - {a};
      owner := owner - {a};
      DroppedState(mid, a, free[d], Here());
      assert pool.Used() == old(pool.Used())[a - pool.base := false];
    }

    /** The loop of `free` that takes all blocks of an unused arena off the free list. */
    method RemoveArenaBlocks(a: nat, d: nat)
      requires pool.Valid() && Descs() && Inv(Here(), a) && a in arenas && arenas[a].Small? && arenas[a].desc == d < |free|
      requires d < DESC_CNT == |free| && arenas[a].freeCnt == BlocksPerArena(d)
      modifies `free
      ensures |free| == |old(free)| && (forall e :: 0 <= e < |free| && e != d ==> free[e] == old(free)[e])
      ensures Without(old(free)[d], a, free[d])
    {
      hide Inv, BlocksPerArena, Block, IdxOf, PageOf, FirstBlocks, NoDup, Without;
      ghost var was := Here();
      WholeArenaFree(was, a, d);
      FirstNone(a, d);
      for i := 0 to blocksPerArena[d]
        invariant |free| == |was.free| && (forall e :: 0 <= e < |free| && e != d ==> free[e] == was.free[e])
        invariant NoDup(free[d])
        invariant forall x :: x in free[d] <==> x in was.free[d] && !FirstBlocks(x, a, d, i)
      {
        FirstStep(a, d, i);
        var rest := ListRemove(free[d], Block(a, d, i));
        free := free[d := rest];
      }
      ArenaGone(was, a, d, free[d]);
    }
  }

  /** `x` is one of the first `i` blocks of arena `a`. */
  ghost predicate FirstBlocks(x: nat, a: nat, d: nat, i: nat)
    requires d < DESC_CNT
  {
    exists k :: 0 <= k < i && x == Block(a, d, k)
  }

  lemma FirstNone(a: nat, d: nat)
    requires d < DESC_CNT
    ensures forall x :: !FirstBlocks(x, a, d, 0)
  {
  }

  lemma FirstStep(a: nat, d: nat, i: nat)
    requires d < DESC_CNT && i < BlocksPerArena(d)
    ensures !FirstBlocks(Block(a, d, i), a, d, i)
    ensures forall x :: FirstBlocks(x, a, d, i + 1) <==> FirstBlocks(x, a, d, i) || x == Block(a, d, i)
  {
    hide Block, IdxOf, PageOf;
    forall k | 0 <= k < i ensures Block(a, d, k) != Block(a, d, i) {
      BlockInArena(a, d, k);
      BlockInArena(a, d, i);
    }
  }

  /** `list_remove` on a free list. */
  method ListRemove(list: seq<nat>, b: nat) returns (rest: seq<nat>)
    requires NoDup(list) && b in list
    ensures NoDup(rest) && |rest| == |list| - 1
    ensures forall x :: x in rest <==> x in list && x != b
  {
    var k := 0;
    while list[k] != b
      invariant 0 <= k < |list| && b in list[k..]
      decreases |list| - k
    {
      assert list[k..] == [list[k]] + list[k + 1..];
      k := k + 1;
    }
    rest := list[..k] + list[k + 1..];
    CutOut(list, k);
  }

  lemma CutOut(list: seq<nat>, k: nat)
    requires NoDup(list) && k < |list|
    ensures var rest := list[..k] + list[k + 1..];
            NoDup(rest) && forall x :: x in rest <==> x in list && x != list[k]
  {
    var rest := list[..k] + list[k + 1..];
    forall i | 0 <= i < |rest| ensures rest[i] == list[if i < k then i else i + 1] { }
    forall x | x in rest ensures x in list && x != list[k] {
      var i :| 0 <= i < |rest| && rest[i] == x;
      assert x == list[if i < k then i else i + 1];
    }
    assert list == list[..k] + [list[k]] + list[k + 1..];
  }

  lemma ListThere(st: State)
    requires exists full: int :: Inv(st, full)
    ensures |st.free| == DESC_CNT
  {
    hide PagesOk, ArenasOk, LiveOk;
  }

  /** A listed block belongs to an arena that is not wholly free. */
  lemma NotWholeFree(st: State, d: nat)
    requires Inv(st, -1) && d < DESC_CNT == |st.free| && st.free[d] != []
    ensures var p := PageOf(st.free[d][0]); p in st.arenas && st.arenas[p].Small? && st.arenas[p].freeCnt < BlocksPerArena(d)
  {
    hide PagesOk, LiveOk, Block, IdxOf, BlocksPerArena, Idxs;
    HeadFacts(st, d, -1);
  }

  lemma SmallFollows(base: nat, used: seq<bool>, live: map<nat, nat>, x: nat, size: nat)
    requires size <= BlockSize(DESC_CNT - 1)
    ensures !Alone(live, x) ==> PagesFollow(base, used, used, live, x, size, true)
    ensures !Alone(live, x) ==> PagesFollow(base, used, used, live, x, size, false)
  {
  }

  lemma PageFollows(base: nat, used: seq<bool>, after: seq<bool>, live: map<nat, nat>, x: nat, size: nat, value: bool)
    requires size <= BlockSize(DESC_CNT - 1) && Alone(live, x)
    requires base <= PageOf(x) < base + |used| && used[PageOf(x) - base] == !value && after == used[PageOf(x) - base := value]
    ensures PagesFollow(base, used, after, live, x, size, value)
  {
    hide PageOf, Alone;
  }

  lemma NullNotLive(st: State)
    requires Inv(st, -1)
    ensures 0 !in st.live
  {
    assert forall n: nat :: !InUse(st, 0, n);
  }

  lemma LiveFacts(st: State, x: nat)
    requires Inv(st, -1) && x in st.live
    ensures PageOf(x) in st.arenas
    ensures st.arenas[PageOf(x)].Big? ==> x == PageOf(x) * PGSIZE + ARENA_SIZE
  {
    assert InUse(st, x, st.live[x]);
  }

  lemma BigGroup(st: State, p: nat)
    requires Inv(st, -1) && p in st.arenas && st.arenas[p].Big?
    ensures InPool(st, p) && Bitmap.Group(st.used, p - st.base, st.arenas[p].pages, true)
    ensures p - st.base + st.arenas[p].pages <= |st.used|
  {
    hide PagesOk, ArenasOk, ListsOk, LiveOk;
    BigPages(st, p);
    var n := st.arenas[p].pages;
    assert IsUsed(st, p) && IsUsed(st, p + n - 1);
    forall k | p - st.base <= k < p - st.base + n ensures st.used[k] {
      assert IsUsed(st, k + st.base);
    }
  }

  lemma BigFreed(st: State, p: nat, used: seq<bool>)
    requires Inv(st, -1) && p in st.arenas && st.arenas[p].Big? && InPool(st, p)
    requires p - st.base + st.arenas[p].pages <= |st.used|
    requires used == Bitmap.Filled(st.used, p - st.base, st.arenas[p].pages, false)
    ensures Inv(DroppedBig(st, p, used), -1)
  {
    hide PagesOk, ArenasOk, ListsOk, LiveOk;
    DroppedBigPages(st, p, used);
    DroppedBigOthers(st, p, used);
  }

  lemma SmallIsSmall(st: State, x: nat)
    requires Inv(st, -1) && x in st.live && PageOf(x) in st.arenas && st.arenas[PageOf(x)].Small?
    ensures st.live[x] <= BlockSize(DESC_CNT - 1)
  {
    hide PagesOk, ArenasOk, ListsOk;
  }

  lemma RightSmall(d: nat, size: nat)
    requires RightArena(Small(d, 0), size)
    ensures size <= BlockSize(DESC_CNT - 1) && PagesNeeded(size) == 1
  {
  }

  /** A big block takes its pages with it. */
  lemma BigReturns(st: State, x: nat, used: seq<bool>)
    requires Inv(st, -1) && x in st.live && PageOf(x) in st.arenas && st.arenas[PageOf(x)].Big?
    requires var p := PageOf(x);
             && InPool(st, p) && p - st.base + st.arenas[p].pages <= |st.used|
             && Bitmap.Group(st.used, p - st.base, st.arenas[p].pages, true)
             && used == Bitmap.Filled(st.used, p - st.base, st.arenas[p].pages, false)
    ensures PagesFollow(st.base, st.used, used, st.live, x, st.live[x], false)
    ensures SameForeign(st, DroppedBig(st, PageOf(x), used))
  {
    hide ArenasOk, ListsOk;
    assert st.arenas[PageOf(x)].pages == PagesNeeded(st.live[x]) && st.live[x] > BlockSize(DESC_CNT - 1);
    hide LiveOk, PagesNeeded, PageOf, PagesOk;
    DroppedBigForeign(st, PageOf(x), used);
  }

  lemma PutState(was: State, x: nat, st: State)
    requires PageOf(x) in was.arenas && was.arenas[PageOf(x)].Small? && PageOf(x) in was.freeIdx
    requires was.arenas[PageOf(x)].desc < DESC_CNT == |was.free|
    requires IdxOf(was.arenas[PageOf(x)].desc, x) >= 0
    requires var p := PageOf(x);
             var d := was.arenas[p].desc;
             st == was.(free := was.free[d := [x] + was.free[d]], arenas := was.arenas[p := Small(d, was.arenas[p].freeCnt + 1)],
                        freeIdx := was.freeIdx[p := was.freeIdx[p] + {IdxOf(d, x)}], live := was.live - {x})
    ensures st == Put(was, x)
  {
  }

  lemma DroppedState(mid: State, a: nat, rest: seq<nat>, st: State)
    requires a in mid.arenas && mid.arenas[a].Small? && mid.arenas[a].desc < |mid.free| && InPool(mid, a)
    requires |st.free| == |mid.free| && st.free[mid.arenas[a].desc] == rest
    requires forall e :: 0 <= e < |mid.free| && e != mid.arenas[a].desc ==> st.free[e] == mid.free[e]
    requires st == mid.(used := st.used, arenas := mid.arenas - {a}, freeIdx := mid.freeIdx - {a}, owner := mid.owner - {a}, free := st.free)
    requires st.used == Bitmap.Filled(mid.used, a - mid.base, 1, false)
    ensures st == Dropped(mid, a, rest)
  {
    assert st.free == mid.free[mid.arenas[a].desc := rest];
    assert st.used == mid.used[a - mid.base := false];
  }

  lemma WholeArenaFree(st: State, a: nat, d: nat)
    requires Inv(st, a) && a in st.arenas && st.arenas[a].Small? && st.arenas[a].desc == d < DESC_CNT
    requires st.arenas[a].freeCnt == BlocksPerArena(d)
    ensures |st.free| == DESC_CNT && NoDup(st.free[d])
    ensures forall i :: 0 <= i < BlocksPerArena(d) ==> Block(a, d, i) in st.free[d]
  {
    hide PagesOk, LiveOk, ArenasOk, ListsOk, Block, BlocksPerArena;
    WholeIdx(st, a, d);
    ListsNoDup(st, d);
    forall i | 0 <= i < BlocksPerArena(d) ensures Block(a, d, i) in st.free[d] {
      InLists(st, a, d, i);
    }
  }

  lemma WholeIdx(st: State, a: nat, d: nat)
    requires ArenasOk(st, a) && a in st.arenas && st.arenas[a].Small? && st.arenas[a].desc == d < DESC_CNT
    requires st.arenas[a].freeCnt == BlocksPerArena(d)
    ensures a in st.freeIdx && forall i :: 0 <= i < BlocksPerArena(d) ==> i in st.freeIdx[a]
  {
    hide BlocksPerArena;
    CardBound(st.freeIdx[a], d);
  }

  lemma InLists(st: State, a: nat, d: nat, i: nat)
    requires ListsOk(st) && a in st.arenas && st.arenas[a].Small? && st.arenas[a].desc == d < DESC_CNT
    requires a in st.freeIdx && i in st.freeIdx[a]
    ensures |st.free| == DESC_CNT && Block(a, d, i) in st.free[d]
  {
    hide Block, Listed, NoDup;
  }

  lemma ListsNoDup(st: State, d: nat)
    requires ListsOk(st) && d < DESC_CNT
    ensures |st.free| == DESC_CNT && NoDup(st.free[d])
  {
  }

  /** What is left on the list after the loop are the blocks of other arenas. */
  lemma ArenaGone(st: State, a: nat, d: nat, rest: seq<nat>)
    requires Inv(st, a) && d < DESC_CNT && NoDup(rest) && a in st.arenas && st.arenas[a].Small? && st.arenas[a].desc == d
    requires |st.free| == DESC_CNT && forall x :: x in rest <==> x in st.free[d] && !FirstBlocks(x, a, d, BlocksPerArena(d))
    ensures Without(st.free[d], a, rest)
  {
    hide Block, IdxOf, PageOf, BlocksPerArena, NoDup, PagesOk, LiveOk;
    forall x ensures x in rest <==> x in st.free[d] && PageOf(x) != a {
      if x in st.free[d] {
        assert Listed(st, d, x);
        InIdxs(st, a, PageOf(x), IdxOf(d, x));
        BlockInArena(PageOf(x), d, IdxOf(d, x));
        if FirstBlocks(x, a, d, BlocksPerArena(d)) {
          var k :| 0 <= k < BlocksPerArena(d) && x == Block(a, d, k);
          BlockInArena(a, d, k);
        }
      }
    }
  }

  lemma NewBigState(was: State, p: nat, n: nat, size: nat, used: seq<bool>, st: State)
    requires st == was.(used := used, arenas := was.arenas[p := Big(n)],
                        live := was.live[p * PGSIZE + ARENA_SIZE := size], owner := NewBig(was, p, n, size, used).owner)
    ensures st == NewBig(was, p, n, size, used)
  {
  }

  lemma NotNull(st: State, d: nat)
    requires d < DESC_CNT && d < |st.free| && st.free[d] != [] && Listed(st, d, st.free[d][0])
    ensures st.free[d][0] > 0
  {
  }
}
