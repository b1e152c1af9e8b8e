/**
 The block allocator's data (threads/malloc.c) as values: arenas, free lists and
 live blocks, with the invariant that `malloc` and `free` keep.
 Addresses are integers; pages are named by their number.
 */
module MallocModel {
  import opened Sequences

  const ARENA_SIZE: nat := 12   // sizeof (struct arena)
  const DESC_CNT: nat := 7

  datatype Arena =
    | Small(desc: nat, freeCnt: nat)   // freeCnt free blocks of the descriptor's size
    | Big(pages: nat)                  // one block of that many pages

  datatype State = State(
    base: nat,                     // first page of the kernel pool
    used: seq<bool>,               // its bitmap
    arenas: map<nat, Arena>,       // arena headers, by page
    free: seq<seq<nat>>,           // the descriptors' free lists
    freeIdx: map<nat, set<nat>>,   // which blocks of a small arena are free
    owner: map<nat, nat>,          // which arena a page belongs to
    live: map<nat, nat>)           // blocks handed out, with the size asked for

  // ----- Descriptors and block addresses

  function BlockSize(d: nat): (n: nat)
    requires d < DESC_CNT
    ensures 16 <= n <= 1024
  {
    if d == 0 then 16 else if d == 1 then 32 else if d == 2 then 64 else if d == 3 then 128
    else if d == 4 then 256 else if d == 5 then 512 else 1024
  }

  function BlocksPerArena(d: nat): (n: nat)
    requires d < DESC_CNT
    ensures 3 <= n <= 255
  {
    (PGSIZE - ARENA_SIZE) / BlockSize(d)
  }

  /** `arena_to_block`. */
  function Block(p: nat, d: nat, i: nat): nat
    requires d < DESC_CNT
  {
    p * PGSIZE + ARENA_SIZE + i * BlockSize(d)
  }

  /** `block_to_arena`: the page a block is in. */
  function PageOf(x: nat): nat {
    x / PGSIZE
  }

  /** The index of a block within its arena. */
  function IdxOf(d: nat, x: nat): int
    requires d < DESC_CNT
  {
    (x % PGSIZE - ARENA_SIZE) / BlockSize(d)
  }

  /** `block_to_arena` inverts `arena_to_block`, and blocks lie behind the header within the page. */
  lemma BlockInArena(p: nat, d: nat, i: nat)
    requires d < DESC_CNT && i < BlocksPerArena(d)
    ensures PageOf(Block(p, d, i)) == p && IdxOf(d, Block(p, d, i)) == i
    ensures p * PGSIZE + ARENA_SIZE <= Block(p, d, i)
    ensures Block(p, d, i) + BlockSize(d) <= (p + 1) * PGSIZE
    ensures (Block(p, d, i) % PGSIZE - ARENA_SIZE) % BlockSize(d) == 0
  {
    if d == 0 { Within(p, i, 16); } else if d == 1 { Within(p, i, 32); } else if d == 2 { Within(p, i, 64); }
    else if d == 3 { Within(p, i, 128); } else if d == 4 { Within(p, i, 256); }
    else if d == 5 { Within(p, i, 512); } else { Within(p, i, 1024); }
  }

  lemma Within(p: nat, i: nat, n: nat)
    requires n in {16, 32, 64, 128, 256, 512, 1024} && ARENA_SIZE + (i + 1) * n <= PGSIZE
    ensures (p * PGSIZE + ARENA_SIZE + i * n) / PGSIZE == p
    ensures (p * PGSIZE + ARENA_SIZE + i * n) % PGSIZE == ARENA_SIZE + i * n
  {
  }

  lemma BigInArena(p: nat)
    ensures PageOf(p * PGSIZE + ARENA_SIZE) == p
  {
  }

  function UpTo(n: nat): (s: set<nat>)
    ensures |s| == n && forall i: int :: i in s <==> 0 <= i < n
  {
    if n == 0 then {} else UpTo(n - 1) + {n - 1}
  }

  function Idxs(d: nat): (s: set<nat>)
    requires d < DESC_CNT
  {
    UpTo(BlocksPerArena(d))
  }

  // ----- The invariant

  /** Page `q` is one of the pages of arena `p`. */
  predicate InArena(st: State, q: nat, p: nat) {
    p in st.arenas && p <= q < p + (if st.arenas[p].Small? then 1 else st.arenas[p].pages)
  }

  predicate InPool(st: State, q: nat) {
    st.base <= q < st.base + |st.used|
  }

  /** Page `q` is a page of the pool that the page allocator has handed out. */
  predicate IsUsed(st: State, q: nat) {
    InPool(st, q) && st.used[q - st.base]
  }

  ghost predicate PagesOk(st: State) {
    && (forall q | q in st.owner :: IsUsed(st, q) && InArena(st, q, st.owner[q]))
    && (forall p, q | InArena(st, q, p) :: q in st.owner && st.owner[q] == p)
  }

  /** `full` may be an arena all of whose blocks are free. */
  ghost predicate ArenasOk(st: State, full: int) {
    forall p | p in st.arenas ::
      match st.arenas[p]
      case Small(d, c) =>
        && d < DESC_CNT && p in st.freeIdx && st.freeIdx[p] <= Idxs(d)
        && |st.freeIdx[p]| == c && (p != full ==> c < BlocksPerArena(d))
      case Big(n) => n > 0
  }

  ghost predicate ListsOk(st: State) {
    && |st.free| == DESC_CNT
    && (forall d :: 0 <= d < DESC_CNT ==> NoDup(st.free[d]))
    && (forall d, x {:trigger x in st.free[d]} | 0 <= d < DESC_CNT && x in st.free[d] :: Listed(st, d, x))
    && (forall p, i {:trigger i in st.freeIdx[p]} |
          p in st.arenas && st.arenas[p].Small? && p in st.freeIdx && i in st.freeIdx[p] ::
          st.arenas[p].desc < DESC_CNT && Block(p, st.arenas[p].desc, i) in st.free[st.arenas[p].desc])
  }

  /** `x` is a free block of descriptor `d`. */
  ghost predicate Listed(st: State, d: nat, x: nat)
    requires d < DESC_CNT
  {
    var p := PageOf(x);
    && p in st.arenas && st.arenas[p].Small? && st.arenas[p].desc == d && p in st.freeIdx
    && IdxOf(d, x) >= 0 && IdxOf(d, x) in st.freeIdx[p] && x == Block(p, d, IdxOf(d, x))
  }

  /** `x` is a block in use that is large enough for the `size` bytes asked for. */
  ghost predicate InUse(st: State, x: nat, size: nat) {
    var p := PageOf(x);
    && p in st.arenas
    && match st.arenas[p]
       case Small(d, c) =>
         && d < DESC_CNT && p in st.freeIdx && 0 <= IdxOf(d, x) < BlocksPerArena(d)
         && IdxOf(d, x) !in st.freeIdx[p] && x == Block(p, d, IdxOf(d, x)) && size <= BlockSize(d)
       case Big(n) => x == p * PGSIZE + ARENA_SIZE && size + ARENA_SIZE <= n * PGSIZE
  }

  /** The pages of a block of `size` bytes: its own, or one of an arena that it shares with others. */
  function PagesNeeded(size: nat): nat {
    if size <= BlockSize(DESC_CNT - 1) then 1
    else (size + ARENA_SIZE + PGSIZE - 1) / PGSIZE
  }

  /** The smallest blocks that are large enough for `size` bytes, or as few pages as will do. */
  predicate RightArena(a: Arena, size: nat) {
    match a
    case Small(d, _) => d < DESC_CNT && size <= BlockSize(d) && (d == 0 || BlockSize(d - 1) < size)
    case Big(n) => size > BlockSize(DESC_CNT - 1) && n == PagesNeeded(size)
  }

  ghost predicate LiveOk(st: State) {
    && (forall x | x in st.live :: PageOf(x) in st.arenas && RightArena(st.arenas[PageOf(x)], st.live[x]))
    && (forall x | x in st.live :: InUse(st, x, st.live[x]))
    && (forall x | InUse(st, x, 0) :: x in st.live)
  }

  ghost predicate Inv(st: State, full: int) {
    PagesOk(st) && ArenasOk(st, full) && ListsOk(st) && LiveOk(st)
  }

  // ----- What the invariant means

  /** The address range of a live block. */
  ghost function Size(st: State, x: nat): nat
    requires Inv(st, -1) && x in st.live
  {
    assert InUse(st, x, st.live[x]);
    match st.arenas[PageOf(x)]
    case Small(d, _) => BlockSize(d)
    case Big(n) => n * PGSIZE - ARENA_SIZE
  }

  /** Live blocks do not overlap. */
  lemma LiveDisjoint(st: State, x: nat, y: nat)
    requires Inv(st, -1) && x in st.live && y in st.live && x != y
    ensures x + Size(st, x) <= y || y + Size(st, y) <= x
    ensures Size(st, x) >= st.live[x]
  {
    assert InUse(st, x, st.live[x]) && InUse(st, y, st.live[y]);
    var p, q := PageOf(x), PageOf(y);
    if p == q {
      var d := st.arenas[p].desc;
      SameArena(p, d, IdxOf(d, x), IdxOf(d, y));
    } else {
      Extent(st, x);
      Extent(st, y);
      assert InArena(st, p, p) && InArena(st, q, q);
      ArenasApart(st, p, q);
    }
  }

  lemma SameArena(p: nat, d: nat, i: nat, j: nat)
    requires d < DESC_CNT && i != j
    ensures Block(p, d, i) + BlockSize(d) <= Block(p, d, j) || Block(p, d, j) + BlockSize(d) <= Block(p, d, i)
  {
    var n := BlockSize(d);
    if i < j { assert (i + 1) * n <= j * n; } else { assert (j + 1) * n <= i * n; }
  }

  function ArenaPages(st: State, p: nat): nat
    requires p in st.arenas
  {
    if st.arenas[p].Small? then 1 else st.arenas[p].pages
  }

  lemma Extent(st: State, x: nat)
    requires Inv(st, -1) && x in st.live
    ensures var p := PageOf(x);
            p in st.arenas && p * PGSIZE + ARENA_SIZE <= x && x + Size(st, x) <= (p + ArenaPages(st, p)) * PGSIZE
  {
    assert InUse(st, x, st.live[x]);
    var p := PageOf(x);
    if st.arenas[p].Small? {
      BlockInArena(p, st.arenas[p].desc, IdxOf(st.arenas[p].desc, x));
    }
  }

  lemma ArenasApart(st: State, p: nat, q: nat)
    requires PagesOk(st) && p in st.arenas && q in st.arenas && p != q
    requires ArenaPages(st, p) > 0 && ArenaPages(st, q) > 0
    ensures p + ArenaPages(st, p) <= q || q + ArenaPages(st, q) <= p
  {
    if p < q {
      assert !InArena(st, q, p) by { assert InArena(st, q, q); }
    } else {
      assert !InArena(st, p, q) by { assert InArena(st, p, p); }
    }
  }

  /** A live block is on no free list. */
  lemma LiveNotFree(st: State, x: nat, d: nat)
    requires Inv(st, -1) && x in st.live && d < DESC_CNT
    ensures x !in st.free[d]
  {
    assert InUse(st, x, st.live[x]);
  }

  // ----- State changes of malloc

  /** A fresh arena at page `p` for descriptor `d`, whose free list was empty. */
  function NewArena(st: State, p: nat, d: nat, blocks: seq<nat>): State
    requires InPool(st, p) && d < DESC_CNT && |st.free| == DESC_CNT
  {
    st.(used := st.used[p - st.base := true], arenas := st.arenas[p := Small(d, BlocksPerArena(d))],
        free := st.free[d := blocks], freeIdx := st.freeIdx[p := Idxs(d)], owner := st.owner[p := p])
  }

  /** All blocks of the arena, in order. */
  ghost predicate AllBlocks(blocks: seq<nat>, p: nat, d: nat)
    requires d < DESC_CNT
  {
    |blocks| == BlocksPerArena(d) && forall i :: 0 <= i < |blocks| ==> blocks[i] == Block(p, d, i)
  }

  lemma FreshPage(st: State, p: nat)
    requires PagesOk(st) && ArenasOk(st, -1) && InPool(st, p) && !IsUsed(st, p)
    ensures p !in st.owner && p !in st.arenas && forall q :: !InArena(st, p, q)
  {
    assert InArena(st, p, p) ==> p in st.owner;
  }

  lemma NewArenaPages(st: State, p: nat, d: nat, blocks: seq<nat>)
    requires Inv(st, -1) && d < DESC_CNT && InPool(st, p) && !IsUsed(st, p)
    ensures PagesOk(NewArena(st, p, d, blocks))
  {
    hide ListsOk, LiveOk, Idxs, BlocksPerArena;
    ListCount(st);
    var st' := NewArena(st, p, d, blocks);
    FreshPage(st, p);
    forall q | q in st'.owner ensures InArena(st', q, st'.owner[q]) {
      if q != p { assert InArena(st, q, st.owner[q]); }
    }
    forall a: nat, q: nat | InArena(st', q, a) ensures q in st'.owner && st'.owner[q] == a {
      if a != p { assert InArena(st, q, a); }
    }
  }

  lemma NewArenaArenas(st: State, p: nat, d: nat, blocks: seq<nat>)
    requires Inv(st, -1) && d < DESC_CNT && InPool(st, p)
    ensures ArenasOk(NewArena(st, p, d, blocks), p)
  {
    hide PagesOk, ListsOk, LiveOk;
    ListCount(st);
  }

  lemma NewArenaLists(st: State, p: nat, d: nat, blocks: seq<nat>)
    requires Inv(st, -1) && d < DESC_CNT && InPool(st, p) && !IsUsed(st, p)
    requires st.free[d] == [] && AllBlocks(blocks, p, d)
    ensures ListsOk(NewArena(st, p, d, blocks))
  {
    hide Block, PageOf, IdxOf, PagesOk, LiveOk, ArenasOk, BlockSize, BlocksPerArena;
    var st' := NewArena(st, p, d, blocks);
    FreshPage(st, p);
    forall i, j | 0 <= i < j < |blocks| ensures blocks[i] != blocks[j] {
      BlockInArena(p, d, i);
      BlockInArena(p, d, j);
    }
    forall e, x | 0 <= e < DESC_CNT && x in st'.free[e] ensures Listed(st', e, x) {
      if e == d {
        var i :| 0 <= i < |blocks| && blocks[i] == x;
        BlockInArena(p, d, i);
      } else {
        assert Listed(st, e, x);
      }
    }
    forall a, i | a in st'.arenas && st'.arenas[a].Small? && a in st'.freeIdx && i in st'.freeIdx[a]
      ensures st'.arenas[a].desc < DESC_CNT && Block(a, st'.arenas[a].desc, i) in st'.free[st'.arenas[a].desc]
    {
      if a == p {
        assert blocks[i] == Block(p, d, i);
      } else {
        assert i in st.freeIdx[a];
      }
    }
  }

  lemma NewArenaLive(st: State, p: nat, d: nat, blocks: seq<nat>)
    requires Inv(st, -1) && d < DESC_CNT && InPool(st, p) && !IsUsed(st, p)
    ensures LiveOk(NewArena(st, p, d, blocks))
  {
    hide Block, PageOf, IdxOf, RightArena, BlockSize, BlocksPerArena, ListsOk;
    ListCount(st);
    var st' := NewArena(st, p, d, blocks);
    FreshPage(st, p);
    forall x | x in st'.live ensures InUse(st', x, st'.live[x]) {
      assert InUse(st, x, st.live[x]);
    }
    forall x | InUse(st', x, 0) ensures x in st'.live {
      if PageOf(x) != p { assert InUse(st, x, 0); }
    }
  }

  lemma NewArenaOk(st: State, p: nat, d: nat, blocks: seq<nat>)
    requires Inv(st, -1) && d < DESC_CNT && InPool(st, p) && !IsUsed(st, p)
    requires st.free[d] == [] && AllBlocks(blocks, p, d)
    ensures Inv(NewArena(st, p, d, blocks), p)
  {
    hide PagesOk, ArenasOk, LiveOk;
    NewArenaPages(st, p, d, blocks);
    NewArenaArenas(st, p, d, blocks);
    NewArenaLists(st, p, d, blocks);
    NewArenaLive(st, p, d, blocks);
  }

  /** Pops the first block of the free list of `d`. */
  function Taken(st: State, d: nat, size: nat): State
    requires d < |st.free| && st.free[d] != []
    requires PageOf(st.free[d][0]) in st.arenas && st.arenas[PageOf(st.free[d][0])].Small?
    requires st.arenas[PageOf(st.free[d][0])].freeCnt > 0 && PageOf(st.free[d][0]) in st.freeIdx && d < DESC_CNT
  {
    var x := st.free[d][0];
    var p := PageOf(x);
    st.(free := st.free[d := st.free[d][1..]],
        arenas := st.arenas[p := Small(st.arenas[p].desc, st.arenas[p].freeCnt - 1)],
        freeIdx := st.freeIdx[p := set i | i in st.freeIdx[p] && i != IdxOf(d, x)],
        live := st.live[x := size])
  }

  lemma HeadFacts(st: State, d: nat, full: int)
    requires Inv(st, full) && d < DESC_CNT && st.free[d] != []
    ensures Listed(st, d, st.free[d][0]) && st.arenas[PageOf(st.free[d][0])].freeCnt > 0
  {
    var x := st.free[d][0];
    assert x in st.free[d];
    assert Listed(st, d, x);
    assert st.freeIdx[PageOf(x)] != {};
  }

  lemma TakenPages(st: State, d: nat, size: nat, full: int)
    requires Inv(st, full) && d < DESC_CNT && st.free[d] != []
    ensures Listed(st, d, st.free[d][0]) && st.arenas[PageOf(st.free[d][0])].freeCnt > 0
    ensures PagesOk(Taken(st, d, size))
  {
    hide LiveOk, ListsOk, Listed, Block, IdxOf, PageOf, ArenasOk;
    ListCount(st);
    HeadFacts(st, d, full);
    ListedFacts(st, d, st.free[d][0]);
    var st' := Taken(st, d, size);
    forall q | q in st'.owner ensures InArena(st', q, st'.owner[q]) {
      assert InArena(st, q, st.owner[q]);
    }
    forall a: nat, q: nat | InArena(st', q, a) ensures q in st'.owner && st'.owner[q] == a {
      assert InArena(st, q, a);
    }
  }

  lemma ListedFacts(st: State, d: nat, x: nat)
    requires d < DESC_CNT && Listed(st, d, x)
    ensures PageOf(x) in st.arenas && st.arenas[PageOf(x)].Small? && st.arenas[PageOf(x)].desc == d
    ensures PageOf(x) in st.freeIdx && IdxOf(d, x) >= 0 && IdxOf(d, x) in st.freeIdx[PageOf(x)]
  {
  }

  /** The arena a block is taken from is no longer full. */
  lemma TakenArenas(st: State, d: nat, size: nat, full: int)
    requires Inv(st, full) && d < DESC_CNT && st.free[d] != []
    requires full < 0 || full == PageOf(st.free[d][0])
    ensures Listed(st, d, st.free[d][0]) && st.arenas[PageOf(st.free[d][0])].freeCnt > 0
    ensures ArenasOk(Taken(st, d, size), -1)
  {
    hide LiveOk, ListsOk, Listed, Block, IdxOf, PageOf, PagesOk, Idxs, BlocksPerArena;
    ListCount(st);
    HeadFacts(st, d, full);
    var x := st.free[d][0];
    ListedFacts(st, d, x);
    var st' := Taken(st, d, size);
    var p := PageOf(x);
    assert st'.freeIdx[p] == st.freeIdx[p] - {IdxOf(d, x)};
    CardBound(st.freeIdx[p], d);
  }

  lemma CardBound(s: set<nat>, d: nat)
    requires d < DESC_CNT && s <= Idxs(d)
    ensures |s| <= BlocksPerArena(d)
    ensures |s| == BlocksPerArena(d) ==> s == Idxs(d)
  {
    Subset(s, Idxs(d));
  }

  lemma {:induction false} Subset<T>(s: set<T>, t: set<T>)
    requires s <= t
    ensures |s| <= |t| && (|s| == |t| ==> s == t)
  {
    assert |t| == |s| + |t - s| by { assert t == s + (t - s); }
    if |s| == |t| { assert t - s == {}; }
  }

  lemma TailMembers(q: seq<nat>)
    requires NoDup(q) && q != []
    ensures NoDup(q[1..]) && forall y :: y in q[1..] <==> y in q && y != q[0]
  {
    forall y | y in q && y != q[0] ensures y in q[1..] {
      var i :| 0 <= i < |q| && q[i] == y;
      assert q[1..][i - 1] == y;
    }
  }

  lemma TakenLists(st: State, d: nat, size: nat, full: int)
    requires Inv(st, full) && d < DESC_CNT && st.free[d] != []
    ensures Listed(st, d, st.free[d][0]) && st.arenas[PageOf(st.free[d][0])].freeCnt > 0
    ensures ListsOk(Taken(st, d, size))
  {
    hide Block, PageOf, IdxOf, LiveOk, PagesOk, ArenasOk, Listed, NoDup;
    HeadFacts(st, d, full);
    HeadListed(st, d);
    TailMembers(st.free[d]);
    var st' := Taken(st, d, size);
    forall e, y | 0 <= e < DESC_CNT && y in st'.free[e] ensures Listed(st', e, y) {
      assert y in st.free[e] && Listed(st, e, y);
      StillListed(st, d, size, e, y);
    }
    forall a, i | a in st'.arenas && st'.arenas[a].Small? && a in st'.freeIdx && i in st'.freeIdx[a]
      ensures st'.arenas[a].desc < DESC_CNT && Block(a, st'.arenas[a].desc, i) in st'.free[st'.arenas[a].desc]
    {
      assert i in st.freeIdx[a];
      var e := st.arenas[a].desc;
      assert Block(a, e, i) in st.free[e] && Listed(st, e, Block(a, e, i));
      FreeBound(st, a, i, full);
      StillFree(st, d, size, a, i);
    }
  }

  lemma FreeBound(st: State, a: nat, i: nat, full: int)
    requires ArenasOk(st, full) && a in st.arenas && st.arenas[a].Small? && a in st.freeIdx && i in st.freeIdx[a]
    ensures st.arenas[a].desc < DESC_CNT && i < BlocksPerArena(st.arenas[a].desc)
  {
  }

  lemma HeadListed(st: State, d: nat)
    requires d < DESC_CNT == |st.free| && st.free[d] != [] && Listed(st, d, st.free[d][0])
    ensures var p := PageOf(st.free[d][0]); p in st.arenas && st.arenas[p].Small? && st.arenas[p].desc == d && p in st.freeIdx
  {
  }

  /** A block that stays on a list is not the one that was taken. */
  lemma StillListed(st: State, d: nat, size: nat, e: nat, y: nat)
    requires d < DESC_CNT == |st.free| && e < DESC_CNT && st.free[d] != [] && Listed(st, d, st.free[d][0])
    requires st.arenas[PageOf(st.free[d][0])].freeCnt > 0
    requires Listed(st, e, y) && (e == d ==> y != st.free[d][0])
    ensures Listed(Taken(st, d, size), e, y)
  {
    hide Block, PageOf, IdxOf;
  }

  lemma StillFree(st: State, d: nat, size: nat, a: nat, i: nat)
    requires d < DESC_CNT == |st.free| && st.free[d] != [] && Listed(st, d, st.free[d][0])
    requires st.arenas[PageOf(st.free[d][0])].freeCnt > 0
    requires a in st.arenas && st.arenas[a].Small? && a in st.freeIdx && st.arenas[a].desc < DESC_CNT
    requires i < BlocksPerArena(st.arenas[a].desc) && i in Taken(st, d, size).freeIdx[a]
    requires Listed(st, st.arenas[a].desc, Block(a, st.arenas[a].desc, i))
    ensures Block(a, st.arenas[a].desc, i) == st.free[d][0] ==> st.arenas[a].desc != d
  {
    BlockInArena(a, st.arenas[a].desc, i);
    hide Block, PageOf, IdxOf;
  }

  lemma TakenLive(st: State, d: nat, size: nat, full: int)
    requires Inv(st, full) && d < DESC_CNT && st.free[d] != [] && RightArena(Small(d, 0), size)
    ensures Listed(st, d, st.free[d][0]) && st.arenas[PageOf(st.free[d][0])].freeCnt > 0
    ensures LiveOk(Taken(st, d, size)) && st.free[d][0] !in st.live
  {
    hide Block, PageOf, IdxOf, PagesOk, RightArena, BlockSize, BlocksPerArena;
    HeadFacts(st, d, full);
    var st' := Taken(st, d, size);
    var x := st.free[d][0];
    assert Listed(st, d, x);
    AnyCount(d, size);
    forall y | y in st'.live ensures PageOf(y) in st'.arenas && RightArena(st'.arenas[PageOf(y)], st'.live[y]) {
      if y != x && PageOf(y) == PageOf(x) { AnyCount(d, st.live[y]); }
    }
    forall y | y in st'.live ensures InUse(st', y, st'.live[y]) {
      if y != x { assert InUse(st, y, st.live[y]); }
    }
    forall y | InUse(st', y, 0) ensures y in st'.live {
      if y != x { assert InUse(st, y, 0); }
    }
  }

  /** Which arena is right does not depend on how many blocks are free. */
  lemma AnyCount(d: nat, size: nat)
    ensures forall b, c: nat :: RightArena(Small(d, b), size) <==> RightArena(Small(d, c), size)
    ensures d < DESC_CNT && RightArena(Small(d, 0), size) ==> size <= BlockSize(d)
  {
  }

  lemma TakenOk(st: State, d: nat, size: nat, full: int)
    requires Inv(st, full) && d < DESC_CNT && st.free[d] != [] && RightArena(Small(d, 0), size)
    requires full < 0 || full == PageOf(st.free[d][0])
    ensures Listed(st, d, st.free[d][0]) && st.arenas[PageOf(st.free[d][0])].freeCnt > 0
    ensures Inv(Taken(st, d, size), -1) && st.free[d][0] !in st.live
  {
    hide PagesOk, ArenasOk, LiveOk;
    TakenPages(st, d, size, full);
    TakenArenas(st, d, size, full);
    TakenLists(st, d, size, full);
    TakenLive(st, d, size, full);
  }

  // ----- State changes of free

  /** The small block `x` goes to the front of its free list. */
  function Put(st: State, x: nat): State
    requires PageOf(x) in st.arenas && st.arenas[PageOf(x)].Small? && PageOf(x) in st.freeIdx
    requires st.arenas[PageOf(x)].desc < DESC_CNT == |st.free|
    requires IdxOf(st.arenas[PageOf(x)].desc, x) >= 0
  {
    var p := PageOf(x);
    var d := st.arenas[p].desc;
    st.(free := st.free[d := [x] + st.free[d]], arenas := st.arenas[p := Small(d, st.arenas[p].freeCnt + 1)],
        freeIdx := st.freeIdx[p := st.freeIdx[p] + {IdxOf(d, x)}], live := st.live - {x})
  }

  lemma PutPages(st: State, x: nat)
    requires Inv(st, -1) && x in st.live && PageOf(x) in st.arenas && st.arenas[PageOf(x)].Small?
    ensures InUse(st, x, st.live[x])
    ensures PagesOk(Put(st, x)) && ArenasOk(Put(st, x), PageOf(x))
    ensures Put(st, x).arenas[PageOf(x)].freeCnt <= BlocksPerArena(st.arenas[PageOf(x)].desc)
  {
    hide ListsOk, Block, PageOf, IdxOf, RightArena, BlockSize, BlocksPerArena;
    assert InUse(st, x, st.live[x]);
    assert |st.free| == DESC_CNT by { ListCount(st); }
    var st' := Put(st, x);
    CardBound(st'.freeIdx[PageOf(x)], st.arenas[PageOf(x)].desc);
    forall q | q in st'.owner ensures InArena(st', q, st'.owner[q]) {
      assert InArena(st, q, st.owner[q]);
    }
    forall a: nat, q: nat | InArena(st', q, a) ensures q in st'.owner && st'.owner[q] == a {
      assert InArena(st, q, a);
    }
  }

  lemma ListCount(st: State)
    requires ListsOk(st)
    ensures |st.free| == DESC_CNT
  {
  }

  lemma PutListed(st: State, x: nat, e: nat, y: nat)
    requires Inv(st, -1) && x in st.live && PageOf(x) in st.arenas && st.arenas[PageOf(x)].Small?
    requires InUse(st, x, st.live[x]) && e < DESC_CNT && y in Put(st, x).free[e]
    ensures Listed(Put(st, x), e, y)
  {
    hide Block, PageOf, IdxOf, PagesOk, ArenasOk, LiveOk, NoDup;
    var d := st.arenas[PageOf(x)].desc;
    if y != x || e != d {
      assert y in st.free[e];
      assert Listed(st, e, y);
    }
  }

  lemma PutCovers(st: State, x: nat, a: nat, i: nat)
    requires Inv(st, -1) && x in st.live && PageOf(x) in st.arenas && st.arenas[PageOf(x)].Small?
    requires InUse(st, x, st.live[x])
    requires var st' := Put(st, x); a in st'.arenas && st'.arenas[a].Small? && a in st'.freeIdx && i in st'.freeIdx[a]
    ensures var st' := Put(st, x);
            st'.arenas[a].desc < DESC_CNT && Block(a, st'.arenas[a].desc, i) in st'.free[st'.arenas[a].desc]
  {
    hide Block, PageOf, IdxOf, PagesOk, ArenasOk, LiveOk, NoDup;
    var st' := Put(st, x);
    var d := st.arenas[PageOf(x)].desc;
    if a == PageOf(x) && i == IdxOf(d, x) {
      assert st'.free[d][0] == x;
    } else {
      assert i in st.freeIdx[a];
      var e := st.arenas[a].desc;
      var k :| 0 <= k < |st.free[e]| && st.free[e][k] == Block(a, e, i);
      if e == d { assert st'.free[d][k + 1] == st.free[d][k]; }
    }
  }

  lemma PutNoDup(st: State, x: nat)
    requires Inv(st, -1) && x in st.live && PageOf(x) in st.arenas && st.arenas[PageOf(x)].Small?
    requires InUse(st, x, st.live[x])
    ensures forall d :: 0 <= d < DESC_CNT ==> NoDup(Put(st, x).free[d])
  {
    hide Block, PageOf, IdxOf, PagesOk, ArenasOk, LiveOk;
    var d := st.arenas[PageOf(x)].desc;
    if x in st.free[d] { NotBoth(st, x, d); }
  }

  lemma PutLists(st: State, x: nat)
    requires Inv(st, -1) && x in st.live && PageOf(x) in st.arenas && st.arenas[PageOf(x)].Small?
    ensures InUse(st, x, st.live[x]) && |st.free| == DESC_CNT && ListsOk(Put(st, x))
  {
    hide Block, PageOf, IdxOf, PagesOk, ArenasOk, NoDup, Listed;
    assert InUse(st, x, st.live[x]);
    PutNoDup(st, x);
    var st' := Put(st, x);
    forall e, y | 0 <= e < DESC_CNT && y in st'.free[e] ensures Listed(st', e, y) {
      PutListed(st, x, e, y);
    }
    forall a, i | a in st'.arenas && st'.arenas[a].Small? && a in st'.freeIdx && i in st'.freeIdx[a]
      ensures st'.arenas[a].desc < DESC_CNT && Block(a, st'.arenas[a].desc, i) in st'.free[st'.arenas[a].desc]
    {
      PutCovers(st, x, a, i);
    }
  }

  lemma NotBoth(st: State, x: nat, d: nat)
    requires ListsOk(st) && d < DESC_CNT && x in st.free[d]
    ensures Listed(st, d, x) && !InUse(st, x, 0)
  {
  }

  lemma PutLive(st: State, x: nat)
    requires Inv(st, -1) && x in st.live && PageOf(x) in st.arenas && st.arenas[PageOf(x)].Small?
    ensures InUse(st, x, st.live[x]) && |st.free| == DESC_CNT && LiveOk(Put(st, x))
  {
    hide Block, PageOf, IdxOf, PagesOk, ListsOk, ArenasOk, BlockSize, BlocksPerArena;
    ListCount(st);
    assert InUse(st, x, st.live[x]);
    var st' := Put(st, x);
    forall y | y in st'.live ensures InUse(st', y, st'.live[y]) {
      assert InUse(st, y, st.live[y]);
    }
    forall y | InUse(st', y, 0) ensures y in st'.live {
      assert InUse(st, y, 0);
    }
  }

  lemma PutOk(st: State, x: nat)
    requires Inv(st, -1) && x in st.live && PageOf(x) in st.arenas && st.arenas[PageOf(x)].Small?
    ensures InUse(st, x, st.live[x]) && |st.free| == DESC_CNT
    ensures Inv(Put(st, x), PageOf(x))
    ensures Put(st, x).arenas[PageOf(x)].freeCnt <= BlocksPerArena(st.arenas[PageOf(x)].desc)
  {
    hide PagesOk, ArenasOk, LiveOk, ListsOk;
    ListCount(st);
    PutPages(st, x);
    PutLists(st, x);
    PutLive(st, x);
  }

  /** The arena `p`, all of whose blocks are free, is given back; `rest` is its free list without them. */
  function Dropped(st: State, p: nat, rest: seq<nat>): State
    requires p in st.arenas && st.arenas[p].Small? && st.arenas[p].desc < |st.free|
    requires InPool(st, p)
  {
    st.(used := st.used[p - st.base := false], arenas := st.arenas - {p}, freeIdx := st.freeIdx - {p},
        owner := st.owner - {p}, free := st.free[st.arenas[p].desc := rest])
  }

  /** `rest` is `list` without the blocks of page `p`. */
  ghost predicate Without(list: seq<nat>, p: nat, rest: seq<nat>) {
    NoDup(rest) && forall x :: x in rest <==> x in list && PageOf(x) != p
  }

  lemma SmallPage(st: State, p: nat, full: int)
    requires Inv(st, full) && p in st.arenas && st.arenas[p].Small?
    ensures st.arenas[p].desc < |st.free| == DESC_CNT && IsUsed(st, p)
    ensures p in st.owner && st.owner[p] == p
  {
    hide ListsOk, LiveOk, Idxs, BlocksPerArena;
    ListCount(st);
    assert InArena(st, p, p);
  }

  lemma DroppedPages(st: State, p: nat, rest: seq<nat>)
    requires Inv(st, p) && p in st.arenas && st.arenas[p].Small?
    ensures st.arenas[p].desc < |st.free| && InPool(st, p)
    ensures PagesOk(Dropped(st, p, rest)) && ArenasOk(Dropped(st, p, rest), -1)
  {
    hide LiveOk, Idxs, BlocksPerArena;
    SmallPage(st, p, p);
    var st' := Dropped(st, p, rest);
    forall q | q in st'.owner ensures IsUsed(st', q) && InArena(st', q, st'.owner[q]) {
      assert InArena(st, q, st.owner[q]);
    }
    forall a: nat, q: nat | InArena(st', q, a) ensures q in st'.owner && st'.owner[q] == a {
      assert InArena(st, q, a);
    }
  }

  lemma DroppedLists(st: State, p: nat, rest: seq<nat>)
    requires Inv(st, p) && p in st.arenas && st.arenas[p].Small?
    requires st.arenas[p].desc < |st.free| && Without(st.free[st.arenas[p].desc], p, rest)
    ensures InPool(st, p) && ListsOk(Dropped(st, p, rest))
  {
    hide Block, PageOf, IdxOf, LiveOk, PagesOk, NoDup, ArenasOk, BlockSize, BlocksPerArena;
    SmallPage(st, p, p);
    var st' := Dropped(st, p, rest);
    var d := st.arenas[p].desc;
    forall e, y | 0 <= e < DESC_CNT && y in st'.free[e] ensures Listed(st', e, y) {
      assert y in st.free[e];
      assert Listed(st, e, y);
    }
    forall a, i | a in st'.arenas && st'.arenas[a].Small? && a in st'.freeIdx && i in st'.freeIdx[a]
      ensures st'.arenas[a].desc < DESC_CNT && Block(a, st'.arenas[a].desc, i) in st'.free[st'.arenas[a].desc]
    {
      assert i in st.freeIdx[a];
      var e := st.arenas[a].desc;
      assert Block(a, e, i) in st.free[e];
      InIdxs(st, p, a, i);
      BlockInArena(a, e, i);
    }
  }

  lemma InIdxs(st: State, full: int, a: nat, i: nat)
    requires ArenasOk(st, full) && a in st.arenas && st.arenas[a].Small? && a in st.freeIdx && i in st.freeIdx[a]
    ensures st.arenas[a].desc < DESC_CNT && i < BlocksPerArena(st.arenas[a].desc)
  {
  }

  lemma DroppedLive(st: State, p: nat, rest: seq<nat>)
    requires Inv(st, p) && p in st.arenas && st.arenas[p].Small? && st.arenas[p].desc < DESC_CNT
    requires st.arenas[p].freeCnt == BlocksPerArena(st.arenas[p].desc)
    ensures |st.free| == DESC_CNT && InPool(st, p) && LiveOk(Dropped(st, p, rest))
  {
    hide Block, PageOf, IdxOf, PagesOk, ListsOk, BlockSize, BlocksPerArena, Idxs;
    ListCount(st);
    SmallPage(st, p, p);
    CardBound(st.freeIdx[p], st.arenas[p].desc);
    var st' := Dropped(st, p, rest);
    forall y | y in st'.live ensures InUse(st', y, st'.live[y]) {
      assert InUse(st, y, st.live[y]);
      AllFree(st, p, y);
    }
    forall y | InUse(st', y, 0) ensures y in st'.live {
      assert InUse(st, y, 0);
    }
  }

  lemma AllFree(st: State, p: nat, y: nat)
    requires p in st.arenas && st.arenas[p].Small? && st.arenas[p].desc < DESC_CNT && p in st.freeIdx
    requires st.freeIdx[p] == Idxs(st.arenas[p].desc) && InUse(st, y, 0)
    ensures PageOf(y) != p
  {
  }

  lemma DroppedOk(st: State, p: nat, rest: seq<nat>)
    requires Inv(st, p) && p in st.arenas && st.arenas[p].Small? && st.arenas[p].desc < |st.free| == DESC_CNT
    requires Without(st.free[st.arenas[p].desc], p, rest)
    requires st.arenas[p].freeCnt == BlocksPerArena(st.arenas[p].desc)
    ensures InPool(st, p) && Inv(Dropped(st, p, rest), -1)
  {
    hide PagesOk, ArenasOk, LiveOk, ListsOk;
    DroppedPages(st, p, rest);
    DroppedLists(st, p, rest);
    DroppedLive(st, p, rest);
  }

  /** An arena that is not full after all satisfies the plain invariant. */
  lemma NotFull(st: State, p: nat)
    requires Inv(st, p) && p in st.arenas && st.arenas[p].Small? && st.arenas[p].desc < DESC_CNT
    requires st.arenas[p].freeCnt < BlocksPerArena(st.arenas[p].desc)
    ensures Inv(st, -1)
  {
    hide PagesOk, ListsOk, LiveOk;
  }

  // ----- Big blocks

  function NewBig(st: State, p: nat, n: nat, size: nat, used: seq<bool>): State {
    st.(used := used, arenas := st.arenas[p := Big(n)], live := st.live[p * PGSIZE + ARENA_SIZE := size],
        owner := map q | q in st.owner.Keys + PageRange(p, n) :: if q in st.owner then st.owner[q] else p)
  }

  function PageRange(p: nat, n: nat): (s: set<nat>)
    ensures forall q: int :: q in s <==> p <= q < p + n
  {
    if n == 0 then {} else PageRange(p, n - 1) + {p + n - 1}
  }

  lemma NewBigPages(st: State, p: nat, n: nat, size: nat, used: seq<bool>)
    requires Inv(st, -1) && n > 0 && |used| == |st.used|
    requires forall q :: p <= q < p + n ==> InPool(st, q) && !IsUsed(st, q)
    requires forall i :: 0 <= i < |used| ==> used[i] == (st.used[i] || p <= i + st.base < p + n)
    ensures PagesOk(NewBig(st, p, n, size, used)) && ArenasOk(NewBig(st, p, n, size, used), -1)
  {
    hide ListsOk, LiveOk, Idxs, BlocksPerArena;
    var st' := NewBig(st, p, n, size, used);
    forall q | p <= q < p + n ensures q !in st.owner && q !in st.arenas {
      assert InPool(st, q);
      FreshPage(st, q);
    }
    forall q | q in st'.owner ensures IsUsed(st', q) && InArena(st', q, st'.owner[q]) {
      if q in st.owner {
        assert InArena(st, q, st.owner[q]);
      } else {
        assert InPool(st, q);
      }
      assert used[q - st.base];
    }
    forall a: nat, q: nat | InArena(st', q, a) ensures q in st'.owner && st'.owner[q] == a {
      if a != p { assert InArena(st, q, a); }
    }
  }

  lemma NewBigLists(st: State, p: nat, n: nat, size: nat, used: seq<bool>)
    requires Inv(st, -1) && InPool(st, p) && !IsUsed(st, p)
    ensures ListsOk(NewBig(st, p, n, size, used))
  {
    hide Block, PageOf, IdxOf, LiveOk, NoDup, PagesOk, ArenasOk, BlockSize, BlocksPerArena;
    FreshPage(st, p);
    var st' := NewBig(st, p, n, size, used);
    forall e, y | 0 <= e < DESC_CNT && y in st'.free[e] ensures Listed(st', e, y) {
      assert Listed(st, e, y);
    }
  }

  lemma BigEnough(n: nat, size: nat)
    requires RightArena(Big(n), size)
    ensures size + ARENA_SIZE <= n * PGSIZE
  {
  }

  lemma NewBigLive(st: State, p: nat, n: nat, size: nat, used: seq<bool>)
    requires Inv(st, -1) && InPool(st, p) && !IsUsed(st, p)
    requires RightArena(Big(n), size)
    ensures LiveOk(NewBig(st, p, n, size, used)) && p * PGSIZE + ARENA_SIZE !in st.live
  {
    hide Block, PageOf, IdxOf, ListsOk, RightArena, BlockSize, BlocksPerArena;
    FreshPage(st, p);
    BigInArena(p);
    BigEnough(n, size);
    var st' := NewBig(st, p, n, size, used);
    var x := p * PGSIZE + ARENA_SIZE;
    forall y | y in st'.live ensures InUse(st', y, st'.live[y]) {
      if y != x { assert InUse(st, y, st.live[y]); }
    }
    forall y | InUse(st', y, 0) ensures y in st'.live {
      if PageOf(y) != p { assert InUse(st, y, 0); }
    }
  }

  lemma NewBigOk(st: State, p: nat, n: nat, size: nat, used: seq<bool>)
    requires Inv(st, -1) && n > 0 && |used| == |st.used|
    requires forall q :: p <= q < p + n ==> InPool(st, q) && !IsUsed(st, q)
    requires forall i :: 0 <= i < |used| ==> used[i] == (st.used[i] || p <= i + st.base < p + n)
    requires RightArena(Big(n), size)
    ensures Inv(NewBig(st, p, n, size, used), -1) && p * PGSIZE + ARENA_SIZE !in st.live
  {
    hide PagesOk, ArenasOk, LiveOk, ListsOk;
    NewBigPages(st, p, n, size, used);
    NewBigLists(st, p, n, size, used);
    NewBigLive(st, p, n, size, used);
  }

  function DroppedBig(st: State, p: nat, used: seq<bool>): State
    requires p in st.arenas && st.arenas[p].Big?
  {
    st.(used := used, arenas := st.arenas - {p}, live := st.live - {p * PGSIZE + ARENA_SIZE},
        owner := st.owner - PageRange(p, st.arenas[p].pages))
  }

  /** The pages of a big block are in the pool and taken. */
  lemma BigPages(st: State, p: nat)
    requires Inv(st, -1) && p in st.arenas && st.arenas[p].Big?
    ensures st.arenas[p].pages > 0
    ensures forall q :: p <= q < p + st.arenas[p].pages ==> IsUsed(st, q)
  {
    forall q | p <= q < p + st.arenas[p].pages ensures IsUsed(st, q) {
      assert InArena(st, q, p);
    }
  }

  lemma DroppedBigPages(st: State, p: nat, used: seq<bool>)
    requires Inv(st, -1) && p in st.arenas && st.arenas[p].Big? && |used| == |st.used|
    requires forall i :: 0 <= i < |used| ==> used[i] == (st.used[i] && !(p <= i + st.base < p + st.arenas[p].pages))
    ensures PagesOk(DroppedBig(st, p, used)) && ArenasOk(DroppedBig(st, p, used), -1)
  {
    hide ListsOk, LiveOk, Idxs, BlocksPerArena;
    var st' := DroppedBig(st, p, used);
    forall q | q in st'.owner ensures IsUsed(st', q) && InArena(st', q, st'.owner[q]) {
      assert InArena(st, q, st.owner[q]);
      assert !InArena(st, q, p);
    }
    forall a: nat, q: nat | InArena(st', q, a) ensures q in st'.owner && st'.owner[q] == a {
      assert InArena(st, q, a);
      assert !InArena(st, q, p);
    }
  }

  lemma DroppedBigOthers(st: State, p: nat, used: seq<bool>)
    requires Inv(st, -1) && p in st.arenas && st.arenas[p].Big?
    ensures ListsOk(DroppedBig(st, p, used)) && LiveOk(DroppedBig(st, p, used))
  {
    hide Block, PageOf, IdxOf, PagesOk, BlockSize, BlocksPerArena, NoDup;
    var st' := DroppedBig(st, p, used);
    forall e, y | 0 <= e < DESC_CNT && y in st'.free[e] ensures Listed(st', e, y) {
      assert Listed(st, e, y);
    }
    BigInArena(p);
    forall y | y in st'.live ensures InUse(st', y, st'.live[y]) {
      assert InUse(st, y, st.live[y]);
    }
    forall y | InUse(st', y, 0) ensures y in st'.live {
      assert InUse(st, y, 0);
    }
  }
}
