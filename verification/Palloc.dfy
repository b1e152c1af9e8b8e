/**
 The page allocator (threads/palloc.c): pools of pages behind a bitmap.
 Pages are named by their page number; 0 stands for the null pointer.
 */
module Palloc {
  import opened Sequences
  import opened Bitmap

  class Pool {
    const base: nat
    const usedMap: Bitmap

    ghost predicate Valid()
      reads usedMap.bits
    {
      base > 0 && usedMap.Valid()
    }

    ghost function Used(): (v: seq<bool>)
      requires Valid()
      reads usedMap.bits
    {
      usedMap.View()
    }

    constructor (base: nat, pages: nat)
      requires base > 0
      ensures Valid() && this.base == base && fresh(usedMap) && fresh(usedMap.bits)
      ensures |Used()| == pages && forall i :: 0 <= i < pages ==> !Used()[i]
    {
      this.base := base;
      usedMap := new Bitmap(pages);
    }

    /** `palloc_get_multiple` on this pool: the first run of free pages, or 0. */
    method GetMultiple(pageCnt: nat) returns (page: nat)
      requires Valid()
      modifies usedMap.bits
      ensures Valid()
      ensures page != 0 ==> && pageCnt > 0 && base <= page && Group(old(Used()), page - base, pageCnt, false)
                            && Used() == Filled(old(Used()), page - base, pageCnt, true)
                            && forall i :: 0 <= i < page - base ==> !Group(old(Used()), i, pageCnt, false)
      ensures page == 0 ==> Used() == old(Used()) && (pageCnt == 0 || forall i: nat :: !Group(old(Used()), i, pageCnt, false))
    {
      page := 0;
      if pageCnt > 0 {
        var idx := usedMap.ScanAndFlip(0, pageCnt, false);
        if idx >= 0 {
          page := base + idx;
        }
      }
    }

    /** `page_from_pool`. */
    predicate PageFromPool(page: nat) {
      base <= page < base + usedMap.bitCnt
    }

    /** `palloc_free_multiple` of pages that came from this pool. */
    method FreeMultiple(page: nat, pageCnt: nat)
      requires Valid() && PageFromPool(page) && Group(Used(), page - base, pageCnt, true)
      modifies usedMap.bits
      ensures Valid()
      ensures Used() == Filled(old(Used()), page - base, pageCnt, false)
    {
      usedMap.SetMultiple(page - base, pageCnt, false);
    }
  }

  /** Pages that `init_pool` keeps for the bitmap itself. */
  function BitmapPages(pages: nat): nat {
    (8 + 4 * ElemCnt(pages) + PGSIZE - 1) / PGSIZE
  }

  /** `palloc_init` gives the two pools disjoint page ranges within the free pages, the bitmaps apart. */
  lemma PoolsDisjoint(freeStart: nat, freePages: nat, userLimit: nat, page: nat)
    requires BitmapPages(freePages - UserPages(freePages, userLimit)) <= freePages - UserPages(freePages, userLimit)
    requires BitmapPages(UserPages(freePages, userLimit)) <= UserPages(freePages, userLimit)
    ensures var user := UserPages(freePages, userLimit);
            var kernel := freePages - user;
            var kernelBase := freeStart + BitmapPages(kernel);
            var userBase := freeStart + kernel + BitmapPages(user);
            var kernelEnd := kernelBase + kernel - BitmapPages(kernel);
            var userEnd := userBase + user - BitmapPages(user);
            && kernelEnd <= userBase && userEnd <= freeStart + freePages && freeStart < kernelBase
            && !(kernelBase <= page < kernelEnd && userBase <= page < userEnd)
  {
  }

  function UserPages(freePages: nat, userLimit: nat): (n: nat)
    ensures n <= freePages
  {
    if freePages / 2 > userLimit then userLimit else freePages / 2
  }
}
