/**
 The paging code (vm/page.c, vm/frame.c, vm/swap.c, and `load_segment` in
 userprog/process.c) for pages that are not memory mapped.  A page fault is one
 atomic step.  Every step is proved against `View`: faults and evictions leave
 all user memory as it is, a store changes one byte.
 */
module Paging {
  import opened Sequences
  import opened PagingModel

  datatype FaultResult = Served | Refused | Panicked

  /**
   One user access of a run.  `stack` is the test of the fault handler against the
   stack pointer: a missing page may then be made.
   */
  datatype Access =
    | Load(key: Key, at: nat, stack: bool)
    | Store(key: Key, at: nat, value: Byte, stack: bool)

  /** What became of an access; `page` is what a page read as when the stack grew by it. */
  datatype Outcome = Done(value: Byte) | Grown(page: seq<Byte>, value: Byte) | Denied

  class Vm {
    var ram: seq<seq<Byte>>
    var used: seq<bool>
    var table: map<nat, Key>
    var pagedir: map<Key, nat>
    var accessed: set<Key>
    var spt: map<Key, Entry>
    var device: seq<seq<Byte>>
    var swapFree: seq<bool>
    ghost var slotOwner: map<nat, Key>

    ghost function Here(): State
      reads this
    {
      State(ram, used, table, pagedir, accessed, spt, device, swapFree, slotOwner)
    }

    ghost predicate Valid()
      reads this
    {
      |ram| > 0 && Inv(Here(), -1)
    }

    ghost function Memory(k: Key): Option<seq<Byte>>
      requires Valid()
      reads this
    {
      View(Here(), k)
    }

    /** An empty machine: `swap_init` marks every slot free. */
    constructor (frames: nat, slots: nat)
      requires frames > 0
      ensures Valid() && AllBacked(spt) && forall k :: Memory(k) == None
      ensures used == seq(frames, _ => false) && swapFree == seq(slots, _ => true) && spt == map[]
    {
      ram := seq(frames, _ => Zeros(PGSIZE));
      used := seq(frames, _ => false);
      table, pagedir, accessed, spt := map[], map[], {}, map[];
      device := seq(SECTORS_PER_PAGE * slots, _ => Zeros(SECTOR_SIZE));
      swapFree := seq(slots, _ => true);
      slotOwner := map[];
    }

    /** `swap_out`: returns the slot, or -1 if the swap device is full. */
    method SwapOut(page: seq<Byte>) returns (slot: int)
      requires |page| == PGSIZE && SECTORS_PER_PAGE * |swapFree| <= |device|
      modifies `device, `swapFree
      ensures slot >= 0 ==> && slot < |old(swapFree)| && old(swapFree)[slot]
                            && (forall s :: 0 <= s < slot ==> !old(swapFree)[s])
                            && swapFree == old(swapFree)[slot := false]
                            && device == DeviceWith(old(device), slot, page)
      ensures slot < 0 ==> && device == old(device) && swapFree == old(swapFree)
                           && forall s :: 0 <= s < |swapFree| ==> !swapFree[s]
    {
      slot := 0;
      while slot < |swapFree| && !swapFree[slot]
        invariant 0 <= slot <= |swapFree|
        invariant forall s :: 0 <= s < slot ==> !swapFree[s]
      {
        slot := slot + 1;
      }
      if slot == |swapFree| {
        slot := -1;
        return;
      }
      swapFree := swapFree[slot := false];
      var base := SECTORS_PER_PAGE * slot;
      for i := 0 to SECTORS_PER_PAGE
        invariant |device| == |old(device)| && swapFree == old(swapFree)[slot := false]
        invariant forall s :: 0 <= s < |device| ==>
                    device[s] == if base <= s < base + i then DeviceWith(old(device), slot, page)[s] else old(device)[s]
      {
        assert DeviceWith(old(device), slot, page)[base + i] == page[i * SECTOR_SIZE..(i + 1) * SECTOR_SIZE];
        device := device[base + i := page[i * SECTOR_SIZE..(i + 1) * SECTOR_SIZE]];
      }
      assert device == DeviceWith(old(device), slot, page);
    }

    /** `swap_in` into frame `f`, without `swap_free`. */
    method SwapIn(slot: nat, f: nat)
      requires Sized(Here()) && f < |ram| && slot < |swapFree|
      modifies `ram
      ensures ram == old(ram)[f := SlotBytes(device, slot)]
    {
      var base := SECTORS_PER_PAGE * slot;
      ghost var whole := SlotBytes(device, slot);
      SlotSectors(device, slot);
      for i := 0 to SECTORS_PER_PAGE
        invariant |ram| == |old(ram)| && |ram[f]| == PGSIZE
        invariant forall g :: 0 <= g < |ram| && g != f ==> ram[g] == old(ram)[g]
        invariant forall b :: 0 <= b < i * SECTOR_SIZE ==> ram[f][b] == whole[b]
      {
        assert device[base + i] == whole[i * SECTOR_SIZE..(i + 1) * SECTOR_SIZE];
        ram := ram[f := Spliced(ram[f], i * SECTOR_SIZE, device[base + i])];
      }
      assert ram[f] == whole;
    }

    /**
     `select_frame_to_evict`, over the frame table in the order `order` of its hash
     table: the first frame whose page was not accessed, or the first of all if every
     page was.  The accessed bits of the `n` frames in front of it are cleared, and no
     others.  Each step clears a bit or stops, so at most one sweep and one more step
     are made.
     */
    method SelectFrameToEvict(order: seq<nat>) returns (f: nat, ghost n: nat, ghost steps: nat)
      requires order != [] && (forall i :: 0 <= i < |order| ==> order[i] in table)
      requires forall i, j :: 0 <= i < j < |order| ==> table[order[i]] != table[order[j]]
      modifies `accessed
      ensures n <= |order| && (forall i :: 0 <= i < n ==> table[order[i]] in old(accessed))
      ensures if n < |order| then f == order[n] && table[f] !in old(accessed) else f == order[0]
      ensures accessed == Unaccessed(old(accessed), table, order[..n]) && table[f] !in accessed
      ensures steps == if n < |order| then n + 1 else |order| + 1
    {
      steps, n := 0, 0;
      ghost var sweeps := 0;
      var flag := false;
      f := order[0];
      UnaccessedNone(accessed, table);
      assert order[..0] == [];
      while !flag
        invariant f in table && n <= |order| && (forall i :: 0 <= i < n ==> table[order[i]] in old(accessed))
        invariant accessed == Unaccessed(old(accessed), table, order[..n])
        invariant sweeps == 0 ==> n == 0 && steps == 0 && !flag
        invariant !flag && sweeps > 0 ==> sweeps == 1 && n == |order| && steps == |order|
        invariant flag ==> table[f] !in accessed && steps == (if n < |order| then n + 1 else |order| + 1)
        invariant flag ==> if n < |order| then f == order[n] && table[f] !in old(accessed) else f == order[0]
        decreases if flag then 0 else 1, 2 - sweeps
      {
        var i := 0;
        while i < |order|
          invariant 0 <= i <= |order| && !flag && f in table
          invariant if sweeps == 0 then n == i && steps == i else i == 0 && n == |order| && steps == |order|
          invariant forall j :: 0 <= j < n ==> table[order[j]] in old(accessed)
          invariant accessed == Unaccessed(old(accessed), table, order[..n])
        {
          f := order[i];
          steps := steps + 1;
          UnaccessedNext(old(accessed), table, order, n, i);
          if table[f] in accessed {
            accessed := accessed - {table[f]};
            n := n + 1;
          } else {
            flag := true;
            break;
          }
          i := i + 1;
        }
        sweeps := sweeps + 1;
      }
    }

    /**
     `vm_frame_alloc`: a free frame if there is one, else the frame of a victim whose
     page goes to swap.  Returns -1 where the kernel panics for want of swap space.
     */
    method FrameAlloc(k: Key, zero: bool) returns (f: int)
      requires Valid()
      modifies this
      ensures |ram| == |old(ram)|
      ensures f >= 0 ==> Inv(Here(), f) && f in table && table[f] == k && SameViews(old(Here()), Here(), -1, f)
      ensures f >= 0 ==> (k in pagedir ==> k in old(pagedir)) && (k in old(spt) ==> k in spt && spt[k] == old(spt)[k])
      ensures f >= 0 && k !in old(pagedir) && k !in old(spt) ==> k !in spt
      ensures NoNewLazy(old(spt), spt)
      ensures |used| == |old(used)| && ((exists g :: 0 <= g < |ram| && !old(used)[g]) ==> swapFree == old(swapFree) && spt == old(spt))
      ensures f >= 0 && zero && (exists g :: 0 <= g < |ram| && !old(used)[g]) ==> ram[f] == Zeros(PGSIZE)
      ensures f >= 0 && (forall g :: 0 <= g < |ram| ==> old(used)[g]) ==>
                exists v :: v in old(pagedir) && old(Memory(v)) == Some(ram[f])
      ensures f < 0 <==> OutOfRoom(old(used), old(swapFree))
      ensures f < 0 ==> Valid() && SameViews(old(Here()), Here(), -1, -1) && used == old(used) && swapFree == old(swapFree)
    {
      hide EntriesOk, FramesOk, View;
      ghost var was := Here();
      var free := 0;
      while free < |used| && used[free]
        invariant 0 <= free <= |used|
        invariant forall g :: 0 <= g < free ==> used[g]
      {
        free := free + 1;
      }
      if free < |used| {
        f := free;
        ReservedOk(was, f, k, if zero then Zeros(PGSIZE) else ram[f]);
        used := used[f := true];
        table := table[f := k];
        if zero {
          ram := ram[f := Zeros(PGSIZE)];
        }
        assert Here() == Reserved(was, f, k, ram[f]);
        assert NoNewLazy(was.spt, spt);
      } else {
        f := EvictAndGetFrame(k);
      }
    }

    /** Some order in which the frame table's hash iterator delivers its elements. */
    method FrameOrder() returns (order: seq<nat>)
      ensures Enumerates(order, table)
    {
      order := [];
      var left := table.Keys;
      while left != {}
        invariant left <= table.Keys
        invariant forall f | f in table :: f in left || f in order
        invariant forall i :: 0 <= i < |order| ==> order[i] in table && order[i] !in left
        invariant forall i, j :: 0 <= i < j < |order| ==> order[i] != order[j]
        decreases left
      {
        var f :| f in left;
        order := order + [f];
        left := left - {f};
      }
    }

    /** `evict_and_get_frame` with `page_out_evicted_frame`; the frame is then the one of `k`. */
    method EvictAndGetFrame(k: Key) returns (f: int)
      requires Valid() && (forall g :: 0 <= g < |used| ==> used[g])
      modifies this
      ensures ram == old(ram)
      ensures f >= 0 ==> Inv(Here(), f) && f in old(table) && f in table && table[f] == k && SameViews(old(Here()), Here(), -1, f)
      ensures f >= 0 ==> (k in pagedir ==> k in old(pagedir)) && (k in old(spt) ==> k in spt && spt[k] == old(spt)[k])
      ensures f >= 0 && k !in old(pagedir) && k !in old(spt) ==> k !in spt
      ensures NoNewLazy(old(spt), spt)
      ensures f >= 0 ==> exists v :: v in old(pagedir) && old(Memory(v)) == Some(ram[f])
      ensures f >= 0 ==> old(table)[f] !in old(accessed) || forall g :: g in old(table) ==> old(table)[g] in old(accessed)
      ensures f < 0 <==> OutOfRoom(old(used), old(swapFree))
      ensures f < 0 ==> Valid() && SameViews(old(Here()), Here(), -1, -1) && used == old(used) && swapFree == old(swapFree)
    {
      hide FramesOk, EntriesOk, View;
      ghost var was := Here();
      var order := FrameOrder();
      EnumerationFacts(was, order);
      var victim, n, steps := SelectFrameToEvict(order);
      AccessedOk(was, -1, accessed);
      ghost var v := was.table[victim];
      TableFacts(was, victim);
      PresentPage(was, v);
      assert old(Memory(v)) == Some(ram[victim]);
      var slot := PageOut(victim, k);
      f := if slot < 0 then -1 else victim;
    }

    /** `page_out_evicted_frame`, and the frame's new owner; -1 if no slot is free. */
    method PageOut(victim: nat, k: Key) returns (slot: int)
      requires Valid() && victim in table
      modifies this
      ensures ram == old(ram) && used == old(used) && accessed == old(accessed)
      ensures slot >= 0 ==> && Inv(Here(), victim) && SameViews(old(Here()), Here(), -1, victim)
                            && slot < |old(swapFree)| && old(swapFree)[slot]
                            && table == old(table)[victim := k] && pagedir == old(pagedir) - {old(table)[victim]}
                            && spt == old(spt)[old(table)[victim] := LazySwapped(slot)]
      ensures slot >= 0 ==> old(table)[victim] in old(pagedir) && old(table)[victim] !in old(spt)
      ensures slot < 0 ==> Here() == old(Here()) && forall s :: 0 <= s < |swapFree| ==> !swapFree[s]
    {
      hide FramesOk, EntriesOk, View;
      ghost var mid := Here();
      TableFacts(mid, victim);
      // The supplemental table has no entry for a resident page, so the panic of
      // page_out_evicted_frame for a LAZY page is not reached.
      assert table[victim] !in spt;
      slot := SwapOut(ram[victim]);
      if slot < 0 {
        return;
      }
      EvictedOk(mid, victim, slot, k);
      spt := spt[table[victim] := LazySwapped(slot)];
      slotOwner := slotOwner[slot := table[victim]];
      pagedir := pagedir - {table[victim]};
      table := table[victim := k];
      assert Here() == Evicted(mid, victim, slot, k);
    }

    /** `vm_frame_free` of a frame that no page uses yet. */
    method FrameFree(f: nat)
      requires Inv(Here(), f) && f in table
      modifies `used, `table
      ensures f < |old(used)| && Here() == Unreserved(old(Here()), f)
      ensures Inv(Here(), -1) && SameViews(old(Here()), Here(), f, -1)
    {
      UnreservedOk(Here(), f);
      used := used[f := false];
      table := table - {f};
    }

    /** `pt_suppl_page_in`; `ptOk` says whether `pagedir_set_page` finds memory for a page table. */
    method PageIn(k: Key, ptOk: bool) returns (r: FaultResult)
      requires Valid() && k in spt
      modifies this
      ensures Valid() && NoNewLazy(old(spt), spt)
      ensures r == Served ==> k in pagedir && forall k' :: k' != k ==> Memory(k') == old(Memory(k'))
      ensures r == Served && (old(spt)[k].LazySwapped? || Backed(old(spt)[k].info)) ==> Memory(k) == old(Memory(k))
      ensures r == Served && old(spt)[k].LazyUnloaded? ==>
                && PageSized(old(spt)[k].info)
                && exists stale: seq<Byte> :: |stale| == PGSIZE && Memory(k) == Some(Filled(old(spt)[k].info, stale))
      ensures r != Served ==> forall k' :: Memory(k') == old(Memory(k'))
      ensures r == Refused ==> !ptOk || (old(spt)[k].LazyUnloaded? && !Backed(old(spt)[k].info))
      ensures r == Served && old(spt)[k].LazySwapped? ==>
                k !in spt && old(spt)[k].slot < |swapFree| && swapFree[old(spt)[k].slot]
      ensures r == Served ==> (k in accessed <==> old(spt)[k].LazySwapped?)
      ensures r == Panicked <==> OutOfRoom(old(used), old(swapFree))
      ensures r == Panicked ==> used == old(used) && swapFree == old(swapFree)
    {
      hide Inv, View, Filled, Image, SlotBytes;
      var entry := spt[k];
      var f := FrameAlloc(k, false);
      if f < 0 {
        return Panicked;
      }
      EntryFacts(Here(), f, k);
      match entry {
        case LazySwapped(slot) =>
          if !ptOk {
            FrameFree(f);
            return Refused;
          }
          InstallFromSwap(k, f, slot);
        case LazyUnloaded(info) =>
          var bytes := FileBytes(info.file, info.offset, info.readBytes);
          var read := info.readBytes == 0 || bytes != [];
          if !read || !ptOk {
            FrameFree(f);
            return Refused;
          }
          InstallFromFile(k, f, info);
      }
      return Served;
    }

    /** The swapped branch of `pt_suppl_page_in`, once the frame is there. */
    method InstallFromSwap(k: Key, f: nat, slot: nat)
      requires |ram| > 0 && Inv(Here(), f) && f in table && table[f] == k && k in spt && spt[k] == LazySwapped(slot)
      modifies this
      ensures Valid() && k in pagedir && k in accessed && NoNewLazy(old(spt), spt)
      ensures slot < |old(swapFree)| && swapFree == old(swapFree)[slot := true] && spt == old(spt) - {k}
      ensures SameViews(old(Here()), Here(), f, -1)
    {
      hide FramesOk, View, SlotBytes, EntriesOk;
      ghost var got := Here();
      EntryFacts(got, f, k);
      InstalledOk(got, f, k, SlotBytes(device, slot));
      ghost var inst := Installed(got, f, k, SlotBytes(device, slot));
      AccessedOk(inst, -1, accessed + {k});
      pagedir := pagedir[k := f];
      // The sectors are read to the user address, which sets the accessed bit.
      accessed := accessed + {k};
      SwapIn(slot, f);
      swapFree := swapFree[slot := true];
      slotOwner := slotOwner - {slot};
      spt := spt - {k};
      assert Here() == inst.(accessed := accessed);
    }

    /** The unloaded branch of `pt_suppl_page_in`, once the frame is there. */
    method InstallFromFile(k: Key, f: nat, info: FileInfo)
      requires |ram| > 0 && Inv(Here(), f) && f in table && table[f] == k && k in spt && spt[k] == LazyUnloaded(info)
      modifies this
      ensures Valid() && k in pagedir && k !in accessed && NoNewLazy(old(spt), spt) && f < |old(ram)|
      ensures PageSized(info) && |old(ram)[f]| == PGSIZE
      ensures forall k' :: Memory(k') == if k' == k then Some(Filled(info, old(ram)[f])) else View(old(Here()), k')
      ensures Backed(info) ==> Filled(info, old(ram)[f]) == Image(info)
    {
      hide FramesOk, View, Filled, Image, EntriesOk;
      ghost var got := Here();
      EntryFacts(got, f, k);
      var page := Filled(info, ram[f]);
      FilledIsImage(info);
      InstalledOk(got, f, k, page);
      ram := ram[f := page];
      pagedir := pagedir[k := f];
      accessed := accessed - {k};
      spt := spt - {k};
      assert Here() == Installed(got, f, k, page);
    }

    /**
     `pt_suppl_grow_stack`.  The new page reads as zeros if a frame was free; a frame
     taken from a victim keeps the victim's bytes, since only `palloc` clears pages.
     */
    method GrowStack(k: Key, ptOk: bool) returns (r: FaultResult)
      requires Valid() && k !in spt && k !in pagedir
      modifies this
      ensures Valid() && NoNewLazy(old(spt), spt)
      ensures forall k' :: k' != k ==> Memory(k') == old(Memory(k'))
      ensures r == Served ==> k in pagedir && k !in accessed && Memory(k).Some? && |Memory(k).value| == PGSIZE
      ensures |used| == |old(used)| && ((exists g :: 0 <= g < |used| && !old(used)[g]) ==> swapFree == old(swapFree) && spt == old(spt))
      ensures r == Served && (exists g :: 0 <= g < |old(used)| && !old(used)[g]) ==> Memory(k) == Some(Zeros(PGSIZE))
      ensures r == Served && (forall g :: 0 <= g < |old(used)| ==> old(used)[g]) ==>
                exists v :: v != k && old(Memory(v)) == Memory(k)
      ensures r != Served ==> Memory(k) == None
      ensures r == Refused ==> !ptOk
      ensures r == Panicked <==> OutOfRoom(old(used), old(swapFree))
      ensures r == Panicked ==> used == old(used) && swapFree == old(swapFree)
    {
      hide FramesOk, View, EntriesOk;
      ghost var was := Here();
      MissingPage(was, k);
      var f := FrameAlloc(k, true);
      if f < 0 {
        return Panicked;
      }
      if !ptOk {
        FrameFree(f);
        return Refused;
      }
      ghost var got := Here();
      FrameFacts(got, f);
      InstalledOk(got, f, k, ram[f]);
      pagedir := pagedir[k := f];
      accessed := accessed - {k};
      assert spt == got.spt - {k};
      assert ram == got.ram[f := ram[f]];
      assert Here() == Installed(got, f, k, got.ram[f]);
      r := Served;
    }

    /** `pt_suppl_handle_page_fault`; `isStackGrowth` is the test against the stack pointer. */
    method PageFault(k: Key, isStackGrowth: bool, ptOk: bool) returns (r: FaultResult)
      requires Valid() && k !in pagedir
      modifies this
      ensures Valid() && NoNewLazy(old(spt), spt)
      ensures forall k' :: k' != k ==> Memory(k') == old(Memory(k'))
      ensures r == Served ==> k in pagedir
      ensures k in old(spt) && (old(spt)[k].LazyUnloaded? ==> Backed(old(spt)[k].info)) ==> Memory(k) == old(Memory(k))
      ensures r != Served ==> Memory(k) == old(Memory(k))
      ensures k !in old(spt) && !isStackGrowth ==> r == Refused
      ensures r == Refused && ptOk ==>
                || (k in old(spt) && old(spt)[k].LazyUnloaded? && !Backed(old(spt)[k].info))
                || (k !in old(spt) && !isStackGrowth)
      ensures r == Served && k !in old(spt) ==> Memory(k).Some? && NewStackPage(old(Here()), k, Memory(k).value)
      ensures r == Panicked <==> OutOfRoom(old(used), old(swapFree)) && (k in old(spt) || isStackGrowth)
      ensures r == Panicked ==> used == old(used) && swapFree == old(swapFree)
    {
      hide Inv, View;
      if k in spt {
        r := PageIn(k, ptOk);
      } else if isStackGrowth {
        MissingPage(Here(), k);
        r := GrowStack(k, ptOk);
      } else {
        r := Refused;
      }
    }

    /** `pt_suppl_add_lazy`: `hash_insert` keeps an entry that is already there. */
    method AddLazy(k: Key, info: FileInfo)
      requires Valid() && k !in pagedir && PageSized(info)
      modifies `spt
      ensures Valid()
      ensures spt == if k in old(spt) then old(spt) else old(spt)[k := LazyUnloaded(info)]
      ensures forall k' :: Memory(k') == if k' == k && k !in old(spt) then Some(Image(info)) else old(Memory(k'))
      ensures AllBacked(old(spt)) && Backed(info) ==> AllBacked(spt)
    {
      if k !in spt {
        spt := spt[k := LazyUnloaded(info)];
      }
    }

    /**
     `load_segment`: makes one lazy entry per page.  Every page that had no entry then
     reads as the corresponding page of the eagerly copied segment.
     */
    method LoadSegment(tid: nat, file: seq<Byte>, ofs: nat, firstPage: nat, readBytes: nat, zeroBytes: nat)
      requires Valid() && (readBytes + zeroBytes) % PGSIZE == 0
      requires forall k | k in pagedir :: !InRange(k, tid, firstPage, (readBytes + zeroBytes) / PGSIZE)
      modifies `spt
      ensures Valid()
      ensures forall k :: InRange(k, tid, firstPage, (readBytes + zeroBytes) / PGSIZE) && k !in old(spt) ==>
                Memory(k) == Some(SegmentPage(file, ofs, readBytes, zeroBytes, k.page - firstPage))
      ensures forall k :: !InRange(k, tid, firstPage, (readBytes + zeroBytes) / PGSIZE) ==>
                Memory(k) == old(Memory(k)) && (k in spt <==> k in old(spt))
      ensures AllBacked(old(spt)) && ofs + readBytes <= |file| ==> AllBacked(spt)
    {
      hide Inv, View, Image, Segment;
      var bytesLeft, zeroLeft, pos, page := readBytes, zeroBytes, ofs, firstPage;
      ghost var n := (readBytes + zeroBytes) / PGSIZE;
      ghost var j := 0;
      while bytesLeft > 0 || zeroLeft > 0
        invariant Valid() && 0 <= j <= n && page == firstPage + j
        invariant bytesLeft + zeroLeft == (n - j) * PGSIZE
        invariant bytesLeft == if j * PGSIZE <= readBytes then readBytes - j * PGSIZE else 0
        invariant zeroLeft >= 0
        invariant pos >= 0 && (bytesLeft > 0 ==> pos == ofs + j * PGSIZE)
        invariant pagedir == old(pagedir)
        invariant forall k :: InRange(k, tid, firstPage, j) && k !in old(spt) ==>
                    Memory(k) == Some(SegmentPage(file, ofs, readBytes, zeroBytes, k.page - firstPage))
        invariant forall k :: !InRange(k, tid, firstPage, j) ==>
                    Memory(k) == old(Memory(k)) && (k in spt <==> k in old(spt))
        invariant AllBacked(old(spt)) && ofs + readBytes <= |file| ==> AllBacked(spt)
        decreases n - j
      {
        var pageRead := if bytesLeft < PGSIZE then bytesLeft else PGSIZE;
        var pageZero := PGSIZE - pageRead;
        var info := FileInfo(file, pos, pageRead, pageZero);
        SegmentPageIsImage(file, ofs, readBytes, zeroBytes, j, info);
        AddLazy(Key(tid, page), info);
        bytesLeft := bytesLeft - pageRead;
        zeroLeft := zeroLeft - pageZero;
        pos := pos + pageRead;
        page := page + 1;
        j := j + 1;
      }
    }

    /**
     A user load or store.  A missing page is faulted in first, and one that does not
     exist is made if the stack grows there.  Otherwise the access is denied and
     nothing changes.
     */
    method Perform(a: Access, ptOk: bool) returns (o: Outcome, panic: bool)
      requires Valid() && a.at < PGSIZE && AllBacked(spt)
      modifies this
      ensures Valid() && AllBacked(spt)
      ensures forall k :: Memory(k) == After(old(Memory(k)), a, o, k)
      ensures !panic ==> Happens(old(Here()), a, ptOk, o)
      ensures !o.Denied? ==> a.key in pagedir && a.key in accessed
      ensures panic ==> o == Denied && OutOfRoom(used, swapFree)
      ensures a.key in old(pagedir) ==> pagedir == old(pagedir) && used == old(used) && swapFree == old(swapFree) && spt == old(spt)
      ensures panic <==> OutOfRoom(old(used), old(swapFree)) && a.key !in old(pagedir) && (a.key in old(spt) || a.stack)
    {
      hide Inv, View, NewStackPage;
      ghost var was := Here();
      panic := false;
      var grew := a.key !in pagedir && a.key !in spt;
      if a.key !in pagedir {
        if a.key !in spt {
          MissingPage(Here(), a.key);
        }
        var r := PageFault(a.key, a.stack, ptOk);
        panic := r == Panicked;
        if r != Served {
          return Denied, panic;
        }
      }
      ghost var mid := Here();
      PresentPage(mid, a.key);
      var f := pagedir[a.key];
      var page := ram[f];
      StoredOk(mid, a.key, a.at, if a.Store? then a.value else 0);
      var value := page[a.at];
      if a.Store? {
        value := a.value;
        var changed: seq<Byte> := ram[f][a.at := a.value];
        ram := ram[f := changed];
      }
      ghost var mid2 := Here();
      AccessedOk(mid2, -1, accessed + {a.key});
      accessed := accessed + {a.key};
      o := if grew then Grown(page, value) else Done(value);
    }

    /**
     A run of user accesses, by any processes in any order, with all the faults,
     evictions and stack growth they cause.  Every load yields what plain memory
     would, and at the end all memory is what plain memory would be.  Only a panic
     of the kernel, which needs full frames and a full swap device, ends a run early.
     */
    method Run(accesses: seq<Access>, ptOk: seq<bool>) returns (outs: seq<Outcome>)
      requires Valid() && AllBacked(spt) && |ptOk| == |accesses|
      requires forall i :: 0 <= i < |accesses| ==> accesses[i].at < PGSIZE
      modifies this
      ensures Valid() && AllBacked(spt) && |outs| <= |accesses|
      ensures forall k :: Memory(k) == Expected(old(Memory(k)), accesses[..|outs|], outs, k)
      ensures forall i :: 0 <= i < |outs| ==> Explained(old(Here()), accesses, ptOk, outs, i)
      ensures |outs| < |accesses| ==> OutOfRoom(used, swapFree)
    {
      hide View, EntriesOk;
      outs := [];
      while |outs| < |accesses|
        invariant Valid() && AllBacked(spt) && |outs| <= |accesses|
        invariant forall k :: Memory(k) == Expected(old(Memory(k)), accesses[..|outs|], outs, k)
        invariant forall i :: 0 <= i < |outs| ==> Explained(old(Here()), accesses, ptOk, outs, i)
      {
        ghost var before := Here();
        var n := |outs|;
        forall k ensures View(before, k) == Expected(View(old(Here()), k), accesses[..n], outs, k) {
          assert Memory(k) == Expected(old(Memory(k)), accesses[..n], outs, k);
        }
        var o, panic := Perform(accesses[n], ptOk[n]);
        if panic {
          return;
        }
        ExpectedNext(old(Here()), accesses, outs, o);
        ExplainedNext(old(Here()), before, accesses, ptOk, outs, o);
        outs := outs + [o];
      }
    }
  }

  /**
   A new stack page may hold what another process left in its frame: here a byte of
   page `b` that was never stored reads as 7.
   */
  method StaleStackPage() returns (value: Byte)
    ensures value == 7
  {
    hide FramesOk, EntriesOk, View;
    var vm := new Vm(1, 1);
    var a, b := Key(1, 0), Key(2, 0);
    assert vm.Memory(a) == vm.Memory(b) == None;
    MissingIn(vm.Here(), a);
    assert !vm.used[0] && vm.swapFree[0];
    var r := vm.GrowStack(a, true);
    assert vm.Memory(a) == Some(Zeros(PGSIZE)) && vm.Memory(b) == None && vm.swapFree[0];
    var o, panic := vm.Perform(Store(a, 0, 7, false), true);
    assert vm.Memory(a).Some? && vm.Memory(a).value[0] == 7 && vm.Memory(b) == None && vm.swapFree[0];
    MissingIn(vm.Here(), b);
    OneFrame(vm.Here(), a);
    ghost var was := vm.Here();
    r := vm.GrowStack(b, true);
    OnlyPage(was, a, b, vm.Memory(b));
    o, panic := vm.Perform(Load(b, 0, false), true);
    value := o.value;
  }

  lemma MissingIn(st: State, k: Key)
    requires Inv(st, -1)
    ensures View(st, k) == None ==> k !in st.spt && k !in st.pagedir
  {
  }

  /** With one frame and no entries, one page exists. */
  lemma OneFrame(st: State, k: Key)
    requires Inv(st, -1) && |st.used| == 1 && k in st.pagedir
    ensures st.used[0]
  {
  }

  lemma OnlyPage(st: State, k: Key, k': Key, page: Option<seq<Byte>>)
    requires Inv(st, -1) && |st.used| == 1 && k in st.pagedir && st.spt == map[] && page.Some?
    requires exists v :: v != k' && View(st, v) == page
    ensures page == View(st, k)
  {
  }

  // ----- Plain memory

  /** Page `k` of a plain memory after one access. */
  function After(page: Option<seq<Byte>>, a: Access, o: Outcome, k: Key): Option<seq<Byte>> {
    if a.key != k || o.Denied? then page
    else
      var base: Option<seq<Byte>> := if o.Grown? then Some(o.page) else page;
      if a.Store? && base.Some? && a.at < |base.value| then Some(base.value[a.at := a.value]) else base
  }

  /** Page `k` of a plain memory after a run. */
  function Expected(initial: Option<seq<Byte>>, accesses: seq<Access>, outs: seq<Outcome>, k: Key): Option<seq<Byte>>
    requires |outs| == |accesses|
  {
    if accesses == [] then initial
    else
      var n := |accesses| - 1;
      After(Expected(initial, accesses[..n], outs[..n], k), accesses[n], outs[n], k)
  }

  /** The value that an access delivers from a page. */
  predicate Delivers(a: Access, page: seq<Byte>, value: Byte) {
    a.at < |page| && value == if a.Store? then a.value else page[a.at]
  }

  /** An access acts on the page that is there, or on a new stack page, or is denied for lack of either. */
  ghost predicate Happens(st: State, a: Access, ptOk: bool, o: Outcome)
    requires Inv(st, -1)
  {
    match o
    case Done(value) => View(st, a.key).Some? && Delivers(a, View(st, a.key).value, value)
    case Grown(page, value) => View(st, a.key) == None && a.stack && Delivers(a, page, value) && NewStackPage(st, a.key, page)
    case Denied => ptOk ==> View(st, a.key) == None && !a.stack
  }

  /**
   The same for access `i` of a run that began in `st`, in terms of plain memory: a
   new stack page reads as zeros or as some other page did at that moment.
   */
  ghost predicate Explained(st: State, accesses: seq<Access>, ptOk: seq<bool>, outs: seq<Outcome>, i: nat)
    requires Inv(st, -1) && i < |outs| <= |accesses| == |ptOk|
  {
    var a := accesses[i];
    match outs[i]
    case Done(value) =>
      var page := PageAt(st, accesses, outs, i, a.key);
      page.Some? && Delivers(a, page.value, value)
    case Grown(page, value) =>
      && PageAt(st, accesses, outs, i, a.key) == None && a.stack && |page| == PGSIZE && Delivers(a, page, value)
      && (page == Zeros(PGSIZE) || exists v :: v != a.key && PageAt(st, accesses, outs, i, v) == Some(page))
    case Denied => ptOk[i] ==> PageAt(st, accesses, outs, i, a.key) == None && !a.stack
  }

  /** Page `k` just before access `i` of a run that began in `st`. */
  ghost function PageAt(st: State, accesses: seq<Access>, outs: seq<Outcome>, i: nat, k: Key): Option<seq<Byte>>
    requires Inv(st, -1) && i <= |outs| && i <= |accesses|
  {
    Expected(View(st, k), accesses[..i], outs[..i], k)
  }

  /** A new stack page `k` reads as zeros if a frame is free, and else as some other page does. */
  ghost predicate NewStackPage(st: State, k: Key, page: seq<Byte>)
    requires Inv(st, -1)
  {
    && |page| == PGSIZE
    && ((exists g :: 0 <= g < |st.used| && !st.used[g]) ==> page == Zeros(PGSIZE))
    && ((forall g :: 0 <= g < |st.used| ==> st.used[g]) ==> exists v :: v != k && View(st, v) == Some(page))
  }

  ghost predicate AllBacked(spt: map<Key, Entry>) {
    forall k | k in spt && spt[k].LazyUnloaded? :: Backed(spt[k].info)
  }

  /** Runs compose. */
  lemma {:induction false} ExpectedSplit(initial: Option<seq<Byte>>, a: seq<Access>, b: seq<Access>, oa: seq<Outcome>, ob: seq<Outcome>, k: Key)
    requires |a| == |oa| && |b| == |ob|
    ensures Expected(initial, a + b, oa + ob, k) == Expected(Expected(initial, a, oa, k), b, ob, k)
    decreases |b|
  {
    var n := |b| - 1;
    if b == [] {
      assert a + b == a && oa + ob == oa;
    } else {
      assert (a + b)[..|a| + n] == a + b[..n] && (oa + ob)[..|a| + n] == oa + ob[..n];
      ExpectedSplit(initial, a, b[..n], oa, ob[..n], k);
    }
  }

  /** Access `i` touches byte `at` of page `k`: a store to it, or the making of the page. */
  predicate Touches(a: Access, o: Outcome, k: Key, at: nat) {
    a.key == k && !o.Denied? && (o.Grown? || (a.Store? && a.at == at))
  }

  /** A byte of plain memory is the last value stored there. */
  lemma {:induction false} LastStore(initial: Option<seq<Byte>>, accesses: seq<Access>, outs: seq<Outcome>, k: Key, at: nat, i: nat)
    requires i < |accesses| == |outs| && Touches(accesses[i], outs[i], k, at) && accesses[i].Store? && accesses[i].at == at
    requires forall j :: i < j < |accesses| ==> !Touches(accesses[j], outs[j], k, at)
    requires Expected(initial, accesses, outs, k).Some? && at < |Expected(initial, accesses, outs, k).value|
    ensures Expected(initial, accesses, outs, k).value[at] == accesses[i].value
    decreases |accesses|
  {
    var n := |accesses| - 1;
    if i < n { LastStore(initial, accesses[..n], outs[..n], k, at, i); }
  }

  lemma ExpectedNext(st: State, accesses: seq<Access>, outs: seq<Outcome>, o: Outcome)
    requires Inv(st, -1) && |outs| < |accesses|
    ensures forall k :: Expected(View(st, k), accesses[..|outs| + 1], outs + [o], k)
                        == After(Expected(View(st, k), accesses[..|outs|], outs, k), accesses[|outs|], o, k)
  {
    hide View, After;
    var n := |outs|;
    var a, b := accesses[..n + 1], outs + [o];
    assert a[..n] == accesses[..n] && b[..n] == outs && a[n] == accesses[n] && b[n] == o && |a| == n + 1;
  }

  /** What one access does becomes a fact about the run. */
  lemma ExplainedNext(st: State, before: State, accesses: seq<Access>, ptOk: seq<bool>, outs: seq<Outcome>, o: Outcome)
    requires Inv(st, -1) && Inv(before, -1) && |outs| < |accesses| == |ptOk|
    requires Happens(before, accesses[|outs|], ptOk[|outs|], o)
    requires forall k :: View(before, k) == Expected(View(st, k), accesses[..|outs|], outs, k)
    requires forall i :: 0 <= i < |outs| ==> Explained(st, accesses, ptOk, outs, i)
    ensures forall i :: 0 <= i <= |outs| ==> Explained(st, accesses, ptOk, outs + [o], i)
  {
    hide View, Expected;
    var n, outs' := |outs|, outs + [o];
    assert outs'[..n] == outs;
    forall i | 0 <= i < n ensures Explained(st, accesses, ptOk, outs', i) {
      assert outs'[..i] == outs[..i] && outs'[i] == outs[i] && Explained(st, accesses, ptOk, outs, i);
      forall k ensures PageAt(st, accesses, outs', i, k) == PageAt(st, accesses, outs, i, k) { }
      if outs[i].Grown? && outs[i].page != Zeros(PGSIZE) {
        var v :| v != accesses[i].key && PageAt(st, accesses, outs, i, v) == Some(outs[i].page);
        assert PageAt(st, accesses, outs', i, v) == Some(outs'[i].page);
      }
    }
    forall k ensures PageAt(st, accesses, outs', n, k) == View(before, k) { }
    if o.Grown? && o.page != Zeros(PGSIZE) {
      var v :| v != accesses[n].key && View(before, v) == Some(o.page);
      assert PageAt(st, accesses, outs', n, v) == Some(outs'[n].page);
    }
    assert Explained(st, accesses, ptOk, outs', n);
  }

  // ----- Segments

  predicate InRange(k: Key, tid: nat, firstPage: nat, n: nat) {
    k.tid == tid && firstPage <= k.page < firstPage + n
  }

  /** The memory an eager loader would make: file bytes, as far as there are any, then zeros. */
  function Segment(file: seq<Byte>, ofs: nat, readBytes: nat, zeroBytes: nat): (r: seq<Byte>)
    ensures |r| == readBytes + zeroBytes
  {
    var got := FileBytes(file, ofs, readBytes);
    got + Zeros(readBytes + zeroBytes - |got|)
  }

  function SegmentPage(file: seq<Byte>, ofs: nat, readBytes: nat, zeroBytes: nat, j: nat): (r: seq<Byte>)
    requires (j + 1) * PGSIZE <= readBytes + zeroBytes
  {
    Segment(file, ofs, readBytes, zeroBytes)[j * PGSIZE..(j + 1) * PGSIZE]
  }

  /** Demand loading page `j` gives the same bytes as copying the whole segment at once. */
  lemma SegmentPageIsImage(file: seq<Byte>, ofs: nat, readBytes: nat, zeroBytes: nat, j: nat, info: FileInfo)
    requires (j + 1) * PGSIZE <= readBytes + zeroBytes
    requires info.file == file && info.readBytes + info.zeroBytes == PGSIZE
    requires info.readBytes == if j * PGSIZE >= readBytes then 0
                               else if readBytes - j * PGSIZE < PGSIZE then readBytes - j * PGSIZE else PGSIZE
    requires info.readBytes > 0 ==> info.offset == ofs + j * PGSIZE
    ensures ofs + readBytes <= |file| ==> Backed(info)
    ensures Image(info) == SegmentPage(file, ofs, readBytes, zeroBytes, j)
  {
    var seg, page := Segment(file, ofs, readBytes, zeroBytes), SegmentPage(file, ofs, readBytes, zeroBytes, j);
    forall i | 0 <= i < PGSIZE ensures Image(info)[i] == page[i] {
      assert page[i] == seg[j * PGSIZE + i];
    }
  }

  /** The byte counts that `load` computes from a program header put every byte where the header says. */
  lemma ProgramHeader(file: seq<Byte>, offset: nat, vaddr: nat, filesz: nat, memsz: nat, i: nat)
    requires offset % PGSIZE == vaddr % PGSIZE && filesz <= memsz && i < memsz
    requires offset + filesz <= |file|
    ensures var pageOffset := vaddr % PGSIZE;
            var readBytes := if filesz > 0 then pageOffset + filesz else 0;
            var total := (pageOffset + memsz + PGSIZE - 1) / PGSIZE * PGSIZE;
            && readBytes <= total && pageOffset + i < total
            && (readBytes == 0 || offset - pageOffset + readBytes <= |file|)
            && Segment(file, offset - pageOffset, readBytes, total - readBytes)[pageOffset + i]
               == if i < filesz then file[offset + i] else 0
  {
  }

  lemma PresentPage(st: State, k: Key)
    requires Inv(st, -1) && k in st.pagedir
    ensures st.pagedir[k] < |st.ram| && |st.ram[st.pagedir[k]]| == PGSIZE && View(st, k) == Some(st.ram[st.pagedir[k]])
  {
  }

  lemma MissingPage(st: State, k: Key)
    requires Inv(st, -1) && k !in st.spt && k !in st.pagedir
    ensures View(st, k) == None
  {
  }

  lemma FrameFacts(st: State, f: nat)
    requires Inv(st, f) && f in st.table
    ensures f < |st.ram| && |st.ram[f]| == PGSIZE
  {
  }

  /** Entries that are still unloaded were so before. */
  ghost predicate NoNewLazy(a: map<Key, Entry>, b: map<Key, Entry>) {
    forall k | k in b && b[k].LazyUnloaded? :: k in a && a[k] == b[k]
  }

  lemma EntryFacts(st: State, f: nat, k: Key)
    requires Inv(st, f) && k in st.spt && f in st.table
    ensures f < |st.ram| && |st.ram[f]| == PGSIZE && k !in st.pagedir
    ensures st.spt[k].LazySwapped? ==> && st.spt[k].slot < |st.swapFree| && |SlotBytes(st.device, st.spt[k].slot)| == PGSIZE
                                       && View(st, k) == Some(SlotBytes(st.device, st.spt[k].slot))
    ensures st.spt[k].LazyUnloaded? ==> PageSized(st.spt[k].info) && View(st, k) == Some(Image(st.spt[k].info))
  {
    if st.spt[k].LazySwapped? {
      SlotSectors(st.device, st.spt[k].slot);
    }
  }

  /** The accessed bits, without those of the pages in the frames `fs`. */
  ghost function Unaccessed(accessed: set<Key>, table: map<nat, Key>, fs: seq<nat>): set<Key>
    requires forall i :: 0 <= i < |fs| ==> fs[i] in table
  {
    set k | k in accessed && forall i :: 0 <= i < |fs| ==> table[fs[i]] != k
  }

  lemma UnaccessedNone(accessed: set<Key>, table: map<nat, Key>)
    ensures Unaccessed(accessed, table, []) == accessed
  {
  }

  lemma UnaccessedNext(accessed: set<Key>, table: map<nat, Key>, order: seq<nat>, n: nat, i: nat)
    requires (forall j :: 0 <= j < |order| ==> order[j] in table) && n <= |order| && i < |order|
    requires forall j, l :: 0 <= j < l < |order| ==> table[order[j]] != table[order[l]]
    requires i == n || n == |order|
    ensures i < n ==> table[order[i]] !in Unaccessed(accessed, table, order[..n])
    ensures i == n ==> Unaccessed(accessed, table, order[..n]) - {table[order[i]]} == Unaccessed(accessed, table, order[..n + 1])
    ensures i == n ==> (table[order[i]] in Unaccessed(accessed, table, order[..n]) <==> table[order[i]] in accessed)
  {
    if i < n { assert order[..n][i] == order[i]; }
  }

  /** `order` lists the frames of the table, each once. */
  ghost predicate Enumerates(order: seq<nat>, table: map<nat, Key>) {
    && (forall i :: 0 <= i < |order| ==> order[i] in table)
    && (forall f | f in table :: f in order)
    && (forall i, j :: 0 <= i < j < |order| ==> order[i] != order[j])
  }

  lemma EnumerationFacts(st: State, order: seq<nat>)
    requires Inv(st, -1) && Enumerates(order, st.table) && |st.ram| > 0 && forall g :: 0 <= g < |st.used| ==> st.used[g]
    ensures order != []
    ensures forall i, j :: 0 <= i < j < |order| ==> st.table[order[i]] != st.table[order[j]]
  {
    assert 0 in st.table;
  }

  lemma TableFacts(st: State, f: nat)
    requires Inv(st, -1) && f in st.table
    ensures f < |st.ram| && st.table[f] !in st.spt && st.table[f] in st.pagedir && st.pagedir[st.table[f]] == f
  {
  }

  lemma SlotSectors(device: seq<seq<Byte>>, slot: nat)
    requires SECTORS_PER_PAGE * (slot + 1) <= |device|
    requires forall s :: 0 <= s < |device| ==> |device[s]| == SECTOR_SIZE
    ensures |SlotBytes(device, slot)| == PGSIZE
    ensures forall i :: 0 <= i < SECTORS_PER_PAGE ==>
              SlotBytes(device, slot)[i * SECTOR_SIZE..(i + 1) * SECTOR_SIZE] == device[SECTORS_PER_PAGE * slot + i]
  {
    var whole, b := SlotBytes(device, slot), SECTORS_PER_PAGE * slot;
    forall i | 0 <= i < SECTORS_PER_PAGE
      ensures whole[i * SECTOR_SIZE..(i + 1) * SECTOR_SIZE] == device[b + i]
    {
      assert i == 0 || i == 1 || i == 2 || i == 3 || i == 4 || i == 5 || i == 6 || i == 7;
    }
  }
}
