/**
 User memory under demand paging (vm/page.c, vm/frame.c, vm/swap.c) as values:
 what each user page reads as, wherever its bytes currently are, and the
 invariant that keeps frames and swap slots from being shared.
 */
module PagingModel {
  import opened Sequences

  const SECTORS_PER_PAGE: nat := 8

  /** A user page of a process. */
  datatype Key = Key(tid: nat, page: nat)

  /** `struct pt_suppl_file_info`: where the initial bytes of a page come from. */
  datatype FileInfo = FileInfo(file: seq<Byte>, offset: nat, readBytes: nat, zeroBytes: nat)

  /** A supplemental page table entry that is not memory mapped. */
  datatype Entry = LazyUnloaded(info: FileInfo) | LazySwapped(slot: nat)

  datatype State = State(
    ram: seq<seq<Byte>>,          // the frames of the user pool
    used: seq<bool>,              // user pool bitmap
    table: map<nat, Key>,         // frame table: frame to its page
    pagedir: map<Key, nat>,       // present pages
    accessed: set<Key>,           // accessed bits
    spt: map<Key, Entry>,         // supplemental page tables
    device: seq<seq<Byte>>,       // swap device, by sector
    swapFree: seq<bool>,          // swap bitmap: true means free
    slotOwner: map<nat, Key>)     // which page each taken swap slot holds

  // ----- Initial images

  /** Bytes that `file_read` delivers when asked for `n` bytes at `offset`. */
  function FileBytes(file: seq<Byte>, offset: nat, n: nat): (r: seq<Byte>)
    ensures |r| <= n
  {
    if offset >= |file| then []
    else if offset + n <= |file| then file[offset..offset + n] else file[offset..]
  }

  ghost predicate PageSized(info: FileInfo) {
    info.readBytes + info.zeroBytes == PGSIZE
  }

  /** The file really holds the bytes the entry asks for. */
  predicate Backed(info: FileInfo) {
    info.readBytes == 0 || info.offset + info.readBytes <= |info.file|
  }

  /** The initial image: the file's bytes, then zeros. */
  function Image(info: FileInfo): (r: seq<Byte>)
    requires PageSized(info)
    ensures |r| == PGSIZE
  {
    var got := FileBytes(info.file, info.offset, info.readBytes);
    got + Zeros(PGSIZE - |got|)
  }

  /** What `pt_suppl_page_in` leaves in a frame that held `stale`. */
  function Filled(info: FileInfo, stale: seq<Byte>): (r: seq<Byte>)
    requires PageSized(info) && |stale| == PGSIZE
    ensures |r| == PGSIZE
  {
    var got := FileBytes(info.file, info.offset, info.readBytes);
    Spliced(Spliced(stale, 0, got), info.readBytes, Zeros(info.zeroBytes))
  }

  /** Demand loading yields the image exactly when the file is long enough, whatever the frame held. */
  lemma FilledIsImage(info: FileInfo)
    requires PageSized(info)
    ensures (forall stale: seq<Byte> :: |stale| == PGSIZE ==> Filled(info, stale) == Image(info)) <==> Backed(info)
  {
    var got := FileBytes(info.file, info.offset, info.readBytes);
    if Backed(info) {
      assert |got| == info.readBytes;
    } else {
      var ones: seq<Byte> := seq(PGSIZE, _ => 1);
      assert |got| < info.readBytes;
      assert Filled(info, ones)[|got|] == 1;
      assert Image(info)[|got|] == 0;
    }
  }

  // ----- What a page reads as

  function SlotBytes(device: seq<seq<Byte>>, slot: nat): seq<Byte>
    requires SECTORS_PER_PAGE * (slot + 1) <= |device|
  {
    var b := SECTORS_PER_PAGE * slot;
    device[b] + device[b + 1] + device[b + 2] + device[b + 3]
    + device[b + 4] + device[b + 5] + device[b + 6] + device[b + 7]
  }

  ghost predicate Sized(st: State) {
    && |st.used| == |st.ram|
    && (forall f :: 0 <= f < |st.ram| ==> |st.ram[f]| == PGSIZE)
    && SECTORS_PER_PAGE * |st.swapFree| <= |st.device|
    && (forall s :: 0 <= s < |st.device| ==> |st.device[s]| == SECTOR_SIZE)
  }

  /** Frames and present pages correspond one to one, except for a frame being filled. */
  ghost predicate FramesOk(st: State, reserved: int)
    requires Sized(st)
  {
    && (forall f | f in st.table :: f < |st.ram|)
    && (forall f :: 0 <= f < |st.ram| ==> (st.used[f] <==> f in st.table))
    && (forall f | f in st.table && f != reserved :: st.table[f] in st.pagedir && st.pagedir[st.table[f]] == f)
    && (forall k | k in st.pagedir :: st.pagedir[k] in st.table && st.pagedir[k] != reserved
                                      && st.table[st.pagedir[k]] == k)
  }

  /** A page is resident or has an entry, never both; a slot is taken exactly while it holds a page, and then holds one. */
  ghost predicate EntriesOk(st: State)
    requires Sized(st)
  {
    && (forall k | k in st.pagedir :: k !in st.spt)
    && (forall k | k in st.spt && st.spt[k].LazyUnloaded? :: PageSized(st.spt[k].info))
    && (forall k | k in st.spt && st.spt[k].LazySwapped? ::
          st.spt[k].slot in st.slotOwner && st.slotOwner[st.spt[k].slot] == k)
    && (forall s | s in st.slotOwner :: s < |st.swapFree| && !st.swapFree[s]
                                        && st.slotOwner[s] in st.spt && st.spt[st.slotOwner[s]] == LazySwapped(s))
    && (forall s :: 0 <= s < |st.swapFree| && !st.swapFree[s] ==> s in st.slotOwner)
  }

  ghost predicate Inv(st: State, reserved: int) {
    Sized(st) && FramesOk(st, reserved) && EntriesOk(st)
  }

  /** The bytes of a user page, wherever they are; None if the page does not exist. */
  ghost function View(st: State, k: Key): Option<seq<Byte>>
    requires Sized(st) && EntriesOk(st)
    requires forall k | k in st.pagedir :: st.pagedir[k] < |st.ram|
  {
    if k in st.pagedir then Some(st.ram[st.pagedir[k]])
    else if k in st.spt then
      match st.spt[k]
      case LazyUnloaded(info) => Some(Image(info))
      case LazySwapped(slot) => Some(SlotBytes(st.device, slot))
    else None
  }

  ghost predicate SameViews(a: State, b: State, reservedA: int, reservedB: int)
    requires Inv(a, reservedA) && Inv(b, reservedB)
  {
    forall k :: View(b, k) == View(a, k)
  }

  /** No frame backs two pages, no swap slot holds two pages, and no page is in both places. */
  lemma NoSharing(st: State, k: Key, k': Key)
    requires Inv(st, -1) && k != k'
    ensures k in st.pagedir && k' in st.pagedir ==> st.pagedir[k] != st.pagedir[k']
    ensures k in st.spt && k' in st.spt && st.spt[k].LazySwapped? && st.spt[k'].LazySwapped? ==>
              st.spt[k].slot != st.spt[k'].slot
    ensures k in st.pagedir ==> k !in st.spt
  {
  }

  // ----- State changes

  /** `swap_out` of frame `f` into the free `slot`, page by page. */
  function DeviceWith(device: seq<seq<Byte>>, slot: nat, page: seq<Byte>): (d: seq<seq<Byte>>)
    requires SECTORS_PER_PAGE * (slot + 1) <= |device| && |page| == PGSIZE
    ensures |d| == |device|
  {
    var b := SECTORS_PER_PAGE * slot;
    seq(|device|, s requires 0 <= s < |device| =>
      if b <= s < b + SECTORS_PER_PAGE then page[(s - b) * SECTOR_SIZE..(s - b + 1) * SECTOR_SIZE] else device[s])
  }

  lemma SlotWritten(device: seq<seq<Byte>>, slot: nat, page: seq<Byte>)
    requires SECTORS_PER_PAGE * (slot + 1) <= |device| && |page| == PGSIZE
    ensures SlotBytes(DeviceWith(device, slot, page), slot) == page
  {
    var b := SECTORS_PER_PAGE * slot;
    var d := DeviceWith(device, slot, page);
    assert d[b] == page[0..512] && d[b + 1] == page[512..1024] && d[b + 2] == page[1024..1536]
        && d[b + 3] == page[1536..2048] && d[b + 4] == page[2048..2560] && d[b + 5] == page[2560..3072]
        && d[b + 6] == page[3072..3584] && d[b + 7] == page[3584..4096];
  }

  lemma OtherSlot(device: seq<seq<Byte>>, slot: nat, page: seq<Byte>, other: nat)
    requires SECTORS_PER_PAGE * (slot + 1) <= |device| && |page| == PGSIZE
    requires other != slot && SECTORS_PER_PAGE * (other + 1) <= |device|
    ensures SlotBytes(DeviceWith(device, slot, page), other) == SlotBytes(device, other)
  {
    var d, o := DeviceWith(device, slot, page), SECTORS_PER_PAGE * other;
    hide DeviceWith;
    OtherSectors(device, slot, page, other);
    assert d[o] == device[o] && d[o + 1] == device[o + 1] && d[o + 2] == device[o + 2] && d[o + 3] == device[o + 3]
        && d[o + 4] == device[o + 4] && d[o + 5] == device[o + 5] && d[o + 6] == device[o + 6] && d[o + 7] == device[o + 7];
  }

  lemma OtherSectors(device: seq<seq<Byte>>, slot: nat, page: seq<Byte>, other: nat)
    requires SECTORS_PER_PAGE * (slot + 1) <= |device| && |page| == PGSIZE
    requires other != slot && SECTORS_PER_PAGE * (other + 1) <= |device|
    ensures forall k :: SECTORS_PER_PAGE * other <= k < SECTORS_PER_PAGE * (other + 1) ==>
              DeviceWith(device, slot, page)[k] == device[k]
  {
  }

  /** The victim in frame `f` goes to `slot`, and the frame is reserved for page `k`. */
  function Evicted(st: State, f: nat, slot: nat, k: Key): State
    requires f < |st.ram| && f in st.table && slot < |st.swapFree|
    requires SECTORS_PER_PAGE * (slot + 1) <= |st.device| && |st.ram[f]| == PGSIZE
  {
    var victim := st.table[f];
    st.(device := DeviceWith(st.device, slot, st.ram[f]), swapFree := st.swapFree[slot := false],
        spt := st.spt[victim := LazySwapped(slot)], pagedir := st.pagedir - {victim},
        slotOwner := st.slotOwner[slot := victim], table := st.table[f := k])
  }

  lemma EvictedInv(st: State, f: nat, slot: nat, k: Key)
    requires Inv(st, -1) && f in st.table && slot < |st.swapFree| && st.swapFree[slot]
    ensures f < |st.ram| && Inv(Evicted(st, f, slot, k), f)
  {
    EvictedFrames(st, f, slot, k);
    EvictedEntries(st, f, slot, k);
    hide FramesOk, EntriesOk;
  }

  lemma EvictedFrames(st: State, f: nat, slot: nat, k: Key)
    requires Inv(st, -1) && f in st.table && slot < |st.swapFree|
    ensures f < |st.ram| && Sized(Evicted(st, f, slot, k)) && FramesOk(Evicted(st, f, slot, k), f)
  {
    hide EntriesOk;
  }

  lemma EvictedEntries(st: State, f: nat, slot: nat, k: Key)
    requires Inv(st, -1) && f in st.table && f < |st.ram| && slot < |st.swapFree| && st.swapFree[slot]
    requires Sized(Evicted(st, f, slot, k))
    ensures EntriesOk(Evicted(st, f, slot, k))
  {
    assert st.table[f] in st.pagedir;
    hide FramesOk, DeviceWith;
  }

  /** Eviction moves bytes, it does not change what any page reads as. */
  lemma EvictedOk(st: State, f: nat, slot: nat, k: Key)
    requires Inv(st, -1) && f in st.table && slot < |st.swapFree| && st.swapFree[slot]
    ensures f < |st.ram| && Inv(Evicted(st, f, slot, k), f)
    ensures SameViews(st, Evicted(st, f, slot, k), -1, f)
  {
    EvictedInv(st, f, slot, k);
    var st' := Evicted(st, f, slot, k);
    SlotWritten(st.device, slot, st.ram[f]);
    forall k ensures View(st', k) == View(st, k) {
      if k in st.spt && st.spt[k].LazySwapped? {
        OtherSlot(st.device, slot, st.ram[f], st.spt[k].slot);
      }
    }
  }

  /** The free frame `f` is taken for page `k`; it holds `page`. */
  function Reserved(st: State, f: nat, k: Key, page: seq<Byte>): State
    requires f < |st.used| && f < |st.ram|
  {
    st.(used := st.used[f := true], table := st.table[f := k], ram := st.ram[f := page])
  }

  lemma ReservedOk(st: State, f: nat, k: Key, page: seq<Byte>)
    requires Inv(st, -1) && f < |st.used| && !st.used[f] && |page| == PGSIZE
    ensures Inv(Reserved(st, f, k, page), f) && SameViews(st, Reserved(st, f, k, page), -1, f)
  {
  }

  function Unreserved(st: State, f: nat): State
    requires f < |st.used|
  {
    st.(used := st.used[f := false], table := st.table - {f})
  }

  lemma UnreservedOk(st: State, f: nat)
    requires Inv(st, f) && f in st.table
    ensures f < |st.used| && Inv(Unreserved(st, f), -1) && SameViews(st, Unreserved(st, f), f, -1)
  {
  }

  /** The reserved frame `f`, filled with `page`, becomes the frame of `k`, which leaves its swap slot if it had one. */
  function Installed(st: State, f: nat, k: Key, page: seq<Byte>): State
    requires f < |st.ram| && (k in st.spt && st.spt[k].LazySwapped? ==> st.spt[k].slot < |st.swapFree|)
  {
    var st' := st.(ram := st.ram[f := page], pagedir := st.pagedir[k := f], accessed := st.accessed - {k}, spt := st.spt - {k});
    if k in st.spt && st.spt[k].LazySwapped? then
      st'.(swapFree := st.swapFree[st.spt[k].slot := true], slotOwner := st.slotOwner - {st.spt[k].slot})
    else st'
  }

  lemma InstalledFrames(st: State, f: nat, k: Key, page: seq<Byte>)
    requires Inv(st, f) && f in st.table && st.table[f] == k && k !in st.pagedir && |page| == PGSIZE
    requires k in st.spt && st.spt[k].LazySwapped? ==> st.spt[k].slot < |st.swapFree|
    ensures f < |st.ram| && Sized(Installed(st, f, k, page)) && FramesOk(Installed(st, f, k, page), -1)
  {
    hide EntriesOk;
  }

  lemma InstalledEntries(st: State, f: nat, k: Key, page: seq<Byte>)
    requires Inv(st, f) && f < |st.ram| && k !in st.pagedir
    requires k in st.spt && st.spt[k].LazySwapped? ==> st.spt[k].slot < |st.swapFree|
    requires Sized(Installed(st, f, k, page))
    ensures EntriesOk(Installed(st, f, k, page))
  {
    hide FramesOk, Sized;
  }

  lemma InstalledViews(st: State, f: nat, k: Key, page: seq<Byte>)
    requires Inv(st, f) && f in st.table && st.table[f] == k && k !in st.pagedir && f < |st.ram|
    requires k in st.spt && st.spt[k].LazySwapped? ==> st.spt[k].slot < |st.swapFree|
    requires Inv(Installed(st, f, k, page), -1)
    ensures forall k' :: View(Installed(st, f, k, page), k') == if k' == k then Some(page) else View(st, k')
  {
    hide Image, SlotBytes;
  }

  lemma EntryInRange(st: State, f: nat, k: Key)
    requires Inv(st, f) && f in st.table
    ensures f < |st.ram| && (k in st.spt && st.spt[k].LazySwapped? ==> st.spt[k].slot < |st.swapFree|)
  {
  }

  /** Installing puts `page` at `k` and leaves every other page alone. */
  lemma InstalledOk(st: State, f: nat, k: Key, page: seq<Byte>)
    requires Inv(st, f) && f in st.table && st.table[f] == k && k !in st.pagedir && |page| == PGSIZE
    ensures f < |st.ram| && (k in st.spt && st.spt[k].LazySwapped? ==> st.spt[k].slot < |st.swapFree|)
    ensures Inv(Installed(st, f, k, page), -1)
    ensures forall k' :: View(Installed(st, f, k, page), k') == if k' == k then Some(page) else View(st, k')
  {
    hide Sized, FramesOk, EntriesOk, View;
    EntryInRange(st, f, k);
    InstalledFrames(st, f, k, page);
    InstalledEntries(st, f, k, page);
    InstalledViews(st, f, k, page);
  }

  lemma AccessedOk(st: State, reserved: int, accessed: set<Key>)
    requires Inv(st, reserved)
    ensures Inv(st.(accessed := accessed), reserved)
    ensures SameViews(st, st.(accessed := accessed), reserved, reserved)
  {
  }

  /** A store into a present page changes that byte of that page only. */
  lemma StoredOk(st: State, k: Key, at: nat, value: Byte)
    requires Inv(st, -1) && k in st.pagedir && at < PGSIZE
    ensures st.pagedir[k] < |st.ram| && |st.ram[st.pagedir[k]]| == PGSIZE
    ensures var f := st.pagedir[k];
            var page: seq<Byte> := st.ram[f][at := value];
            var st' := st.(ram := st.ram[f := page]);
            Inv(st', -1) && forall k' :: View(st', k') == if k' == k then Some(page) else View(st, k')
  {
  }

  // ----- Room

  /** A swap slot is taken if and only if some page's bytes are in it. */
  lemma SlotsHoldPages(st: State, s: nat)
    requires Inv(st, -1) && s < |st.swapFree|
    ensures !st.swapFree[s] <==> exists k :: k in st.spt && st.spt[k] == LazySwapped(s)
  {
    hide FramesOk;
    if !st.swapFree[s] { assert st.slotOwner[s] in st.spt; }
  }

  ghost function Swapped(st: State): set<Key> {
    set k | k in st.spt && st.spt[k].LazySwapped?
  }

  /** Every frame is in use and every swap slot is taken. */
  ghost predicate OutOfRoom(used: seq<bool>, swapFree: seq<bool>) {
    (forall g :: 0 <= g < |used| ==> used[g]) && (forall s :: 0 <= s < |swapFree| ==> !swapFree[s])
  }

  /** There is no more room exactly when as many pages are resident as there are frames, and as many swapped out as there are slots. */
  lemma Capacity(st: State)
    requires Inv(st, -1)
    ensures |st.pagedir| <= |st.ram| && |Swapped(st)| <= |st.swapFree|
    ensures OutOfRoom(st.used, st.swapFree) <==> |st.pagedir| + |Swapped(st)| == |st.ram| + |st.swapFree|
  {
    FramesTaken(st);
    SlotsTaken(st);
    hide Sized, FramesOk, EntriesOk, Swapped;
  }

  lemma FramesTaken(st: State)
    requires Inv(st, -1)
    ensures |st.pagedir| <= |st.ram| && (|st.pagedir| == |st.ram| <==> forall g :: 0 <= g < |st.used| ==> st.used[g])
  {
    hide EntriesOk;
    var taken := set g | 0 <= g < |st.used| && st.used[g];
    forall g | g in taken ensures st.table[g] in st.pagedir && st.pagedir[st.table[g]] == g { }
    Pairing(st.pagedir.Keys, taken, st.pagedir);
    Below(taken, |st.used|);
    assert forall g :: 0 <= g < |st.used| ==> (g in taken <==> st.used[g]);
  }

  lemma SlotsTaken(st: State)
    requires Inv(st, -1)
    ensures |Swapped(st)| <= |st.swapFree| && (|Swapped(st)| == |st.swapFree| <==> forall s :: 0 <= s < |st.swapFree| ==> !st.swapFree[s])
  {
    hide FramesOk;
    var taken := set s | 0 <= s < |st.swapFree| && !st.swapFree[s];
    forall s | s in taken ensures st.slotOwner[s] in Swapped(st) && st.spt[st.slotOwner[s]] == LazySwapped(s) { }
    Pairing(Swapped(st), taken, map k | k in Swapped(st) :: st.spt[k].slot);
    Below(taken, |st.swapFree|);
    assert forall s :: 0 <= s < |st.swapFree| ==> (s in taken <==> !st.swapFree[s]);
  }

  /** Two sets that correspond one to one are of the same size. */
  lemma {:induction false} Pairing(keys: set<Key>, values: set<nat>, m: map<Key, nat>)
    requires keys <= m.Keys && (forall k | k in keys :: m[k] in values)
    requires forall v | v in values :: exists k :: k in keys && m[k] == v
    requires forall k, l | k in keys && l in keys && k != l :: m[k] != m[l]
    ensures |keys| == |values|
    decreases |keys|
  {
    if k :| k in keys {
      var v := m[k];
      forall w | w in values - {v} ensures exists l :: l in keys - {k} && m[l] == w {
        var l :| l in keys && m[l] == w;
        assert l in keys - {k};
      }
      Pairing(keys - {k}, values - {v}, m);
    } else {
      assert values == {};
    }
  }

  lemma {:induction false} Below(s: set<nat>, n: nat)
    requires forall i | i in s :: i < n
    ensures |s| <= n && (|s| == n <==> forall i :: 0 <= i < n ==> i in s)
  {
    if n == 0 {
      assert s == {};
    } else {
      Below(s - {n - 1}, n - 1);
    }
  }
}
