/**
 The inode code (filesys/inode.c) over a disk and its free map: block
 allocation, growth, reading and writing.  The file is the byte sequence
 `Contents(State())`; `Grow` may extend it in several short steps, and
 `WriteAt` is proved against the resulting sequence all the same.
 */
module Inode {
  import opened Sequences
  import opened InodeModel
  import opened InodeSpace

  /** The disk, and the in-memory bitmap of the free map (filesys/free-map.c). */
  class Volume {
    var disk: seq<Block>
    var used: seq<bool>

    /** `free_map_allocate (1, ...)`: first fit. */
    method FreeMapAllocate() returns (s: nat)
      requires |disk| == |used| <= SECTOR_ERROR
      modifies `used
      ensures s != SECTOR_ERROR ==> s < |old(used)| && !old(used)[s] && used == old(used)[s := true]
      ensures s != SECTOR_ERROR ==> forall k :: 0 <= k < s ==> old(used)[k]
      ensures s == SECTOR_ERROR ==> used == old(used) && Full(used)
    {
      s := 0;
      while s < |used|
        invariant s <= |used| && used == old(used)
        invariant forall k :: 0 <= k < s ==> used[k]
      {
        if !used[s] {
          used := used[s := true];
          return;
        }
        s := s + 1;
      }
      s := SECTOR_ERROR;
    }

    /** `allocate_new_block`, without the store into the table. */
    method AllocateNewBlock() returns (s: nat)
      requires |disk| == |used| <= SECTOR_ERROR
      modifies this
      ensures s != SECTOR_ERROR ==> s < |old(used)| && !old(used)[s] && used == old(used)[s := true]
                                    && disk == old(disk)[s := Data(Zeros(SECTOR_SIZE))]
      ensures s == SECTOR_ERROR ==> used == old(used) && disk == old(disk) && Full(used)
    {
      s := FreeMapAllocate();
      if s != SECTOR_ERROR {
        disk := disk[s := Data(Zeros(SECTOR_SIZE))];
      }
    }

    /** `allocate_new_index_inode`, without the store into the table. */
    method AllocateNewIndexInode() returns (s: nat)
      requires |disk| == |used| <= SECTOR_ERROR
      modifies this
      ensures s != SECTOR_ERROR ==> s < |old(used)| && !old(used)[s] && used == old(used)[s := true]
                                    && disk == old(disk)[s := EmptyIndex()]
      ensures s == SECTOR_ERROR ==> used == old(used) && disk == old(disk) && Full(used)
    {
      s := FreeMapAllocate();
      if s != SECTOR_ERROR {
        disk := disk[s := EmptyIndex()];
      }
    }
  }

  ghost predicate Full(used: seq<bool>) {
    forall k :: 0 <= k < |used| ==> used[k]
  }

  function RoundUp(length: nat): nat {
    SECTOR_SIZE * DivRoundUp(length, SECTOR_SIZE)
  }

  /** Bytes between the end of the file and the end of its last sector. */
  function Padding(length: nat): nat {
    RoundUp(length) - length
  }

  /** The length after a successful `inode_grow (inode, size, offset)`. */
  function GrownLength(length: nat, size: nat, offset: nat): nat {
    if offset + size > RoundUp(length) then length + (offset + size - RoundUp(length)) else offset + size
  }

  /** The last file sector that `inode_grow` asks for. */
  function LastGrown(length: nat, size: nat, offset: nat): nat {
    if offset + size > RoundUp(length)
    then (if length <= SECTOR_SIZE then 0 else DivRoundUp(length, SECTOR_SIZE) - 1)
         + DivRoundUp(offset + size - RoundUp(length), SECTOR_SIZE)
    else 0
  }

  /** One past the last byte that stays within direct and singly indirect blocks. */
  function MaxEnd(length: nat): nat {
    SECTOR_SIZE * (if length == 0 then ACCESS_INDIRECT else ACCESS_INDIRECT + 1)
  }

  /** Growing asks only for sectors within reach, and for all that the new length needs. */
  lemma GrowthInReach(length: nat, size: nat, offset: nat)
    requires size > 0 && offset + size >= length && offset + size <= MaxEnd(length)
    ensures LastGrown(length, size, offset) <= ACCESS_INDIRECT
    ensures length <= GrownLength(length, size, offset) <= offset + size
    ensures SectorsFor(GrownLength(length, size, offset)) <= LastGrown(length, size, offset) + 1
         || SectorsFor(GrownLength(length, size, offset)) <= SectorsFor(length)
  {
  }

  /** `MaxEnd` is exact: beyond it `inode_grow` asks for a sector out of reach. */
  lemma ReachIsExact(length: nat, size: nat, offset: nat)
    requires offset + size > RoundUp(length) && length <= SECTOR_SIZE * (ACCESS_INDIRECT + 1)
    ensures LastGrown(length, size, offset) <= ACCESS_INDIRECT <==> offset + size <= MaxEnd(length)
  {
  }

  /** An empty file that is to get all 4171 sectors asks for one more, a one-byte file does not. */
  lemma EmptyFileReach()
    ensures LastGrown(0, SECTOR_SIZE * (ACCESS_INDIRECT + 1), 0) == ACCESS_INDIRECT + 1
    ensures LastGrown(1, SECTOR_SIZE * (ACCESS_INDIRECT + 1), 0) == ACCESS_INDIRECT
  {
  }

  /**
   When writing `size` bytes at `offset` into a file of `length` bytes writes them
   all, space permitting.  The exception are short writes past the end of file:
   `inode_grow` falls `Padding(length)` bytes short of the wanted length.
   */
  predicate WriteReaches(length: nat, size: nat, offset: nat) {
    || size == 0
    || offset <= length
    || offset + size <= RoundUp(length)
    || size > Padding(length)
  }

  /** Byte `p` of a file that held `c` once `d` has been written at `offset`. */
  function Overlaid(c: seq<Byte>, offset: nat, d: seq<Byte>, p: nat): Byte {
    if offset <= p < offset + |d| then d[p - offset]
    else if p < |c| then c[p] else 0
  }

  /** The sectors that the file lacks to reach byte `end`: the data `inode_grow` asks for, and its index blocks. */
  ghost function Lacks(st: State, end: nat): nat
    requires Shape(st)
  {
    if end <= st.length then 0 else Need(st, LastGrown(st.length, end, 0) + 1)
  }

  /** The free sectors left over when the file has reached byte `end`; negative if there are too few. */
  ghost function Margin(st: State, end: nat): int
    requires Shape(st)
  {
    |FreeSectors(st.used)| - Lacks(st, end)
  }

  ghost predicate Roomy(st: State, end: nat)
    requires Shape(st)
  {
    Margin(st, end) >= 0
  }

  /** Reaching into the padding of the last sector takes nothing. */
  lemma PaddingIsFree(st: State, end: nat)
    requires Inv(st) && end <= RoundUp(st.length)
    ensures Lacks(st, end) == 0 && Roomy(st, end)
  {
    if end > st.length {
      CoveredLess(st, SectorsFor(st.length), 1);
      CoveredNeedsNothing(st, 1);
    }
  }

  // ----- Facts about states, for the methods below

  lemma NoneLeft(st: State, r: nat)
    requires Shape(st) && Lookup(st, r) == SECTOR_ERROR && Full(st.used)
    ensures forall n: nat :: r < n ==> Slack(st, n) < 0
  {
    NoneFree(st, r);
  }

  /** What a growth that succeeded asked for is there, and so is what the next one asks for. */
  lemma RoomyGrown(st: State, length: nat, end: nat)
    requires Shape(st) && Covered(st, LastGrown(length, end, 0) + 1) && end > length && end <= MaxEnd(length)
    requires st.length == GrownLength(length, end, 0)
    ensures Lacks(st, end) == 0 && Need(st, LastGrown(length, end, 0) + 1) == 0
  {
    LastGrownAgain(length, end);
    CoveredNeedsNothing(st, LastGrown(length, end, 0) + 1);
    if end > st.length {
      CoveredLess(st, LastGrown(length, end, 0) + 1, LastGrown(st.length, end, 0) + 1);
      CoveredNeedsNothing(st, LastGrown(st.length, end, 0) + 1);
    }
  }

  lemma RoomyInside(st: State, end: nat)
    requires Shape(st)
    ensures end <= st.length ==> Lacks(st, end) == 0
  {
  }

  /** Writing data takes no sectors. */
  lemma SameRoom(a: State, b: State, end: nat)
    requires Shape(a) && Shape(b) && a.used == b.used && a.main == b.main && a.length == b.length
    requires forall q: nat :: Lookup(b, q) == Lookup(a, q)
    ensures Margin(b, end) == Margin(a, end) && Lacks(b, end) == Lacks(a, end)
  {
    SameSlack(a, b, LastGrown(a.length, end, 0) + 1);
  }

  lemma SameCover(a: State, b: State, n: nat)
    requires Shape(a) && Shape(b) && Covered(a, n) && forall q: nat :: Lookup(b, q) == Lookup(a, q)
    ensures Covered(b, n)
  {
  }

  lemma LastGrownAgain(length: nat, end: nat)
    requires length <= end
    ensures LastGrown(GrownLength(length, end, 0), end, 0) <= LastGrown(length, end, 0)
  {
  }

  lemma SizedHere(st: State)
    requires Shape(st)
    ensures Sized(st)
  {
  }

  lemma ShapeHere(st: State)
    requires Inv(st)
    ensures Shape(st)
  {
  }

  lemma AllocatedSelf(st: State)
    requires Shape(st)
    ensures Allocated(st, st)
  {
  }

  lemma LookupDirect(st: State, r: nat)
    requires Shape(st) && r <= ACCESS_DIRECT
    ensures Lookup(st, r) == st.main[r]
  {
  }

  lemma LookupIndirect(st: State, r: nat)
    requires Shape(st) && ACCESS_DIRECT < r <= ACCESS_INDIRECT
    ensures var x := st.main[MainIdx(r)];
            if x == SECTOR_ERROR then Lookup(st, r) == SECTOR_ERROR
            else x < |st.disk| && st.disk[x].Index? && |st.disk[x].entries| == INDEX_BLOCK_ENTRIES
                 && Lookup(st, r) == st.disk[x].entries[InnerIdx(r)]
  {
    var x := st.main[MainIdx(r)];
    if x != SECTOR_ERROR {
      assert Owns(st, x, IndexAt(MainIdx(r)));
      assert BlockOk(st, x);
    }
  }

  /** `sector` is a taken sector outside the file. */
  ghost predicate Outside(st: State, sector: nat) {
    sector < |st.disk| && sector < |st.used| && st.used[sector] && sector !in st.owner
  }

  lemma AllocatedKeeps(a: State, b: State, sector: nat)
    requires Inv(a) && Shape(b) && Allocated(a, b) && Outside(a, sector)
    ensures Inv(b) && Outside(b, sector) && b.disk[sector] == a.disk[sector]
  {
  }

  lemma OthersKeepOutside(a: State, b: State, sector: nat)
    requires OthersKept(a, b) && Outside(a, sector)
    ensures Outside(b, sector) && b.disk[sector] == a.disk[sector]
  {
  }

  class Inode {
    const vol: Volume
    const sector: nat
    var length: nat           // inode->data->length
    var main: seq<nat>        // inode->data->index.main_index
    var logicalLength: int    // -1 until first loaded
    var denyWriteCnt: nat
    ghost var owner: map<nat, Role>

    ghost function Here(): State
      reads this, vol
    {
      State(vol.disk, vol.used, main, length, owner)
    }

    /** Holds while the inode is loaded. */
    ghost predicate Loaded()
      reads this, vol
    {
      Inv(Here()) && Outside(Here(), sector)
    }

    /** Holds between operations: the inode's own sector is up to date. */
    ghost predicate Valid()
      reads this, vol
    {
      && Loaded()
      && vol.disk[sector] == Meta(length, main)
      && (logicalLength == -1 || logicalLength == length)
    }

    ghost function File(): (c: seq<Byte>)
      requires Loaded()
      reads this, vol
    {
      Contents(Here())
    }

    /** `inode_open`, with the `inode_load_disk` that follows it. */
    constructor (vol: Volume, sector: nat, ghost owner: map<nat, Role>)
      requires sector < |vol.disk| && vol.disk[sector].Meta?
      requires var st := State(vol.disk, vol.used, vol.disk[sector].main, vol.disk[sector].length, owner);
               Inv(st) && Outside(st, sector)
      ensures Valid() && this.vol == vol && this.sector == sector && this.owner == owner
      ensures vol.disk[sector] == Meta(length, main) && denyWriteCnt == 0 && logicalLength == -1
    {
      this.vol, this.sector, this.owner := vol, sector, owner;
      length, main := vol.disk[sector].length, vol.disk[sector].main;
      logicalLength, denyWriteCnt := -1, 0;
    }

    /** `inode_pos_to_real_sector`, direct and singly indirect branches. */
    method PosToRealSector(pos: nat, allocateNew: bool) returns (s: nat)
      requires Loaded() && pos / SECTOR_SIZE <= ACCESS_INDIRECT
      modifies vol, `main, `owner
      ensures Loaded() && Allocated(old(Here()), Here())
      ensures s == Lookup(Here(), pos / SECTOR_SIZE)
      ensures !allocateNew ==> Here() == old(Here())
      ensures allocateNew && s == SECTOR_ERROR ==> Full(vol.used)
      ensures allocateNew ==> forall n: nat :: pos / SECTOR_SIZE < n ==>
                if s == SECTOR_ERROR then old(Slack(Here(), n)) < 0 else Slack(Here(), n) == old(Slack(Here(), n))
    {
      var r := pos / SECTOR_SIZE;
      if r <= ACCESS_DIRECT {
        s := PosToDirectSector(r, allocateNew);
      } else {
        s := PosToIndirectSector(r, allocateNew);
      }
    }

    method PosToDirectSector(r: nat, allocateNew: bool) returns (s: nat)
      requires Loaded() && r <= ACCESS_DIRECT
      modifies vol, `main, `owner
      ensures Loaded() && Allocated(old(Here()), Here())
      ensures s == Lookup(Here(), r)
      ensures !allocateNew ==> Here() == old(Here())
      ensures allocateNew && s == SECTOR_ERROR ==> Full(vol.used)
      ensures allocateNew ==> forall n: nat :: r < n ==>
                if s == SECTOR_ERROR then old(Slack(Here(), n)) < 0 else Slack(Here(), n) == old(Slack(Here(), n))
    {
      hide Shape, Allocated, Covered, Outside, Lookup, Full, Slack;
      ghost var was := Here();
      SizedHere(was);
      AllocatedSelf(was);
      LookupDirect(was, r);
      if allocateNew && main[r] == SECTOR_ERROR {
        s := vol.AllocateNewBlock();
        if s == SECTOR_ERROR {
          NoneLeft(was, r);
          return;
        }
        main := main[r := s];
        owner := owner[s := DataAt(r)];
        GiveDirectOk(was, r, s);
        SectorGiven(was, Here(), r, s);
        AllocatedKeeps(was, Here(), sector);
      }
      s := main[r];
    }

    method PosToIndirectSector(r: nat, allocateNew: bool) returns (s: nat)
      requires Loaded() && ACCESS_DIRECT < r <= ACCESS_INDIRECT
      modifies vol, `main, `owner
      ensures Loaded() && Allocated(old(Here()), Here())
      ensures s == Lookup(Here(), r)
      ensures !allocateNew ==> Here() == old(Here())
      ensures allocateNew && s == SECTOR_ERROR ==> Full(vol.used)
      ensures allocateNew ==> forall n: nat :: r < n ==>
                if s == SECTOR_ERROR then old(Slack(Here(), n)) < 0 else Slack(Here(), n) == old(Slack(Here(), n))
    {
      hide Shape, Allocated, Covered, Outside, Lookup, Full, Slack;
      var mainIdx := MainIdx(r);
      ghost var was := Here();
      SizedHere(was);
      AllocatedSelf(was);
      LookupIndirect(was, r);
      if allocateNew && main[mainIdx] == SECTOR_ERROR {
        s := vol.AllocateNewIndexInode();
        if s == SECTOR_ERROR {
          NoneLeft(was, r);
          return;
        }
        main := main[mainIdx := s];
        owner := owner[s := IndexAt(mainIdx)];
        GiveIndexOk(was, mainIdx, s);
        IndexGiven(was, Here(), mainIdx, s);
        AllocatedKeeps(was, Here(), sector);
      }
      ghost var mid := Here();
      SizedHere(mid);
      LookupIndirect(mid, r);
      s := main[mainIdx];
      if s == SECTOR_ERROR {
        return;
      }
      // inode_open and inode_load_disk of the index inode
      var indexInode := s;
      var innerIdx := InnerIdx(r);
      if allocateNew && vol.disk[indexInode].entries[innerIdx] == SECTOR_ERROR {
        s := vol.AllocateNewBlock();
        if s == SECTOR_ERROR {
          NoneLeft(mid, r);
          return;
        }
        GiveIndirectOk(mid, r, s);
        vol.disk := vol.disk[indexInode := Index(vol.disk[indexInode].entries[innerIdx := s])];
        owner := owner[s := DataAt(r)];
        SectorGiven(mid, Here(), r, s);
        AllocatedKeeps(mid, Here(), sector);
        AllocatedTransitive(was, mid, Here());
      } else {
        s := vol.disk[indexInode].entries[innerIdx];
      }
    }

    /** `byte_to_sector`. */
    method ByteToSector(pos: nat) returns (s: nat)
      requires Loaded() && length <= SECTOR_SIZE * (ACCESS_INDIRECT + 1)
      modifies vol, `main, `owner
      ensures Loaded() && Here() == old(Here())
      ensures s == SECTOR_ERROR <==> pos >= length
      ensures s != SECTOR_ERROR ==> s == Lookup(Here(), pos / SECTOR_SIZE)
    {
      hide Shape, Allocated, Outside, Lookup, Full;
      s := SECTOR_ERROR;
      if pos < length {
        s := PosToRealSector(pos, false);
        InsideIsCovered(Here(), pos);
      }
    }

    /** The loop of `inode_grow`: asks for the file sectors base + 1 .. base + growLen. */
    method GrowSectors(start: nat, lastSector: nat, growLen: nat) returns (ok: bool)
      requires Loaded() && start <= lastSector && lastSector - start + growLen <= ACCESS_INDIRECT
      requires Covered(Here(), lastSector - start + 1)
      modifies vol, `main, `owner
      ensures Loaded() && Allocated(old(Here()), Here())
      ensures ok ==> Covered(Here(), lastSector - start + growLen + 1)
      ensures !ok ==> Full(vol.used)
      ensures ok <==> old(Slack(Here(), lastSector - start + growLen + 1)) >= 0
      ensures ok ==> Slack(Here(), lastSector - start + growLen + 1) == old(Slack(Here(), lastSector - start + growLen + 1))
    {
      hide Inv, Shape, Covered, Outside, Lookup, Full, At, Allocated, Slack;
      ghost var n := lastSector - start + growLen + 1;
      ghost var was := Here();
      ShapeHere(was);
      AllocatedSelf(was);
      var i := 1;
      while i <= growLen
        invariant 1 <= i <= growLen + 1
        invariant Loaded() && Shape(Here()) && Allocated(was, Here())
        invariant Covered(Here(), lastSector - start + i) && Slack(Here(), n) == Slack(was, n)
      {
        var rel := lastSector + i - start;
        ghost var before := Here();
        assert SECTOR_SIZE * rel / SECTOR_SIZE == rel;
        var s := PosToRealSector(SECTOR_SIZE * rel, true);
        ShapeHere(Here());
        AllocatedTransitive(was, before, Here());
        if s == SECTOR_ERROR {
          return false;
        }
        CoveredNext(before, Here(), lastSector - start + i);
        i := i + 1;
      }
      CoveredNeedsNothing(Here(), n);
      ok := true;
    }

    /** `inode_grow`. */
    method Grow(size: nat, offset: nat) returns (ok: bool)
      requires Loaded()
      requires size > 0 && offset + size >= length && offset + size <= MaxEnd(length)
      modifies vol, `main, `owner, `length
      ensures Loaded() && OthersKept(old(Here()), Here())
      ensures length == if ok then GrownLength(old(length), size, offset) else old(length)
      ensures forall p: nat :: At(Here(), p) == At(old(Here()), p)
      ensures !ok ==> Full(vol.used)
      ensures ok <==> Roomy(old(Here()), offset + size)
      ensures ok ==> Margin(Here(), offset + size) == old(Margin(Here(), offset + size)) && Lacks(Here(), offset + size) == 0
    {
      hide Shape, Covered, Outside, Lookup, Full, At, OthersKept, FreeSectors, Need;
      ghost var was := Here();
      GrowthInReach(length, size, offset);
      if offset + size > RoundUp(length) {
        SizedHere(was);
        var start := main[0];
        var lastSector := start;
        if length > SECTOR_SIZE {
          lastSector := start + DivRoundUp(length, SECTOR_SIZE) - 1;
        }
        var growLenBytes := offset + size - RoundUp(length);
        var growLen := DivRoundUp(growLenBytes, SECTOR_SIZE);
        ghost var base := lastSector - start;
        BaseCovered(was, base);
        ok := GrowSectors(start, lastSector, growLen);
        if !ok {
          return;
        }
        CoveredLess(Here(), base + growLen + 1, SectorsFor(GrownLength(length, size, offset)));
        SetLengthOk(Here(), length + growLenBytes);
        ghost var mid := Here();
        CoveredNeedsNothing(mid, base + growLen + 1);
        length := length + growLenBytes;
        OthersKeptTransitive(was, mid, Here());
        SameCover(mid, Here(), base + growLen + 1);
        RoomyGrown(Here(), was.length, offset + size);
      } else {
        assert SectorsFor(offset + size) <= SectorsFor(length);
        CoveredLess(was, SectorsFor(length), 1);
        CoveredNeedsNothing(was, 1);
        CoveredLess(was, SectorsFor(length), SectorsFor(offset + size));
        SetLengthOk(was, offset + size);
        length := offset + size;
      }
      OthersKeepOutside(was, Here(), sector);
      ok := true;
    }

    /** `inode_load_disk` by the only user of the inode. */
    method LoadDisk()
      requires Valid()
      modifies this
      ensures Valid() && Here() == old(Here()) && logicalLength == length && denyWriteCnt == old(denyWriteCnt)
    {
      length, main := vol.disk[sector].length, vol.disk[sector].main;
      if logicalLength == -1 {
        logicalLength := length;
      }
    }

    /** `inode_release_disk` by the only user of the inode. */
    method ReleaseDisk()
      requires Loaded()
      modifies vol
      ensures Loaded() && (logicalLength == length ==> Valid())
      ensures Here() == old(Here()).(disk := old(vol.disk)[sector := Meta(length, main)])
      ensures forall p: nat :: At(Here(), p) == At(old(Here()), p)
    {
      hide Shape, Covered, Lookup, At;
      ForeignWriteOk(Here(), sector, Meta(length, main));
      vol.disk := vol.disk[sector := Meta(length, main)];
    }

    /** `inode_read_at`. */
    method ReadAt(size: nat, offset: nat) returns (buffer: seq<Byte>)
      requires Valid() && length <= SECTOR_SIZE * (ACCESS_INDIRECT + 1)
      modifies this, vol
      ensures Valid() && File() == old(File()) && denyWriteCnt == old(denyWriteCnt)
      ensures buffer == if offset >= length then []
                        else if offset + size <= length then File()[offset..offset + size] else File()[offset..]
    {
      hide Shape, Covered, Lookup, At, Outside;
      buffer := [];
      if logicalLength == 0 {
        return;
      }
      LoadDisk();
      ghost var was := Here();
      var left, pos := size, offset;
      while left > 0
        invariant Loaded() && Here() == was && logicalLength == length && denyWriteCnt == old(denyWriteCnt)
        invariant pos == offset + |buffer| && 0 <= left == size - |buffer|
        invariant |buffer| > 0 ==> pos <= length
        invariant forall k :: 0 <= k < |buffer| ==> buffer[k] == At(was, offset + k)
        decreases left
      {
        var s := ByteToSector(pos);
        if s == SECTOR_ERROR {
          break;
        }
        var sectorOfs := pos % SECTOR_SIZE;
        var inodeLeft := logicalLength - pos;
        var sectorLeft := SECTOR_SIZE - sectorOfs;
        var minLeft := if inodeLeft < sectorLeft then inodeLeft else sectorLeft;
        var chunk := if left < minLeft then left else minLeft;
        DataSector(was, pos);
        var got := vol.disk[s].bytes[sectorOfs..sectorOfs + chunk];
        forall k | 0 <= k < chunk ensures got[k] == At(was, pos + k) {
          SectorByte(was, pos, k);
        }
        ReadMore(was, offset, buffer, got);
        buffer := buffer + got;
        left := left - chunk;
        pos := pos + chunk;
      }
      ReleaseDisk();
      SameContents(was, Here());
      ReadResult(Here(), offset, size, buffer);
    }

    /**
     `inode_write_at`.  All bytes are written if and only if `WriteReaches` holds and,
     before the call, there are as many free sectors as the file lacks; the file then
     is the old one with the written bytes laid over it, as long as it has to be.
     */
    method WriteAt(buffer: seq<Byte>, offset: nat) returns (written: nat)
      requires Valid() && length <= SECTOR_SIZE * (ACCESS_INDIRECT + 1)
      requires offset + |buffer| <= MaxEnd(length)
      modifies this, vol
      ensures Valid() && OthersKept(old(Here()).(disk := old(vol.disk)[sector := vol.disk[sector]]), Here())
      ensures written <= |buffer|
      ensures length <= SECTOR_SIZE * (ACCESS_INDIRECT + 1)
      ensures forall p :: 0 <= p < length ==> File()[p] == Overlaid(old(File()), offset, buffer[..written], p)
      ensures denyWriteCnt > 0 ==> written == 0 && File() == old(File())
      ensures denyWriteCnt == old(denyWriteCnt)
      ensures denyWriteCnt == 0 && written == |buffer| > 0 ==>
                length == if offset + |buffer| > old(length) then offset + |buffer| else old(length)
      ensures denyWriteCnt == 0 && |buffer| > 0 && WriteReaches(old(length), |buffer|, offset) ==>
                (written == |buffer| <==> old(Roomy(Here(), offset + |buffer|)))
      ensures denyWriteCnt == 0 && |buffer| > 0 && !old(Roomy(Here(), offset + |buffer|)) ==>
                Full(vol.used) && length == old(length) && written == if offset < length then length - offset else 0
      ensures denyWriteCnt == 0 && |buffer| > 0 && old(Roomy(Here(), offset + |buffer|)) ==>
                |FreeSectors(vol.used)| == |FreeSectors(old(vol.used))| - old(Lacks(Here(), offset + |buffer|))
      ensures denyWriteCnt == 0 && !WriteReaches(old(length), |buffer|, offset) ==>
                && written == 0
                && length == if old(Roomy(Here(), offset + |buffer|)) then offset + |buffer| - Padding(old(length)) else old(length)
    {
      hide Shape, Covered, Lookup, At, Outside, Full, OthersKept, RoundUp, Padding, GrownLength, Lacks, FreeSectors;
      LoadDisk();
      ghost var was := Here();
      written := 0;
      OthersKeptSelf(was);
      RoomyInside(was, offset + |buffer|);
      while written < |buffer| && denyWriteCnt == 0
        invariant Loaded() && logicalLength == length && OthersKept(was, Here()) && denyWriteCnt == old(denyWriteCnt)
        invariant written <= |buffer|
        invariant length <= SECTOR_SIZE * (ACCESS_INDIRECT + 1)
        invariant was.length <= length
        invariant length == was.length || length <= offset + |buffer|
        invariant if written == 0 then length == was.length else offset + written <= length
        invariant denyWriteCnt > 0 ==> written == 0
        invariant written > 0 ==> WriteReaches(was.length, |buffer|, offset)
        invariant Margin(Here(), offset + |buffer|) == Margin(was, offset + |buffer|)
        invariant !Roomy(was, offset + |buffer|) ==> length == was.length
        invariant forall p: nat :: At(Here(), p) == Laid(was, offset, buffer[..written], p)
        decreases |buffer| - written
      {
        ghost var before := Here();
        GrowthBounds(length, |buffer| - written, offset + written);
        var n := WriteStep(offset + written, buffer[written..]);
        OthersKeptTransitive(was, before, Here());
        LaidMore(was, before, Here(), offset, buffer, written, n);
        if n == 0 {
          assert buffer[..written + n] == buffer[..written];
          break;
        }
        written := written + n;
      }
      ghost var done := Here();
      RoomyInside(done, offset + |buffer|);
      OthersKeepOutside(was, done, sector);
      OutsideInRange(done, sector);
      ReleaseDisk();
      WriteFrame(was, done, Here(), sector);
      WriteResult(was, Here(), offset, buffer[..written]);
    }

    /**
     One iteration of the loop of `inode_write_at`: writes the first `n` bytes of
     `rest` at `pos`.  The caller's loop ends when `n` is 0.
     */
    method WriteStep(pos: nat, rest: seq<Byte>) returns (n: nat)
      requires Loaded() && logicalLength == length && length <= SECTOR_SIZE * (ACCESS_INDIRECT + 1)
      requires rest != [] && pos + |rest| <= MaxEnd(length)
      modifies vol, `main, `owner, `length, `logicalLength
      ensures Loaded() && logicalLength == length && OthersKept(old(Here()), Here())
      ensures n <= |rest|
      ensures forall p: nat :: At(Here(), p) == Laid(old(Here()), pos, rest[..n], p)
      ensures pos < old(length) ==> length == old(length) && n > 0 && pos + n <= length
      ensures pos >= old(length) ==>
                if !old(Roomy(Here(), pos + |rest|)) then n == 0 && length == old(length) && Full(vol.used)
                else && length == GrownLength(old(length), |rest|, pos)
                     && if pos < length then n > 0 && pos + n <= length else n == 0
      ensures pos < old(length) || old(Roomy(Here(), pos + |rest|)) ==> Margin(Here(), pos + |rest|) == old(Margin(Here(), pos + |rest|))
      ensures pos >= old(length) && old(Roomy(Here(), pos + |rest|)) ==> Lacks(Here(), pos + |rest|) == 0
    {
      hide Shape, Covered, Lookup, At, Outside, Full, OthersKept, RoundUp, Margin, Lacks;
      ghost var was := Here();
      OthersKeptSelf(was);
      var size := |rest|;
      n := 0;
      var s := ByteToSector(pos);
      var isGrowing := false;
      if s == SECTOR_ERROR {
        GrowthBounds(length, size, pos);
        isGrowing := Grow(size, pos);
        if !isGrowing {
          return;
        }
        s := ByteToSector(pos);
      }
      ghost var before := Here();
      var sectorOfs := pos % SECTOR_SIZE;
      var inodeLeft := length - pos;
      var sectorLeft := SECTOR_SIZE - sectorOfs;
      var minLeft := if inodeLeft < sectorLeft then inodeLeft else sectorLeft;
      var chunk := if size < minLeft then size else minLeft;
      if chunk > 0 {
        n := chunk;
        var d := rest[..n];
        WriteBlockOk(before, pos, d);
        vol.disk := vol.disk[s := Data(Spliced(vol.disk[s].bytes, sectorOfs, d))];
        OthersKeptTransitive(was, before, Here());
        OthersKeepOutside(was, Here(), sector);
        SameRoom(before, Here(), pos + size);
      }
      if isGrowing {
        logicalLength := length;
      }
    }
  }

  /** Two inodes of one volume that share no sector. */
  ghost predicate Apart(a: Inode, b: Inode)
    reads a, b
  {
    && a.vol == b.vol && a.sector != b.sector && a.sector !in b.owner && b.sector !in a.owner
    && forall s | s in a.owner :: s !in b.owner
  }

  /** What `WriteAt` promises about one inode leaves every other inode of the volume as it was. */
  twostate lemma OtherFilesKept(mine: Inode, theirs: Inode)
    requires old(mine.Valid()) && old(theirs.Valid()) && old(Apart(mine, theirs))
    requires theirs.length == old(theirs.length) && theirs.main == old(theirs.main) && theirs.owner == old(theirs.owner)
    requires theirs.logicalLength == old(theirs.logicalLength)
    requires mine.sector < |mine.vol.disk|
    requires OthersKept(old(mine.Here()).(disk := old(mine.vol.disk)[mine.sector := mine.vol.disk[mine.sector]]), mine.Here())
    ensures theirs.Valid() && theirs.File() == old(theirs.File()) && Apart(mine, theirs)
  {
    OwnSectorsOnly(old(theirs.Here()), theirs.Here());
  }

  /** The state of the inode stored in `sector`, whose sectors are those of `owner`. */
  ghost function Stored(vol: Volume, sector: nat, owner: map<nat, Role>): State
    reads vol
    requires sector < |vol.disk| && vol.disk[sector].Meta?
  {
    State(vol.disk, vol.used, vol.disk[sector].main, vol.disk[sector].length, owner)
  }

  /** The file just created, before it is grown: one zeroed sector. */
  lemma NewFileOk(disk: seq<Block>, used: seq<bool>, sector: nat, s: nat, main: seq<nat>, length: nat)
    requires |disk| == |used| <= SECTOR_ERROR && sector < |disk| && used[sector]
    requires s < |disk| && s != sector && used[s] && disk[s] == Data(Zeros(SECTOR_SIZE))
    requires main == [s] + seq(INDEX_MAIN_ENTRIES - 1, _ => SECTOR_ERROR) && length <= SECTOR_SIZE
    ensures var st := State(disk, used, main, length, map[s := DataAt(0)]);
            && Inv(st) && Outside(st, sector) && (forall p: nat :: At(st, p) == 0)
            && (forall q: nat :: Lookup(st, q) == if q == 0 then s else SECTOR_ERROR)
  {
    var st := State(disk, used, main, length, map[s := DataAt(0)]);
    assert BlockOk(st, s);
    assert Shape(st);
    LookupDirect(st, 0);
    assert SectorsFor(length) == 1;
    forall p: nat ensures At(st, p) == 0 {
      if p / SECTOR_SIZE != 0 {
        assert Lookup(st, p / SECTOR_SIZE) == SECTOR_ERROR;
      }
    }
  }

  lemma ZeroFile(st: State, n: nat)
    requires Shape(st) && st.length == n && forall p: nat :: At(st, p) == 0
    ensures Contents(st) == Zeros(n)
  {
  }

  /**
   `inode_create` for a file: `sector` will hold the inode.  The new file reads as
   `length` zeros.  It succeeds if and only if the sectors it takes are free.
   */
  method CreateInode(vol: Volume, sector: nat, length: nat) returns (ok: bool, ghost owner: map<nat, Role>)
    requires |vol.disk| == |vol.used| <= SECTOR_ERROR && sector < |vol.disk| && vol.used[sector]
    requires length <= SECTOR_SIZE * (ACCESS_INDIRECT + 1)
    modifies vol
    ensures ok ==> && |vol.disk| == old(|vol.disk|) && vol.disk[sector].Meta?
                   && var st := Stored(vol, sector, owner);
                   && Inv(st) && Outside(st, sector) && Contents(st) == Zeros(length)
    ensures ok <==> |FreeSectors(old(vol.used))| >= SectorsTaken(length)
    ensures !ok ==> Full(vol.used)
    ensures forall s :: 0 <= s < old(|vol.disk|) && old(vol.used)[s] && s != sector ==>
              s < |vol.disk| && vol.disk[s] == old(vol.disk)[s]
  {
    hide Shape, Covered, Lookup, At, Outside, Full, Slack, SectorsTaken, FreeSectors, Contents, Roomy;
    ghost var was := vol.used;
    owner := map[];
    var startBlock := vol.AllocateNewBlock();
    if startBlock == SECTOR_ERROR {
      NoSectorFree(was, length);
      return false, owner;
    }
    Taken(was, startBlock);
    var main := [startBlock] + seq(INDEX_MAIN_ENTRIES - 1, _ => SECTOR_ERROR);
    var firstLength := if length >= SECTOR_SIZE then SECTOR_SIZE else length;
    owner := map[startBlock := DataAt(0)];
    vol.disk := vol.disk[sector := Meta(firstLength, main)];
    NewFileOk(vol.disk, vol.used, sector, startBlock, main, firstLength);
    ok := true;
    ghost var used, disk := vol.used, vol.disk;
    forall s | 0 <= s < |was| && was[s] && s != sector ensures s < |disk| && used[s] && s !in owner && disk[s] == old(vol.disk)[s] {
      assert s != startBlock;
    }
    if length > SECTOR_SIZE {
      ok, owner := GrowNew(vol, sector, owner, length);
    }
    OneSectorTaken(length);
    if ok {
      ZeroFile(Stored(vol, sector, owner), length);
    }
  }

  /** `inode_create` of more than one sector: the inode of one sector, as it is on disk, grows. */
  method GrowNew(vol: Volume, sector: nat, ghost owner: map<nat, Role>, length: nat) returns (ok: bool, ghost owner': map<nat, Role>)
    requires |vol.disk| == |vol.used| && sector < |vol.disk| && vol.disk[sector].Meta?
    requires SECTOR_SIZE < length <= SECTOR_SIZE * (ACCESS_INDIRECT + 1)
    requires var st := Stored(vol, sector, owner);
             && Inv(st) && Outside(st, sector) && st.length == SECTOR_SIZE && (forall p: nat :: At(st, p) == 0)
             && (forall q: nat :: (Lookup(st, q) == SECTOR_ERROR) == (q != 0))
             && forall m :: DIRECT_BLOCKS <= m < DIRECT_BLOCKS + INDIRECT_BLOCKS ==> st.main[m] == SECTOR_ERROR
    modifies vol
    ensures ok ==> && |vol.disk| == old(|vol.disk|) && vol.disk[sector].Meta?
                   && var st := Stored(vol, sector, owner');
                      Inv(st) && Outside(st, sector) && st.length == length && forall p: nat :: At(st, p) == 0
    ensures ok <==> |FreeSectors(old(vol.used))| + 1 >= SectorsTaken(length)
    ensures !ok ==> Full(vol.used)
    ensures forall s :: 0 <= s < old(|vol.disk|) && old(vol.used)[s] && s != sector && s !in owner ==>
              s < |vol.disk| && vol.disk[s] == old(vol.disk)[s]
  {
    hide Shape, Covered, Lookup, At, Outside, Full, Slack, SectorsTaken, FreeSectors, Contents, Roomy;
    var inode := new Inode(vol, sector, owner);
    inode.LoadDisk();
    RoomToCreate(inode.Here(), |FreeSectors(vol.used)| + 1, length);
    ok := inode.Grow(length, 0);
    ghost var done := inode.Here();
    OutsideInRange(done, sector);
    inode.ReleaseDisk();
    owner' := inode.owner;
  }

  lemma NoSectorFree(used: seq<bool>, length: nat)
    requires Full(used)
    ensures |FreeSectors(used)| < SectorsTaken(length)
  {
    assert FreeSectors(used) == {};
  }

  lemma OneSectorTaken(length: nat)
    ensures length <= SECTOR_SIZE ==> SectorsTaken(length) == 1
  {
  }

  /** For the file just created, what `inode_grow` needs is what the whole file takes less its first sector. */
  lemma RoomToCreate(st: State, free: nat, length: nat)
    requires Shape(st) && st.length == SECTOR_SIZE < length <= SECTOR_SIZE * (ACCESS_INDIRECT + 1)
    requires |FreeSectors(st.used)| == free - 1
    requires forall q: nat :: (Lookup(st, q) == SECTOR_ERROR) == (q != 0)
    requires forall m :: DIRECT_BLOCKS <= m < DIRECT_BLOCKS + INDIRECT_BLOCKS ==> st.main[m] == SECTOR_ERROR
    ensures Roomy(st, length) <==> free >= SectorsTaken(length)
  {
    hide Shape, Lookup;
    NewFileNeeds(st, SectorsFor(length));
  }

  /** The exception is real: one byte at 600 of a one-byte file is not written. */
  lemma ShortWritePastEnd()
    ensures !WriteReaches(1, 1, 600) && GrownLength(1, 1, 600) == 90
  {
  }

  lemma GrowthBounds(length: nat, size: nat, offset: nat)
    requires size > 0 && offset + size <= MaxEnd(length)
    ensures offset >= length ==> length <= GrownLength(length, size, offset) <= offset + size
    ensures offset == length ==> GrownLength(length, size, offset) > length
    ensures offset >= length ==>
              (WriteReaches(length, size, offset) <==> GrownLength(length, size, offset) > offset)
    ensures !WriteReaches(length, size, offset) ==> GrownLength(length, size, offset) == offset + size - Padding(length)
  {
  }

  lemma OutsideInRange(st: State, sector: nat)
    requires Outside(st, sector)
    ensures sector < |st.disk|
  {
  }

  /** `Overlaid`, in terms of the state before. */
  ghost function Laid(st: State, offset: nat, d: seq<Byte>, p: nat): Byte
    requires Shape(st)
  {
    if offset <= p < offset + |d| then d[p - offset] else At(st, p)
  }

  lemma OthersKeptSelf(st: State)
    requires Shape(st)
    ensures OthersKept(st, st)
  {
  }

  lemma LaidMore(was: State, before: State, after: State, offset: nat, buffer: seq<Byte>, w: nat, chunk: nat)
    requires Shape(was) && Shape(before) && Shape(after) && w + chunk <= |buffer|
    requires forall p: nat :: At(before, p) == Laid(was, offset, buffer[..w], p)
    requires forall p: nat :: At(after, p) == Laid(before, offset + w, buffer[w..][..chunk], p)
    ensures forall p: nat :: At(after, p) == Laid(was, offset, buffer[..w + chunk], p)
  {
    hide At, Shape;
    forall p: nat ensures At(after, p) == Laid(was, offset, buffer[..w + chunk], p) {
      assert At(before, p) == Laid(was, offset, buffer[..w], p);
      assert At(after, p) == Laid(before, offset + w, buffer[w..][..chunk], p);
    }
  }

  /** The inode's own sector is the only foreign sector a write may touch. */
  lemma WriteFrame(was: State, done: State, end: State, sector: nat)
    requires OthersKept(was, done) && Outside(was, sector) && sector < |end.disk|
    requires end == done.(disk := done.disk[sector := end.disk[sector]])
    ensures OthersKept(was.(disk := was.disk[sector := end.disk[sector]]), end)
  {
  }

  lemma WriteResult(was: State, end: State, offset: nat, d: seq<Byte>)
    requires Shape(was) && Shape(end)
    requires forall p: nat :: At(end, p) == Laid(was, offset, d, p)
    ensures forall p :: 0 <= p < end.length ==> Contents(end)[p] == Overlaid(Contents(was), offset, d, p)
  {
    forall p | 0 <= p < end.length ensures Contents(end)[p] == Overlaid(Contents(was), offset, d, p) {
      assert At(end, p) == Laid(was, offset, d, p);
      if p >= was.length { ZeroPastEnd(was, p); }
    }
  }

  lemma DataSector(st: State, pos: nat)
    requires Shape(st) && Lookup(st, pos / SECTOR_SIZE) != SECTOR_ERROR
    ensures var s := Lookup(st, pos / SECTOR_SIZE);
            s < |st.disk| && st.disk[s].Data? && |st.disk[s].bytes| == SECTOR_SIZE
  {
    LookupOwned(st, pos / SECTOR_SIZE);
  }

  lemma SectorByte(st: State, pos: nat, k: nat)
    requires Shape(st) && Lookup(st, pos / SECTOR_SIZE) != SECTOR_ERROR && pos % SECTOR_SIZE + k < SECTOR_SIZE
    ensures var s := Lookup(st, pos / SECTOR_SIZE);
            && s < |st.disk| && st.disk[s].Data? && |st.disk[s].bytes| == SECTOR_SIZE
            && At(st, pos + k) == st.disk[s].bytes[pos % SECTOR_SIZE + k]
  {
    LookupOwned(st, pos / SECTOR_SIZE);
    assert (pos + k) / SECTOR_SIZE == pos / SECTOR_SIZE && (pos + k) % SECTOR_SIZE == pos % SECTOR_SIZE + k;
  }

  lemma ReadMore(st: State, offset: nat, buffer: seq<Byte>, got: seq<Byte>)
    requires Shape(st)
    requires forall k :: 0 <= k < |buffer| ==> buffer[k] == At(st, offset + k)
    requires forall k :: 0 <= k < |got| ==> got[k] == At(st, offset + |buffer| + k)
    ensures forall k :: 0 <= k < |buffer + got| ==> (buffer + got)[k] == At(st, offset + k)
  {
    forall k | 0 <= k < |buffer + got| ensures (buffer + got)[k] == At(st, offset + k) {
      if k >= |buffer| {
        assert (buffer + got)[k] == got[k - |buffer|];
      }
    }
  }

  lemma SameContents(a: State, b: State)
    requires Shape(a) && Shape(b) && a.length == b.length
    requires forall p: nat :: At(b, p) == At(a, p)
    ensures Contents(a) == Contents(b)
  {
  }

  lemma ReadResult(st: State, offset: nat, size: nat, buffer: seq<Byte>)
    requires Shape(st)
    requires forall k :: 0 <= k < |buffer| ==> buffer[k] == At(st, offset + k)
    requires |buffer| == if offset >= st.length then 0 else if offset + size <= st.length then size else st.length - offset
    ensures buffer == if offset >= st.length then []
                      else if offset + size <= st.length then Contents(st)[offset..offset + size]
                      else Contents(st)[offset..]
  {
  }

  lemma InsideIsCovered(st: State, pos: nat)
    requires Inv(st) && pos < st.length
    ensures Lookup(st, pos / SECTOR_SIZE) != SECTOR_ERROR
  {
    assert pos / SECTOR_SIZE < SectorsFor(st.length);
  }

  lemma BaseCovered(st: State, base: nat)
    requires Inv(st)
    requires base == if st.length <= SECTOR_SIZE then 0 else DivRoundUp(st.length, SECTOR_SIZE) - 1
    ensures Covered(st, base + 1)
  {
  }

  lemma CoveredNext(a: State, b: State, n: nat)
    requires Shape(a) && Shape(b) && Allocated(a, b) && Covered(a, n) && Lookup(b, n) != SECTOR_ERROR
    ensures Covered(b, n + 1)
  {
  }

  lemma CoveredLess(st: State, n: nat, m: nat)
    requires Shape(st) && Covered(st, n) && m <= n
    ensures Covered(st, m)
  {
  }
}
