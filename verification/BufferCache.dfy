/**
 The buffer cache (filesys/cache.c), used by one thread at a time: 64 entries
 with write-back and second-chance replacement.  `View` is the flat disk that
 the cache and the device together stand for.
 */
module BufferCache {
  import opened Sequences

  const MAX_CACHE_SECTORS: nat := 64
  const EMPTY_SECTOR: nat := 0xFFFF_FFFF

  datatype Entry = Entry(sector: nat, data: seq<Byte>, secondChance: bool, dirty: bool, readers: nat, locked: bool)

  // ----- The state and what it stands for

  ghost predicate Sized(cache: seq<Entry>, device: seq<seq<Byte>>) {
    && |cache| == MAX_CACHE_SECTORS && |device| <= EMPTY_SECTOR
    && (forall s :: 0 <= s < |device| ==> |device[s]| == SECTOR_SIZE)
    && (forall i :: 0 <= i < |cache| ==> |cache[i].data| == SECTOR_SIZE)
    && (forall i :: 0 <= i < |cache| ==> cache[i].sector == EMPTY_SECTOR || cache[i].sector < |device|)
  }

  /** At most one entry holds a sector. */
  ghost predicate Distinct(cache: seq<Entry>) {
    forall i, j :: 0 <= i < j < |cache| && cache[i].sector == cache[j].sector ==> cache[i].sector == EMPTY_SECTOR
  }

  /** Clean entries equal the device. */
  ghost predicate CleanOk(cache: seq<Entry>, device: seq<seq<Byte>>)
    requires Sized(cache, device)
  {
    forall i :: 0 <= i < |cache| && !cache[i].dirty && cache[i].sector != EMPTY_SECTOR ==>
      cache[i].data == device[cache[i].sector]
  }

  ghost predicate Inv(cache: seq<Entry>, device: seq<seq<Byte>>) {
    Sized(cache, device) && Distinct(cache) && CleanOk(cache, device)
  }

  /** Nobody else uses the cache. */
  ghost predicate Quiet(cache: seq<Entry>) {
    forall i :: 0 <= i < |cache| ==> cache[i].readers == 0 && !cache[i].locked
  }

  /** The first entry of sector `s` from `from` on, or -1. */
  ghost function Find(cache: seq<Entry>, s: nat, from: nat): (i: int)
    requires from <= |cache|
    ensures i == -1 || (from <= i < |cache| && cache[i].sector == s)
    ensures i == -1 ==> forall j :: from <= j < |cache| ==> cache[j].sector != s
    decreases |cache| - from
  {
    if from == |cache| then -1 else if cache[from].sector == s then from else Find(cache, s, from + 1)
  }

  ghost function SectorView(cache: seq<Entry>, device: seq<seq<Byte>>, s: nat): seq<Byte>
    requires s < |device|
  {
    var i := Find(cache, s, 0);
    if i == -1 then device[s] else cache[i].data
  }

  /** The disk as its users see it. */
  ghost function View(cache: seq<Entry>, device: seq<seq<Byte>>): (v: seq<seq<Byte>>)
    ensures |v| == |device|
  {
    seq(|device|, s requires 0 <= s < |device| => SectorView(cache, device, s))
  }

  lemma ViewOfEntry(cache: seq<Entry>, device: seq<seq<Byte>>, i: nat)
    requires Inv(cache, device) && i < |cache| && cache[i].sector != EMPTY_SECTOR
    ensures cache[i].sector < |device| && View(cache, device)[cache[i].sector] == cache[i].data
  {
    var s := cache[i].sector;
    var k := Find(cache, s, 0);
    assert k == i;
  }

  /** Two states that agree on what is cached where, and on the device elsewhere, look alike. */
  lemma SameView(a: seq<Entry>, da: seq<seq<Byte>>, b: seq<Entry>, db: seq<seq<Byte>>, s: nat)
    requires Inv(a, da) && Inv(b, db) && |da| == |db| && s < |da|
    requires forall i :: 0 <= i < |a| && a[i].sector == s ==> b[i].sector == s && b[i].data == a[i].data
    requires (forall i :: 0 <= i < |a| ==> a[i].sector != s) ==>
               (forall i :: 0 <= i < |b| && b[i].sector == s ==> b[i].data == da[s])
               && ((forall i :: 0 <= i < |b| ==> b[i].sector != s) ==> db[s] == da[s])
    ensures View(b, db)[s] == View(a, da)[s]
  {
    var i := Find(a, s, 0);
    if i >= 0 {
      ViewOfEntry(b, db, i);
    } else {
      var j := Find(b, s, 0);
      if j >= 0 { ViewOfEntry(b, db, j); }
    }
  }

  // ----- State changes

  /** Writing entry `i` back to the device. */
  lemma FlushOk(cache: seq<Entry>, device: seq<seq<Byte>>, i: nat)
    requires Inv(cache, device) && i < |cache| && cache[i].sector != EMPTY_SECTOR
    ensures cache[i].sector < |device|
    ensures var cache', device' := cache[i := cache[i].(dirty := false)], device[cache[i].sector := cache[i].data];
            Inv(cache', device') && View(cache', device') == View(cache, device)
  {
    var cache', device' := cache[i := cache[i].(dirty := false)], device[cache[i].sector := cache[i].data];
    assert Inv(cache', device');
    forall s | 0 <= s < |device| ensures View(cache', device')[s] == View(cache, device)[s] {
      SameView(cache, device, cache', device', s);
    }
  }

  lemma ChanceOk(cache: seq<Entry>, device: seq<seq<Byte>>, cache': seq<Entry>)
    requires Inv(cache, device) && |cache'| == |cache|
    requires forall i :: 0 <= i < |cache| ==> cache'[i] == cache[i].(secondChance := cache'[i].secondChance)
    ensures Inv(cache', device) && View(cache', device) == View(cache, device)
  {
    forall s | 0 <= s < |device| ensures View(cache', device)[s] == View(cache, device)[s] {
      SameView(cache, device, cache', device, s);
    }
  }

  /** Reusing the clean entry `i` for the uncached sector `s`, loaded from the device. */
  lemma LoadOk(cache: seq<Entry>, device: seq<seq<Byte>>, i: nat, s: nat, e: Entry)
    requires Inv(cache, device) && i < |cache| && s < |device|
    requires cache[i].sector == EMPTY_SECTOR || !cache[i].dirty
    requires forall j :: 0 <= j < |cache| ==> cache[j].sector != s
    requires e.sector == s && e.data == device[s] && !e.dirty
    ensures Inv(cache[i := e], device) && View(cache[i := e], device) == View(cache, device)
  {
    var cache' := cache[i := e];
    forall t | 0 <= t < |device| ensures View(cache', device)[t] == View(cache, device)[t] {
      if t == cache[i].sector {
        ViewOfEntry(cache, device, i);
        var k := Find(cache', t, 0);
        assert k == -1;
      } else {
        SameView(cache, device, cache', device, t);
      }
    }
  }

  /** Changing the bytes of the cached sector `s`. */
  lemma DirtyOk(cache: seq<Entry>, device: seq<seq<Byte>>, i: nat, e: Entry)
    requires Inv(cache, device) && i < |cache| && cache[i].sector != EMPTY_SECTOR
    requires e.sector == cache[i].sector && e.dirty && |e.data| == SECTOR_SIZE
    ensures e.sector < |device| && Inv(cache[i := e], device)
    ensures View(cache[i := e], device) == View(cache, device)[e.sector := e.data]
  {
    var cache' := cache[i := e];
    forall t | 0 <= t < |device| ensures View(cache', device)[t] == View(cache, device)[e.sector := e.data][t] {
      if t == e.sector {
        ViewOfEntry(cache', device, i);
      } else {
        SameView(cache, device, cache', device, t);
      }
    }
  }

  lemma DropOk(cache: seq<Entry>, device: seq<seq<Byte>>, i: nat)
    requires Inv(cache, device) && i < |cache| && cache[i].sector != EMPTY_SECTOR
    ensures cache[i].sector < |device|
    ensures var cache' := cache[i := cache[i].(sector := EMPTY_SECTOR)];
            Inv(cache', device) && View(cache', device) == View(cache, device)[cache[i].sector := device[cache[i].sector]]
  {
    var cache' := cache[i := cache[i].(sector := EMPTY_SECTOR)];
    var s := cache[i].sector;
    forall t | 0 <= t < |device| ensures View(cache', device)[t] == View(cache, device)[s := device[s]][t] {
      if t == s {
        var k := Find(cache', t, 0);
        assert k == -1;
      } else {
        SameView(cache, device, cache', device, t);
      }
    }
  }

  lemma Uncached(cache: seq<Entry>, device: seq<seq<Byte>>, s: nat)
    requires s < |device| && forall j :: 0 <= j < |cache| ==> cache[j].sector != s
    ensures View(cache, device)[s] == device[s]
  {
  }

  /** Nobody uses the entry just now. */
  predicate Eligible(e: Entry) { e.readers == 0 && !e.locked }

  /** Empty entries and those that have had their second chance go first, then clean ones, then dirty ones. */
  function Rank(e: Entry): nat {
    if e.sector == EMPTY_SECTOR || e.secondChance then 0 else if !e.dirty then 1 else 2
  }

  /** Entry `k` has been passed, in the sweep in which its second chance begins, when the scan is at `i` in sweep `round`. */
  predicate GetsChance(e: Entry, k: nat, round: nat, i: nat) {
    Eligible(e) && Rank(e) > 0 && (Rank(e) - 1 < round || (Rank(e) - 1 == round && k < i))
  }

  class Cache {
    var cache: seq<Entry>
    var device: seq<seq<Byte>>

    ghost predicate Valid()
      reads this
    {
      Inv(cache, device)
    }

    ghost function Disk(): (v: seq<seq<Byte>>)
      reads this
      ensures |v| == |device|
    {
      View(cache, device)
    }

    /** `bc_init` over a device. */
    constructor (device: seq<seq<Byte>>)
      requires |device| <= EMPTY_SECTOR && forall s :: 0 <= s < |device| ==> |device[s]| == SECTOR_SIZE
      ensures Valid() && Quiet(cache) && Disk() == device
    {
      this.device := device;
      cache := seq(MAX_CACHE_SECTORS, _ => Entry(EMPTY_SECTOR, seq(SECTOR_SIZE, _ => 0), false, false, 0, false));
      new;
      forall s | 0 <= s < |device| ensures Disk()[s] == device[s] {
        assert Find(cache, s, 0) == -1;
      }
    }

    /**
     `bc_get_free_entry`: the second-chance scan.  Whatever the other entries are doing,
     one entry `c` without readers and with a free lock is enough for it to end
     before its third sweep does.  The victim is the first such entry of the lowest
     rank there is, found in the sweep of that number; on its way the scan gives a
     second chance to exactly the entries it passes in the sweep before theirs.
     */
    method GetFreeEntry(ghost c: nat) returns (v: nat, ghost round: nat)
      requires Valid() && c < |cache| && Eligible(cache[c])
      modifies this
      ensures Valid() && Disk() == old(Disk()) && |device| == |old(device)|
      ensures v < |cache| && Eligible(old(cache)[v]) && round == Rank(old(cache)[v]) < 3
      ensures forall k :: 0 <= k < |cache| && Eligible(old(cache)[k]) ==>
                Rank(old(cache)[k]) > round || (Rank(old(cache)[k]) == round && k >= v)
      ensures forall k :: 0 <= k < |cache| ==>
                cache[k] == old(cache)[k].(secondChance := old(cache)[k].secondChance || GetsChance(old(cache)[k], k, round, v),
                                           dirty := old(cache)[k].dirty && (k != v || cache[v].sector == EMPTY_SECTOR))
    {
      hide View, Distinct, CleanOk;
      var i := 0;
      var rounds := 0;
      while i < MAX_CACHE_SECTORS
        invariant |cache| == MAX_CACHE_SECTORS && 0 <= i < MAX_CACHE_SECTORS && rounds >= 0 && device == old(device)
        invariant forall k :: 0 <= k < |cache| ==>
                    cache[k] == old(cache)[k].(secondChance := old(cache)[k].secondChance || GetsChance(old(cache)[k], k, rounds, i))
        invariant forall k :: 0 <= k < |cache| && Eligible(old(cache)[k]) ==>
                    Rank(old(cache)[k]) > rounds || (Rank(old(cache)[k]) == rounds && k >= i)
        decreases 2 * MAX_CACHE_SECTORS + c - (MAX_CACHE_SECTORS * rounds + i)
      {
        if !cache[i].locked {
          if cache[i].readers == 0 {
            if cache[i].sector == EMPTY_SECTOR || cache[i].secondChance {
              break;
            } else if !cache[i].dirty || rounds > 0 {
              cache := cache[i := cache[i].(secondChance := true)];
            }
          }
        }
        if i == MAX_CACHE_SECTORS - 1 {
          i := 0;
          rounds := rounds + 1;
        } else {
          i := i + 1;
        }
      }
      v, round := i, rounds;
      ChanceOk(old(cache), device, cache);
      if cache[v].sector != EMPTY_SECTOR && cache[v].dirty {
        Flush(v);
      }
    }

    /** `bc_get_entry_by_sector`: the one entry that holds `sector`, or -1. */
    method EntryBySector(sector: nat) returns (r: int)
      requires Valid()
      ensures r == Find(cache, sector, 0)
      ensures r == -1 || (0 <= r < |cache| && cache[r].sector == sector)
      ensures r == -1 <==> forall j :: 0 <= j < |cache| ==> cache[j].sector != sector
    {
      for i := 0 to MAX_CACHE_SECTORS
        invariant Find(cache, sector, 0) == Find(cache, sector, i)
      {
        if cache[i].sector == sector {
          return i;
        }
      }
      return -1;
    }

    /** `bc_flush`. */
    method Flush(i: nat)
      requires Valid() && i < |cache| && cache[i].sector != EMPTY_SECTOR
      modifies this
      ensures Valid() && Disk() == old(Disk()) && cache[i].sector < |device| == |old(device)|
      ensures cache == old(cache)[i := old(cache)[i].(dirty := false)]
      ensures device == old(device)[cache[i].sector := cache[i].data]
    {
      FlushOk(cache, device, i);
      device := device[cache[i].sector := cache[i].data];
      cache := cache[i := cache[i].(dirty := false)];
    }

    /**
     `bc_get_and_lock_entry` together with the read from the device that its callers
     make on a miss: afterwards entry `i` holds `sector`.
     */
    method GetEntry(sector: nat) returns (i: nat)
      requires Valid() && Quiet(cache) && sector < |device|
      modifies this
      ensures Valid() && Quiet(cache) && Disk() == old(Disk()) && |device| == |old(device)|
      ensures i < |cache| && cache[i].sector == sector
      ensures (exists j :: 0 <= j < |old(cache)| && old(cache)[j].sector == sector) ==> cache == old(cache) && device == old(device)
    {
      hide View;
      var hit := EntryBySector(sector);
      if hit == -1 {
        ghost var round;
        i, round := GetFreeEntry(0);
        var e := cache[i].(sector := sector, dirty := false, data := device[sector]);
        LoadOk(cache, device, i, sector, e);
        cache := cache[i := e];
      } else {
        i := hit;
      }
    }

    /** `bc_block_read`. */
    method BlockRead(sector: nat, ofs: nat, size: nat) returns (buffer: seq<Byte>)
      requires Valid() && Quiet(cache) && sector < |device| && ofs + size <= SECTOR_SIZE
      modifies this
      ensures Valid() && Quiet(cache) && Disk() == old(Disk()) && |device| == |old(device)|
      ensures |Disk()[sector]| == SECTOR_SIZE && buffer == Disk()[sector][ofs..ofs + size]
      ensures exists j :: 0 <= j < |cache| && cache[j].sector == sector && !cache[j].secondChance
    {
      var i := GetEntry(sector);
      ghost var before := cache;
      cache := cache[i := cache[i].(secondChance := false)];
      ChanceOk(before, device, cache);
      ViewOfEntry(cache, device, i);
      buffer := cache[i].data[ofs..ofs + size];
      assert cache[i].sector == sector && !cache[i].secondChance;
    }

    /** `bc_block_write`. */
    method BlockWrite(sector: nat, ofs: nat, buffer: seq<Byte>)
      requires Valid() && Quiet(cache) && sector < |device| && ofs + |buffer| <= SECTOR_SIZE
      modifies this
      ensures Valid() && Quiet(cache) && |device| == |old(device)|
      ensures |old(Disk())[sector]| == SECTOR_SIZE
      ensures Disk() == old(Disk())[sector := Spliced(old(Disk())[sector], ofs, buffer)]
      ensures exists j :: 0 <= j < |cache| && cache[j].sector == sector && !cache[j].secondChance && cache[j].dirty
    {
      hide View;
      var hit := EntryBySector(sector);
      var i: nat;
      if hit == -1 && ofs == 0 && |buffer| == SECTOR_SIZE {
        // The whole sector is overwritten: it is not read from the device.
        ghost var round;
        i, round := GetFreeEntry(0);
        ghost var loaded := cache[i].(sector := sector, dirty := false, data := device[sector]);
        ghost var before := cache[i := loaded];
        LoadOk(cache, device, i, sector, loaded);
        ViewOfEntry(before, device, i);
        var zeros := seq(SECTOR_SIZE, _ => 0);
        var e := cache[i].(sector := sector, secondChance := false, dirty := true, data := Spliced(zeros, 0, buffer));
        DirtyOk(before, device, i, e);
        cache := cache[i := e];
        assert cache == before[i := e];
        assert e.data == buffer == Spliced(loaded.data, 0, buffer);
      } else {
        i := GetEntry(sector);
        ViewOfEntry(cache, device, i);
        var e := cache[i].(secondChance := false, dirty := true, data := Spliced(cache[i].data, ofs, buffer));
        DirtyOk(cache, device, i, e);
        cache := cache[i := e];
      }
      assert cache[i].sector == sector && !cache[i].secondChance && cache[i].dirty;
    }

    /** `bc_flush_all`: afterwards the device is the disk. */
    method FlushAll()
      requires Valid() && Quiet(cache)
      modifies this
      ensures Valid() && Quiet(cache) && Disk() == old(Disk()) && |device| == |old(device)|
      ensures device == Disk()
    {
      for i := 0 to MAX_CACHE_SECTORS
        invariant Valid() && Quiet(cache) && Disk() == old(Disk()) && |device| == |old(device)|
        invariant forall k :: 0 <= k < i && cache[k].sector != EMPTY_SECTOR ==> !cache[k].dirty
      {
        if cache[i].sector != EMPTY_SECTOR && cache[i].dirty {
          Flush(i);
        }
      }
      forall s | 0 <= s < |device| ensures Disk()[s] == device[s] {
        var k := Find(cache, s, 0);
      }
    }

    /** `bc_remove`: forgets a cached sector, written back or not. */
    method Remove(sector: nat)
      requires Valid() && Quiet(cache) && sector < |device|
      modifies this
      ensures Valid() && Quiet(cache) && device == old(device)
      ensures Disk() == old(Disk())[sector := device[sector]]
    {
      hide View;
      var i := EntryBySector(sector);
      if i != -1 {
        DropOk(cache, device, i);
        cache := cache[i := cache[i].(sector := EMPTY_SECTOR)];
      } else {
        Uncached(cache, device, sector);
      }
    }

    /** Any run of reads, writes and flushes gives the results of the same run on a flat disk. */
    method Run(ops: seq<Op>) returns (outs: seq<seq<Byte>>)
      requires Valid() && Quiet(cache) && forall i :: 0 <= i < |ops| ==> Legal(ops[i], |device|)
      modifies this
      ensures Valid() && Quiet(cache)
      ensures forall s :: 0 <= s < |old(Disk())| ==> |old(Disk())[s]| == SECTOR_SIZE
      ensures outs == Outputs(old(Disk()), ops) && Disk() == After(old(Disk()), ops)
    {
      hide Inv, View, Outputs, After;
      SectorsSized(cache, device);
      outs := [];
      OutputsOfNothing(Disk());
      assert ops[..0] == [];
      for i := 0 to |ops|
        invariant Valid() && Quiet(cache) && |device| == |old(device)|
        invariant Disk() == After(old(Disk()), ops[..i]) && outs == Outputs(old(Disk()), ops[..i])
      {
        SectorsSized(cache, device);
        OneMore(old(Disk()), ops, i);
        match ops[i] {
          case Read(sector, ofs, size) =>
            var buffer := BlockRead(sector, ofs, size);
            outs := outs + [buffer];
          case Write(sector, ofs, data) =>
            BlockWrite(sector, ofs, data);
          case FlushDevice =>
            FlushAll();
        }
      }
      assert ops[..|ops|] == ops;
    }
  }

  // ----- Flat disks

  datatype Op = Read(sector: nat, ofs: nat, size: nat) | Write(sector: nat, ofs: nat, data: seq<Byte>) | FlushDevice

  predicate Legal(op: Op, sectors: nat) {
    match op
    case Read(s, ofs, size) => s < sectors && ofs + size <= SECTOR_SIZE
    case Write(s, ofs, data) => s < sectors && ofs + |data| <= SECTOR_SIZE
    case FlushDevice => true
  }

  ghost predicate FlatDisk(disk: seq<seq<Byte>>) {
    forall s :: 0 <= s < |disk| ==> |disk[s]| == SECTOR_SIZE
  }

  /** A flat disk after a run. */
  ghost function After(disk: seq<seq<Byte>>, ops: seq<Op>): (r: seq<seq<Byte>>)
    requires FlatDisk(disk) && forall i :: 0 <= i < |ops| ==> Legal(ops[i], |disk|)
    ensures |r| == |disk| && FlatDisk(r)
  {
    if ops == [] then disk
    else
      Then(After(disk, ops[..|ops| - 1]), ops[|ops| - 1])
  }

  /** A flat disk after one operation. */
  ghost function Then(disk: seq<seq<Byte>>, op: Op): (r: seq<seq<Byte>>)
    requires FlatDisk(disk) && Legal(op, |disk|)
    ensures |r| == |disk| && FlatDisk(r)
  {
    if op.Write? then disk[op.sector := Spliced(disk[op.sector], op.ofs, op.data)] else disk
  }

  /** What one operation on a flat disk returns. */
  ghost function Output(disk: seq<seq<Byte>>, op: Op): seq<seq<Byte>>
    requires FlatDisk(disk) && Legal(op, |disk|)
  {
    if op.Read? then [disk[op.sector][op.ofs..op.ofs + op.size]] else []
  }

  /** What the reads of a run on a flat disk return. */
  ghost function Outputs(disk: seq<seq<Byte>>, ops: seq<Op>): seq<seq<Byte>>
    requires FlatDisk(disk) && forall i :: 0 <= i < |ops| ==> Legal(ops[i], |disk|)
  {
    if ops == [] then []
    else
      var before := ops[..|ops| - 1];
      Outputs(disk, before) + Output(After(disk, before), ops[|ops| - 1])
  }

  lemma SectorsSized(cache: seq<Entry>, device: seq<seq<Byte>>)
    requires Inv(cache, device)
    ensures FlatDisk(View(cache, device)) && |View(cache, device)| == |device|
  {
  }

  lemma OutputsOfNothing(disk: seq<seq<Byte>>)
    requires FlatDisk(disk)
    ensures Outputs(disk, []) == [] && After(disk, []) == disk
  {
  }

  lemma OneMore(disk: seq<seq<Byte>>, ops: seq<Op>, i: nat)
    requires FlatDisk(disk) && i < |ops| && forall i :: 0 <= i < |ops| ==> Legal(ops[i], |disk|)
    ensures After(disk, ops[..i + 1]) == Then(After(disk, ops[..i]), ops[i])
    ensures Outputs(disk, ops[..i + 1]) == Outputs(disk, ops[..i]) + Output(After(disk, ops[..i]), ops[i])
  {
    hide Then, Output, Legal, FlatDisk;
    var p := ops[..i + 1];
    assert p != [] && p[..|p| - 1] == ops[..i] && p[|p| - 1] == ops[i];
  }
}
