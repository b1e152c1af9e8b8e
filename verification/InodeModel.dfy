/**
 The on-disk shape of an inode (filesys/inode.h, filesys/inode.c) as values:
 which disk sector holds which file sector, and what the file then reads as.
 `Inode` is the imperative code; this module holds the invariant it keeps and
 the lemmas about its single state changes.
 */
module InodeModel {
  import opened Sequences

  const DIRECT_BLOCKS: nat := 11
  const INDIRECT_BLOCKS: nat := 65
  const INDEX_MAIN_ENTRIES: nat := 79
  const INDEX_BLOCK_ENTRIES: nat := 64
  const SECTOR_ERROR: nat := 6666666
  const ACCESS_DIRECT: nat := 10      // last directly indexed file sector
  const ACCESS_INDIRECT: nat := 4170  // last singly indirect file sector

  /** What one disk sector holds. */
  datatype Block =
    | Data(bytes: seq<Byte>)
    | Index(entries: seq<nat>)
    | Meta(length: nat, main: seq<nat>)

  /** What a disk sector is used for within one inode. */
  datatype Role = IndexAt(mainIdx: nat) | DataAt(rel: nat)

  datatype State = State(
    disk: seq<Block>,
    used: seq<bool>,        // the free map: true means taken
    main: seq<nat>,         // main_index
    length: nat,
    owner: map<nat, Role>)  // the sectors this inode owns

  // ----- The index arithmetic

  function DivRoundUp(x: nat, step: nat): nat
    requires step > 0
  {
    (x + step - 1) / step
  }

  /** The main-index slot that leads to the indirect file sector `r`. */
  function MainIdx(r: nat): (m: nat)
    requires ACCESS_DIRECT < r <= ACCESS_INDIRECT
    ensures DIRECT_BLOCKS <= m < DIRECT_BLOCKS + INDIRECT_BLOCKS
  {
    DivRoundUp(r - ACCESS_DIRECT, INDEX_BLOCK_ENTRIES) + ACCESS_DIRECT
  }

  /** The slot within that index block. */
  function InnerIdx(r: nat): (k: nat)
    requires ACCESS_DIRECT < r <= ACCESS_INDIRECT
    ensures k < INDEX_BLOCK_ENTRIES
    ensures r == Rel(MainIdx(r), k)
  {
    r - (DIRECT_BLOCKS + INDEX_BLOCK_ENTRIES * (MainIdx(r) - DIRECT_BLOCKS))
  }

  /** The file sector that slot `k` of the index block at main slot `m` stands for. */
  function Rel(m: nat, k: nat): nat
    requires m >= DIRECT_BLOCKS
  {
    DIRECT_BLOCKS + INDEX_BLOCK_ENTRIES * (m - DIRECT_BLOCKS) + k
  }

  /** The slots are a bijection: every (main, inner) pair is the pair of exactly one file sector. */
  lemma IndexBijection(m: nat, k: nat)
    requires DIRECT_BLOCKS <= m < DIRECT_BLOCKS + INDIRECT_BLOCKS && k < INDEX_BLOCK_ENTRIES
    ensures ACCESS_DIRECT < Rel(m, k) <= ACCESS_INDIRECT
    ensures MainIdx(Rel(m, k)) == m && InnerIdx(Rel(m, k)) == k
  {
  }

  // ----- The structural invariant

  ghost predicate Sized(st: State) {
    |st.disk| == |st.used| <= SECTOR_ERROR && |st.main| == INDEX_MAIN_ENTRIES
  }

  ghost predicate Owns(st: State, s: nat, role: Role) {
    s in st.owner && st.owner[s] == role
  }

  ghost predicate MainOk(st: State)
    requires Sized(st)
  {
    && (forall i :: 0 <= i < DIRECT_BLOCKS && st.main[i] != SECTOR_ERROR ==> Owns(st, st.main[i], DataAt(i)))
    && (forall i :: DIRECT_BLOCKS <= i < DIRECT_BLOCKS + INDIRECT_BLOCKS && st.main[i] != SECTOR_ERROR ==>
          Owns(st, st.main[i], IndexAt(i)))
  }

  ghost predicate OwnedTaken(st: State)
    requires Sized(st)
  {
    forall s | s in st.owner :: s < |st.disk| && st.used[s]
  }

  ghost predicate BlockOk(st: State, s: nat)
    requires s in st.owner && s < |st.disk|
  {
    match st.owner[s]
    case DataAt(r) =>
      && st.disk[s].Data? && |st.disk[s].bytes| == SECTOR_SIZE
      && (forall k :: 0 <= k < SECTOR_SIZE && r * SECTOR_SIZE + k >= st.length ==> st.disk[s].bytes[k] == 0)
    case IndexAt(m) =>
      && DIRECT_BLOCKS <= m < DIRECT_BLOCKS + INDIRECT_BLOCKS
      && st.disk[s].Index? && |st.disk[s].entries| == INDEX_BLOCK_ENTRIES
      && (forall k :: 0 <= k < INDEX_BLOCK_ENTRIES && st.disk[s].entries[k] != SECTOR_ERROR ==>
            Owns(st, st.disk[s].entries[k], DataAt(Rel(m, k))))
  }

  /**
   The structure of an inode.  Every sector it can reach is owned in exactly the
   role it is reached by, which rules out sharing; data past the end is zero.
   */
  ghost predicate Shape(st: State) {
    && Sized(st)
    && OwnedTaken(st)
    && MainOk(st)
    && (forall s | s in st.owner :: BlockOk(st, s))
  }

  /** The disk sector of file sector `r`, SECTOR_ERROR if there is none. */
  ghost function Lookup(st: State, r: nat): nat
    requires Shape(st)
  {
    if r <= ACCESS_DIRECT then st.main[r]
    else if r <= ACCESS_INDIRECT then
      var x := st.main[MainIdx(r)];
      if x == SECTOR_ERROR then SECTOR_ERROR
      else
        assert Owns(st, x, IndexAt(MainIdx(r)));
        assert BlockOk(st, x);
        st.disk[x].entries[InnerIdx(r)]
    else SECTOR_ERROR
  }

  /** A sector found by `Lookup` is this inode's data sector for exactly that file sector. */
  lemma LookupOwned(st: State, r: nat)
    requires Shape(st) && Lookup(st, r) != SECTOR_ERROR
    ensures r <= ACCESS_INDIRECT
    ensures Owns(st, Lookup(st, r), DataAt(r))
    ensures Lookup(st, r) < |st.disk| && st.used[Lookup(st, r)]
    ensures BlockOk(st, Lookup(st, r))
  {
    if r > ACCESS_DIRECT {
      var x := st.main[MainIdx(r)];
      assert Owns(st, x, IndexAt(MainIdx(r)));
      assert BlockOk(st, x);
      assert Owns(st, st.disk[x].entries[InnerIdx(r)], DataAt(Rel(MainIdx(r), InnerIdx(r))));
    }
  }

  /** Distinct file sectors live in distinct disk sectors. */
  lemma LookupInjective(st: State, r: nat, r': nat)
    requires Shape(st) && Lookup(st, r) == Lookup(st, r') != SECTOR_ERROR
    ensures r == r'
  {
    LookupOwned(st, r);
    LookupOwned(st, r');
  }

  /** The byte at file position `p`; positions without a sector read as zero. */
  ghost function At(st: State, p: nat): Byte
    requires Shape(st)
  {
    var s := Lookup(st, p / SECTOR_SIZE);
    if s == SECTOR_ERROR then 0
    else
      LookupOwned(st, p / SECTOR_SIZE);
      st.disk[s].bytes[p % SECTOR_SIZE]
  }

  lemma ZeroPastEnd(st: State, p: nat)
    requires Shape(st) && p >= st.length
    ensures At(st, p) == 0
  {
    var r := p / SECTOR_SIZE;
    if Lookup(st, r) != SECTOR_ERROR {
      LookupOwned(st, r);
      assert r * SECTOR_SIZE + p % SECTOR_SIZE == p;
    }
  }

  /** The number of sectors a file of this length must have; sector 0 always exists. */
  function SectorsFor(length: nat): nat {
    if length == 0 then 1 else DivRoundUp(length, SECTOR_SIZE)
  }

  ghost predicate Covered(st: State, n: nat)
    requires Shape(st)
  {
    forall r :: 0 <= r < n ==> Lookup(st, r) != SECTOR_ERROR
  }

  ghost predicate Inv(st: State) {
    Shape(st) && Covered(st, SectorsFor(st.length))
  }

  /** The file as a byte sequence. */
  ghost function Contents(st: State): (c: seq<Byte>)
    requires Shape(st)
    ensures |c| == st.length
  {
    seq(st.length, p requires p >= 0 => At(st, p))
  }

  // ----- What changes to other files are excluded

  /** From `a` to `b`: sectors that were taken and not this inode's are untouched. */
  ghost predicate OthersKept(a: State, b: State) {
    && |b.disk| == |a.disk| && |b.used| == |a.used| == |a.disk|
    && (forall s :: 0 <= s < |a.disk| && a.used[s] ==> b.used[s])
    && (forall s :: 0 <= s < |a.disk| && a.used[s] && s !in a.owner ==> b.disk[s] == a.disk[s] && s !in b.owner)
    && (forall s | s in a.owner :: s in b.owner)
  }

  lemma OthersKeptTransitive(a: State, b: State, c: State)
    requires OthersKept(a, b) && OthersKept(b, c)
    ensures OthersKept(a, c)
  {
  }

  /** Allocation: same length and bytes; only file sector `r` may have become available. */
  ghost predicate Allocated(a: State, b: State)
    requires Shape(a) && Shape(b)
  {
    && b.length == a.length
    && OthersKept(a, b)
    && (forall r: nat :: Lookup(a, r) != SECTOR_ERROR ==> Lookup(b, r) == Lookup(a, r))
    && (forall p: nat :: At(b, p) == At(a, p))
  }

  lemma AllocatedTransitive(a: State, b: State, c: State)
    requires Shape(a) && Shape(b) && Shape(c) && Allocated(a, b) && Allocated(b, c)
    ensures Allocated(a, c)
  {
    OthersKeptTransitive(a, b, c);
    forall p: nat ensures At(c, p) == At(a, p) {
      assert At(b, p) == At(a, p);
    }
  }

  // ----- The three allocation steps

  function GiveDirect(st: State, r: nat, s: nat): State
    requires Sized(st) && r <= ACCESS_DIRECT && s < |st.disk|
  {
    st.(disk := st.disk[s := Data(Zeros(SECTOR_SIZE))], used := st.used[s := true],
        main := st.main[r := s], owner := st.owner[s := DataAt(r)])
  }

  function EmptyIndex(): Block {
    Index(seq(INDEX_BLOCK_ENTRIES, _ => SECTOR_ERROR))
  }

  function GiveIndex(st: State, m: nat, s: nat): State
    requires Sized(st) && m < INDEX_MAIN_ENTRIES && s < |st.disk|
  {
    st.(disk := st.disk[s := EmptyIndex()], used := st.used[s := true],
        main := st.main[m := s], owner := st.owner[s := IndexAt(m)])
  }

  function GiveIndirect(st: State, x: nat, k: nat, r: nat, s: nat): State
    requires Sized(st) && s < |st.disk| && x < |st.disk| && x != s
    requires st.disk[x].Index? && k < |st.disk[x].entries|
  {
    st.(disk := st.disk[s := Data(Zeros(SECTOR_SIZE))][x := Index(st.disk[x].entries[k := s])],
        used := st.used[s := true], owner := st.owner[s := DataAt(r)])
  }

  lemma SameBytes(a: State, b: State, given: nat)
    requires Shape(a) && Shape(b)
    requires forall r: nat :: Lookup(b, r) == Lookup(a, r) || (Lookup(a, r) == SECTOR_ERROR && Lookup(b, r) == given)
    requires given < |b.disk| && b.disk[given] == Data(Zeros(SECTOR_SIZE))
    requires forall s :: s in a.owner && s < |a.disk| && a.owner[s].DataAt? ==> s < |b.disk| && b.disk[s] == a.disk[s]
    ensures forall p: nat :: At(b, p) == At(a, p)
  {
    forall p: nat ensures At(b, p) == At(a, p) {
      var r := p / SECTOR_SIZE;
      if Lookup(a, r) != SECTOR_ERROR {
        LookupOwned(a, r);
      }
    }
  }

  lemma GiveDirectShape(st: State, r: nat, s: nat)
    requires Shape(st) && r <= ACCESS_DIRECT && s < |st.disk| && !st.used[s] && st.main[r] == SECTOR_ERROR
    ensures Shape(GiveDirect(st, r, s)) && OthersKept(st, GiveDirect(st, r, s))
  {
    var st' := GiveDirect(st, r, s);
    forall t | t in st'.owner ensures BlockOk(st', t) {
      if t != s { assert BlockOk(st, t); }
    }
  }

  lemma GiveDirectOk(st: State, r: nat, s: nat)
    requires Shape(st) && r <= ACCESS_DIRECT && s < |st.disk| && !st.used[s] && st.main[r] == SECTOR_ERROR
    ensures var st' := GiveDirect(st, r, s);
            && Shape(st') && Allocated(st, st')
            && (forall q: nat :: Lookup(st', q) == if q == r then s else Lookup(st, q))
  {
    hide OthersKept;
    var st' := GiveDirect(st, r, s);
    GiveDirectShape(st, r, s);
    forall r': nat ensures Lookup(st', r') == if r' == r then s else Lookup(st, r') {
      if ACCESS_DIRECT < r' <= ACCESS_INDIRECT && st.main[MainIdx(r')] != SECTOR_ERROR {
        assert Owns(st, st.main[MainIdx(r')], IndexAt(MainIdx(r')));
      }
    }
    SameBytes(st, st', s);
  }

  lemma GiveIndexShape(st: State, m: nat, s: nat)
    requires Shape(st) && DIRECT_BLOCKS <= m < DIRECT_BLOCKS + INDIRECT_BLOCKS
    requires s < |st.disk| && !st.used[s] && st.main[m] == SECTOR_ERROR
    ensures Shape(GiveIndex(st, m, s)) && OthersKept(st, GiveIndex(st, m, s))
  {
    var st' := GiveIndex(st, m, s);
    forall t | t in st'.owner ensures BlockOk(st', t) {
      if t != s { assert BlockOk(st, t); }
    }
  }

  lemma GiveIndexOk(st: State, m: nat, s: nat)
    requires Shape(st) && DIRECT_BLOCKS <= m < DIRECT_BLOCKS + INDIRECT_BLOCKS
    requires s < |st.disk| && !st.used[s] && st.main[m] == SECTOR_ERROR
    ensures var st' := GiveIndex(st, m, s);
            && Shape(st') && Allocated(st, st')
            && (forall r: nat :: Lookup(st', r) == Lookup(st, r))
  {
    hide OthersKept;
    var st' := GiveIndex(st, m, s);
    GiveIndexShape(st, m, s);
    forall r': nat ensures Lookup(st', r') == Lookup(st, r') {
      if ACCESS_DIRECT < r' <= ACCESS_INDIRECT && st.main[MainIdx(r')] != SECTOR_ERROR {
        assert Owns(st, st.main[MainIdx(r')], IndexAt(MainIdx(r')));
      }
    }
    forall p: nat ensures At(st', p) == At(st, p) {
      if Lookup(st, p / SECTOR_SIZE) != SECTOR_ERROR { LookupOwned(st, p / SECTOR_SIZE); }
    }
  }

  lemma GiveIndirectShape(st: State, m: nat, k: nat, s: nat)
    requires Shape(st) && DIRECT_BLOCKS <= m < DIRECT_BLOCKS + INDIRECT_BLOCKS && k < INDEX_BLOCK_ENTRIES
    requires st.main[m] != SECTOR_ERROR
    requires s < |st.disk| && !st.used[s]
    ensures var x := st.main[m];
            && x != s && x < |st.disk| && st.disk[x].Index? && |st.disk[x].entries| == INDEX_BLOCK_ENTRIES
            && var st' := GiveIndirect(st, x, k, Rel(m, k), s);
            Shape(st') && OthersKept(st, st')
  {
    var x := st.main[m];
    assert Owns(st, x, IndexAt(m));
    assert BlockOk(st, x);
    var st' := GiveIndirect(st, x, k, Rel(m, k), s);
    forall t | t in st'.owner ensures BlockOk(st', t) {
      if t != s && t != x {
        assert BlockOk(st, t);
        assert st'.disk[t] == st.disk[t] && st'.owner[t] == st.owner[t];
      }
    }
  }

  lemma GiveIndirectOk(st: State, r: nat, s: nat)
    requires Shape(st) && ACCESS_DIRECT < r <= ACCESS_INDIRECT
    requires st.main[MainIdx(r)] != SECTOR_ERROR && Lookup(st, r) == SECTOR_ERROR
    requires s < |st.disk| && !st.used[s]
    ensures var x := st.main[MainIdx(r)];
            && x != s && x < |st.disk| && st.disk[x].Index? && |st.disk[x].entries| == INDEX_BLOCK_ENTRIES
            && var st' := GiveIndirect(st, x, InnerIdx(r), r, s);
            && Shape(st') && Allocated(st, st')
            && (forall q: nat :: Lookup(st', q) == if q == r then s else Lookup(st, q))
  {
    hide OthersKept;
    var x, k := st.main[MainIdx(r)], InnerIdx(r);
    GiveIndirectShape(st, MainIdx(r), k, s);
    var st' := GiveIndirect(st, x, k, r, s);
    forall r': nat ensures Lookup(st', r') == if r' == r then s else Lookup(st, r') {
      if ACCESS_DIRECT < r' <= ACCESS_INDIRECT && st.main[MainIdx(r')] != SECTOR_ERROR {
        var y := st.main[MainIdx(r')];
        assert Owns(st, y, IndexAt(MainIdx(r')));
        if y == x {
          assert Owns(st, x, IndexAt(MainIdx(r)));
        }
      }
    }
    SameBytes(st, st', s);
  }

  // ----- Writing into a sector, and changing the length

  /** Replaces `d` at offset `ofs` of the disk sector `s`. */
  function WriteBlock(st: State, s: nat, ofs: nat, d: seq<Byte>): State
    requires s < |st.disk| && st.disk[s].Data? && ofs + |d| <= |st.disk[s].bytes|
  {
    st.(disk := st.disk[s := Data(Spliced(st.disk[s].bytes, ofs, d))])
  }

  lemma WriteBlockShape(st: State, s: nat, r: nat, ofs: nat, d: seq<Byte>)
    requires Shape(st) && s < |st.disk| && Owns(st, s, DataAt(r))
    requires st.disk[s].Data? && |st.disk[s].bytes| == SECTOR_SIZE
    requires ofs + |d| <= SECTOR_SIZE && r * SECTOR_SIZE + ofs + |d| <= st.length
    ensures var st' := WriteBlock(st, s, ofs, d);
            Shape(st') && OthersKept(st, st') && forall r': nat :: Lookup(st', r') == Lookup(st, r')
  {
    var st' := WriteBlock(st, s, ofs, d);
    forall t | t in st'.owner ensures BlockOk(st', t) {
      assert BlockOk(st, t);
    }
    forall r': nat ensures Lookup(st', r') == Lookup(st, r') {
      if ACCESS_DIRECT < r' <= ACCESS_INDIRECT && st.main[MainIdx(r')] != SECTOR_ERROR {
        assert Owns(st, st.main[MainIdx(r')], IndexAt(MainIdx(r')));
      }
    }
  }

  /** A write within one sector and within the length changes exactly those file bytes. */
  lemma WriteBlockOk(st: State, pos: nat, d: seq<Byte>)
    requires Inv(st) && d != [] && pos + |d| <= st.length
    requires pos % SECTOR_SIZE + |d| <= SECTOR_SIZE
    requires Lookup(st, pos / SECTOR_SIZE) != SECTOR_ERROR
    ensures var s := Lookup(st, pos / SECTOR_SIZE);
            && s < |st.disk| && st.disk[s].Data? && |st.disk[s].bytes| == SECTOR_SIZE
            && var st' := WriteBlock(st, s, pos % SECTOR_SIZE, d);
            && Inv(st') && OthersKept(st, st')
            && (forall p: nat :: At(st', p) == if pos <= p < pos + |d| then d[p - pos] else At(st, p))
            && (forall q: nat :: Lookup(st', q) == Lookup(st, q))
  {
    hide Shape, OthersKept, Lookup;
    var r, ofs := pos / SECTOR_SIZE, pos % SECTOR_SIZE;
    LookupOwned(st, r);
    var s := Lookup(st, r);
    var st' := WriteBlock(st, s, ofs, d);
    WriteBlockShape(st, s, r, ofs, d);
    forall p: nat ensures At(st', p) == if pos <= p < pos + |d| then d[p - pos] else At(st, p) {
      var r', k := p / SECTOR_SIZE, p % SECTOR_SIZE;
      assert p == r' * SECTOR_SIZE + k && pos == r * SECTOR_SIZE + ofs;
      if Lookup(st, r') != SECTOR_ERROR {
        LookupOwned(st, r');
      }
    }
  }

  /** Raising the length exposes zeros. */
  lemma SetLengthOk(st: State, length: nat)
    requires Shape(st) && length >= st.length && Covered(st, SectorsFor(length))
    ensures var st' := st.(length := length);
            && Inv(st') && OthersKept(st, st') && (forall p: nat :: At(st', p) == At(st, p))
            && (forall q: nat :: Lookup(st', q) == Lookup(st, q))
  {
    var st' := st.(length := length);
    forall t | t in st'.owner ensures BlockOk(st', t) {
      assert BlockOk(st, t);
    }
    forall r': nat ensures Lookup(st', r') == Lookup(st, r') {
      if ACCESS_DIRECT < r' <= ACCESS_INDIRECT && st.main[MainIdx(r')] != SECTOR_ERROR {
        assert Owns(st, st.main[MainIdx(r')], IndexAt(MainIdx(r')));
      }
    }
    forall p: nat ensures At(st', p) == At(st, p) {
      if Lookup(st, p / SECTOR_SIZE) != SECTOR_ERROR { LookupOwned(st, p / SECTOR_SIZE); }
    }
  }

  /** Storing into a sector that is not this inode's data changes nothing of the file. */
  lemma ForeignWriteOk(st: State, s: nat, b: Block)
    requires Inv(st) && s < |st.disk| && s !in st.owner
    ensures var st' := st.(disk := st.disk[s := b]);
            Inv(st') && (forall p: nat :: At(st', p) == At(st, p)) && (forall r: nat :: Lookup(st', r) == Lookup(st, r))
  {
    var st' := st.(disk := st.disk[s := b]);
    forall t | t in st'.owner ensures BlockOk(st', t) {
      assert BlockOk(st, t);
    }
    forall r': nat ensures Lookup(st', r') == Lookup(st, r') {
      if ACCESS_DIRECT < r' <= ACCESS_INDIRECT && st.main[MainIdx(r')] != SECTOR_ERROR {
        assert Owns(st, st.main[MainIdx(r')], IndexAt(MainIdx(r')));
      }
    }
    forall p: nat ensures At(st', p) == At(st, p) {
      if Lookup(st, p / SECTOR_SIZE) != SECTOR_ERROR { LookupOwned(st, p / SECTOR_SIZE); }
    }
  }

  /** A file is its own sectors: whatever else changes on the disk, it stays the same. */
  lemma OwnSectorsOnly(a: State, b: State)
    requires Inv(a) && b == a.(disk := b.disk, used := b.used) && |b.disk| == |b.used| == |a.disk|
    requires forall s | s in a.owner :: s < |a.disk| ==> b.used[s] && b.disk[s] == a.disk[s]
    ensures Inv(b) && Contents(b) == Contents(a)
  {
    forall t | t in b.owner ensures BlockOk(b, t) {
      assert BlockOk(a, t);
    }
    forall r: nat ensures Lookup(b, r) == Lookup(a, r) {
      if ACCESS_DIRECT < r <= ACCESS_INDIRECT && a.main[MainIdx(r)] != SECTOR_ERROR {
        assert Owns(a, a.main[MainIdx(r)], IndexAt(MainIdx(r)));
      }
    }
    forall p: nat ensures At(b, p) == At(a, p) {
      if Lookup(a, p / SECTOR_SIZE) != SECTOR_ERROR { LookupOwned(a, p / SECTOR_SIZE); }
    }
  }
}
