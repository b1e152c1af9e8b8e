/**
 Two-level x86 page tables (threads/pte.h, userprog/pagedir.c) as a partial map
 from pages to frames with their flags.  Virtual and physical addresses are
 numbers below 2^32; an entry is a 32-bit word in the format of section 3.7.6 of
 volume 3A of the IA-32 Software Developer's Manual.
 */
module PageDir {
  import opened Sequences
  import opened Words

  const WORD: nat := 0x1_0000_0000

  // Bits of an entry.
  const P: nat := 0
  const W: nat := 1
  const U: nat := 2
  const A: nat := 5
  const D: nat := 6

  const PTE_ADDR: nat := 0xFFFF_F000
  const PTMASK: nat := 0x003F_F000

  // ----- Words with an address and flags

  lemma AndHalf(w: nat, y: nat)
    ensures And(w, 2 * y) == 2 * And(w / 2, y)
  {
    if w + y > 0 { HalfTop(y, 0); }
  }

  // Shifts by halving and doubling: easier to reason about than division by 2^n.
  function Shr(w: nat, n: nat): nat { if n == 0 then w else Shr(w / 2, n - 1) }

  function Shl(x: nat, n: nat): nat { if n == 0 then x else 2 * Shl(x, n - 1) }

  /** Masking the upper part of a word. */
  lemma {:induction false} AndShifted(w: nat, x: nat, n: nat)
    ensures And(w, Shl(x, n)) == Shl(And(Shr(w, n), x), n)
    decreases n
  {
    if n > 0 {
      AndHalf(w, Shl(x, n - 1));
      AndShifted(w / 2, x, n - 1);
    }
  }

  lemma OrHalf(a: nat, b: nat)
    ensures Or(a, b) / 2 == Or(a / 2, b / 2)
  {
  }

  lemma OrStep(a: nat, f: nat)
    ensures Or(2 * a, f) == 2 * Or(a, f / 2) + f % 2
  {
    HalfTop(a, 0);
  }

  /** Adding flags below an address. */
  lemma {:induction false} OrBelow(q: nat, f: nat, n: nat)
    requires Shr(f, n) == 0
    ensures Or(Shl(q, n), f) == Shl(q, n) + f
    decreases n
  {
    if n == 0 {
      OrZero(q);
    } else {
      OrStep(Shl(q, n - 1), f);
      OrBelow(q, f / 2, n - 1);
    }
  }

  lemma {:induction false} ShrDivides(w: nat, n: nat)
    ensures Shr(w, n) == w / Pow2(n)
    decreases n
  {
    if n > 0 {
      ShrDivides(w / 2, n - 1);
      DivTwice(w, Pow2(n - 1));
    }
  }

  lemma {:induction false} ShlMultiplies(x: nat, n: nat)
    ensures Shl(x, n) == x * Pow2(n)
  {
    if n > 0 {
      ShlMultiplies(x, n - 1);
      Twice(x, Pow2(n - 1));
    }
  }

  /** In terms of a page. */
  lemma Page(w: nat)
    ensures Shr(w, 12) == w / PGSIZE && Shl(w, 12) == w * PGSIZE
  {
    Powers();
    ShrDivides(w, 12);
    ShlMultiplies(w, 12);
  }

  lemma HalfSum(w: nat, t: nat, r: nat)
    requires w == 2 * t + r
    ensures w / 2 == t + r / 2
  {
  }

  lemma DivTwice(w: nat, p: nat)
    requires p > 0
    ensures w / 2 / p == w / (2 * p)
  {
    HalfQuotient(w, p, w / (2 * p), w % (2 * p));
  }

  lemma HalfQuotient(w: nat, p: nat, q: nat, r: nat)
    requires p > 0 && w == q * (2 * p) + r && r < 2 * p
    ensures w / 2 / p == q
  {
    Twice(q, p);
    HalfSum(w, q * p, r);
    QuotientUnique(w / 2, p, q, r / 2);
  }

  lemma Twice(q: nat, p: nat)
    ensures q * (2 * p) == 2 * (q * p)
  {
  }

  lemma QuotientUnique(x: nat, p: nat, q: nat, r: nat)
    requires p > 0 && x == q * p + r && r < p
    ensures x / p == q
  {
    ModUnique(x, p, q, r);
    var k := x / p;
    Distribute(k, q, p);
    NoMultiple(k - q, p, 0);
  }

  lemma {:induction false} OrZero(q: nat)
    ensures Or(q, 0) == q
  {
    if q > 0 { OrZero(q / 2); }
  }

  lemma Powers()
    ensures Pow2(0) == 1 && Pow2(1) == 2 && Pow2(2) == 4 && Pow2(5) == 32 && Pow2(6) == 64
    ensures Pow2(10) == 1024 && Pow2(12) == 4096 && Pow2(20) == 0x10_0000
  {
    assert Pow2(3) == 8 && Pow2(4) == 16 && Pow2(7) == 128 && Pow2(8) == 256 && Pow2(9) == 512;
    assert Pow2(11) == 2048;
    assert Pow2(13) == 8192 && Pow2(14) == 16384 && Pow2(15) == 32768 && Pow2(16) == 65536;
    assert Pow2(17) == 131072 && Pow2(18) == 262144 && Pow2(19) == 524288;
  }

  lemma AddrMask(w: nat)
    requires w < WORD
    ensures And(w, PTE_ADDR) == w / PGSIZE * PGSIZE
  {
    hide And, Shl, Shr;
    var q := w / PGSIZE;
    Page(w);
    Page(0xF_FFFF);
    AndShifted(w, 0xF_FFFF, 12);
    AllOfIt(q);
    Page(q);
  }

  lemma AllOfIt(q: nat)
    requires q < 0x10_0000
    ensures And(q, 0xF_FFFF) == q
  {
    hide And, Pow2;
    Powers();
    MaskIsMod(q, 20);
  }

  lemma TableMask(va: nat)
    ensures And(va, PTMASK) / PGSIZE == va / PGSIZE % 1024
  {
    Powers();
    Page(va);
    Page(1023);
    AndShifted(va, 1023, 12);
    MaskIsMod(va / PGSIZE, 10);
    Page(va / PGSIZE % 1024);
  }

  /** Clearing or setting one bit below bit 12 keeps the address. */
  lemma {:induction false} BitKeepsHigh(w: nat, k: nat, n: nat)
    requires k < n
    ensures Or(w, Pow2(k)) / Pow2(n) == w / Pow2(n) && AndNot(w, Pow2(k)) / Pow2(n) == w / Pow2(n)
    decreases n
  {
    OrHalf(w, Pow2(k));
    AndNotHalf(w, Pow2(k));
    if k == 0 {
      OrZero(w / 2);
      AndNotZero(w / 2);
    } else {
      BitKeepsHigh(w / 2, k - 1, n - 1);
    }
    DivTwice(Or(w, Pow2(k)), Pow2(n - 1));
    DivTwice(AndNot(w, Pow2(k)), Pow2(n - 1));
    DivTwice(w, Pow2(n - 1));
  }

  lemma AndNotHalf(a: nat, b: nat)
    ensures AndNot(a, b) / 2 == AndNot(a / 2, b / 2)
  {
  }

  lemma {:induction false} AndNotZero(a: nat)
    ensures AndNot(a, 0) == a
  {
    if a > 0 { AndNotZero(a / 2); }
  }

  // ----- pte.h and vaddr.h

  function PdNo(va: nat): nat { va / 0x40_0000 }

  function PtNo(va: nat): nat { And(va, PTMASK) / PGSIZE }

  function PteCreateUser(page: nat, writable: bool): nat
    requires PHYS_BASE <= page
  {
    Or(Or(Or(page - PHYS_BASE, Pow2(P)), if writable then Pow2(W) else 0), Pow2(U))
  }

  function PdeCreate(table: nat): nat
    requires PHYS_BASE <= table
  {
    Or(Or(Or(table - PHYS_BASE, Pow2(U)), Pow2(P)), Pow2(W))
  }

  /** `pde_get_pt` and `pte_get_page`. */
  function GetPage(entry: nat): nat { And(entry, PTE_ADDR) + PHYS_BASE }

  /** What the hardware and the kernel read from an entry. */
  datatype Mapped = Mapped(kpage: nat, writable: bool, accessed: bool, dirty: bool)

  function EntryOf(w: nat): Option<Mapped> {
    if Bit(w, P) then Some(Mapped(GetPage(w), Bit(w, W), Bit(w, A), Bit(w, D))) else None
  }

  /** Virtual address bits select a directory entry, a table entry and an offset. */
  lemma Indices(va: nat)
    requires va < WORD
    ensures PdNo(va) == va / PGSIZE / 1024 < 1024 && PtNo(va) == va / PGSIZE % 1024
  {
    TableMask(va);
  }

  lemma {:induction false} AlignedBits(q: nat, n: nat, k: nat)
    requires k < n
    ensures !Bit(Shl(q, n), k)
    decreases n
  {
    HalfTop(Shl(q, n - 1), 0);
    if k > 0 { AlignedBits(q, n - 1, k - 1); }
  }

  predicate IsFrame(page: nat) { PHYS_BASE <= page < WORD && page % PGSIZE == 0 }

  /** Setting a flag. */
  lemma SetBit(w: nat, k: nat)
    requires k < 12 && w < WORD - PHYS_BASE
    ensures Or(w, Pow2(k)) / PGSIZE == w / PGSIZE && Or(w, Pow2(k)) < WORD - PHYS_BASE
    ensures forall j: nat :: Bit(Or(w, Pow2(k)), j) <==> Bit(w, j) || j == k
  {
    Powers();
    BitKeepsHigh(w, k, 12);
    forall j: nat ensures Bit(Or(w, Pow2(k)), j) <==> Bit(w, j) || j == k {
      OrBit(w, Pow2(k), j);
      Pow2Bit(k, j);
    }
  }

  /** Clearing a flag. */
  lemma ClearBit(w: nat, k: nat)
    requires k < 12 && w < WORD - PHYS_BASE
    ensures AndNot(w, Pow2(k)) / PGSIZE == w / PGSIZE && AndNot(w, Pow2(k)) < WORD - PHYS_BASE
    ensures forall j: nat :: Bit(AndNot(w, Pow2(k)), j) <==> Bit(w, j) && j != k
  {
    Powers();
    BitKeepsHigh(w, k, 12);
    AndNotBound(w, Pow2(k));
    forall j: nat ensures Bit(AndNot(w, Pow2(k)), j) <==> Bit(w, j) && j != k {
      AndNotBit(w, Pow2(k), j);
      Pow2Bit(k, j);
    }
  }

  /** The address of an entry depends on its upper part only. */
  lemma SameAddress(v: nat, w: nat)
    requires v < WORD && w < WORD && v / PGSIZE == w / PGSIZE
    ensures GetPage(v) == GetPage(w) == w / PGSIZE * PGSIZE + PHYS_BASE
  {
    AddrMask(v);
    AddrMask(w);
  }

  lemma FrameAddress(a: nat)
    requires a % PGSIZE == 0 && a < WORD - PHYS_BASE
    ensures GetPage(a) == a + PHYS_BASE
    ensures forall k: nat :: k < 12 ==> !Bit(a, k)
  {
    AddrMask(a);
    forall k: nat | k < 12 ensures !Bit(a, k) { LowBits(a, k); }
  }

  lemma LowBits(a: nat, k: nat)
    requires a % PGSIZE == 0 && k < 12
    ensures !Bit(a, k)
  {
    hide Bit;
    Page(a / PGSIZE);
    AlignedBits(a / PGSIZE, 12, k);
  }

  /** Packing a frame address with flags loses nothing. */
  lemma PteRoundTrip(page: nat, writable: bool)
    requires IsFrame(page)
    ensures EntryOf(PteCreateUser(page, writable)) == Some(Mapped(page, writable, false, false))
    ensures var w := PteCreateUser(page, writable);
            && Bit(w, P) && Bit(w, U) && Bit(w, W) == writable && w < WORD - PHYS_BASE
            && w == page - PHYS_BASE + if writable then 7 else 5
  {
    hide Or, Bit, And, Pow2;
    var a := page - PHYS_BASE;
    FrameAddress(a);
    SetBit(a, P);
    var b := Or(a, Pow2(P));
    var c := if writable then Or(b, Pow2(W)) else b;
    SetBit(b, W);
    OrZero(b);
    SetBit(c, U);
    SameAddress(Or(c, Pow2(U)), a);
    Powers();
    OrAdds(a, P);
    OrAdds(b, W);
    OrAdds(c, U);
  }

  /** Setting a bit that is clear. */
  lemma {:induction false} OrAdds(w: nat, k: nat)
    ensures !Bit(w, k) ==> Or(w, Pow2(k)) == w + Pow2(k)
    decreases k
  {
    if k == 0 {
      OrZero(w / 2);
    } else {
      OrAdds(w / 2, k - 1);
      OrHalf(w, Pow2(k));
      HalfTop(Pow2(k - 1), 0);
    }
  }

  /** The two flags that the processor sets are the masks 0x20 and 0x40. */
  lemma UseFlags(w: nat)
    ensures Bit(w, A) <==> And(w, 0x20) != 0
    ensures Bit(w, D) <==> And(w, 0x40) != 0
  {
    Powers();
    MaskTest(w, A);
    MaskTest(w, D);
  }

  lemma PdeRoundTrip(table: nat)
    requires IsFrame(table)
    ensures GetPage(PdeCreate(table)) == table && Bit(PdeCreate(table), P) && PdeCreate(table) != 0
    ensures Bit(PdeCreate(table), W) && Bit(PdeCreate(table), U) && PdeCreate(table) < WORD - PHYS_BASE
    ensures PdeCreate(table) == table - PHYS_BASE + 7
  {
    hide Or, Bit, And, Pow2;
    var a := table - PHYS_BASE;
    FrameAddress(a);
    SetBit(a, U);
    var b := Or(a, Pow2(U));
    SetBit(b, P);
    var c := Or(b, Pow2(P));
    SetBit(c, W);
    SameAddress(Or(c, Pow2(W)), a);
    ZeroBits(P);
    Powers();
    OrAdds(a, U);
    OrAdds(b, P);
    OrAdds(c, W);
  }

  // ----- pagedir.c

  /** A place for an entry: a page table, named by its kernel address, and an index. */
  datatype Slot = Slot(table: nat, index: nat)

  class PageDirectory {
    var pd: seq<nat>
    var tables: map<nat, seq<nat>>

    ghost predicate Valid()
      reads this
    {
      && |pd| == 1024
      && (forall i :: 0 <= i < 1024 && pd[i] != 0 ==> Bit(pd[i], P) && GetPage(pd[i]) in tables)
      && (forall i :: 0 <= i < 768 && pd[i] != 0 ==> Bit(pd[i], U) && Bit(pd[i], W))
      && (forall i, j :: 0 <= i < j < 1024 && pd[i] != 0 && pd[j] != 0 ==> GetPage(pd[i]) != GetPage(pd[j]))
      && (forall t :: t in tables ==> |tables[t]| == 1024)
      && (forall t, k :: t in tables && 0 <= k < 1024 ==> tables[t][k] < WORD - PHYS_BASE)
    }

    /** The entry of virtual page number `v`, zero when it has no page table. */
    ghost function Pte(v: nat): nat
      reads this
      requires Valid() && v < 0x10_0000
    {
      if pd[v / 1024] == 0 then 0 else tables[GetPage(pd[v / 1024])][v % 1024]
    }

    /** The map that the page tables stand for. */
    ghost function Entry(v: nat): Option<Mapped>
      reads this
      requires Valid() && v < 0x10_0000
    {
      EntryOf(Pte(v))
    }

    /** The processor lets user code read, or write, page `v`: both levels have to allow it. */
    ghost predicate UserMay(v: nat, write: bool)
      reads this
      requires Valid() && v < 0x10_0000
    {
      var pde, pte := pd[v / 1024], Pte(v);
      Bit(pde, P) && Bit(pte, P) && Bit(pde, U) && Bit(pte, U) && (write ==> Bit(pde, W) && Bit(pte, W))
    }

    /** A page that is not concerned is mapped as before, and user code may do with it what it could. */
    twostate lemma SameRights(u: nat, v: nat, write: bool)
      requires old(Valid()) && Valid() && u < 0x10_0000 && u != v && Others(v)
      ensures Entry(u) == old(Entry(u)) && UserMay(u, write) == old(UserMay(u, write))
    {
      ZeroBits(P);
    }

    /** No page but `v` is concerned: neither its entry nor, if it has one, the directory entry above. */
    twostate predicate Others(v: nat)
      reads this
      requires old(Valid()) && Valid()
    {
      forall u :: 0 <= u < 0x10_0000 && u != v ==> Pte(u) == old(Pte(u)) && (Pte(u) != 0 ==> pd[u / 1024] == old(pd[u / 1024]))
    }

    /** `lookup_page`; `memory` is what `palloc_get_page` returns. */
    method LookupPage(va: nat, create: bool, memory: Option<nat>) returns (slot: Option<Slot>)
      requires Valid() && va < WORD && (create ==> va < PHYS_BASE)
      requires memory.Some? ==> IsFrame(memory.value) && memory.value !in tables
      modifies this
      ensures Valid() && (forall u :: 0 <= u < 0x10_0000 ==> Pte(u) == old(Pte(u)))
      ensures forall i :: 0 <= i < 1024 && (i != va / PGSIZE / 1024 || old(pd[i]) != 0) ==> pd[i] == old(pd[i])
      ensures pd[768..] == old(pd[768..]) && (forall t :: t in old(tables) ==> t in tables && tables[t] == old(tables)[t])
      ensures slot == None <==> old(pd)[va / PGSIZE / 1024] == 0 && (!create || memory == None)
      ensures slot.Some? ==> pd[va / PGSIZE / 1024] != 0 && slot.value == Slot(GetPage(pd[va / PGSIZE / 1024]), va / PGSIZE % 1024)
      ensures !create ==> pd == old(pd) && tables == old(tables)
    {
      Indices(va);
      var pde := PdNo(va);
      if pd[pde] == 0 {
        if create && memory.Some? {
          var pt := memory.value;
          PdeRoundTrip(pt);
          tables := tables[pt := seq(1024, _ => 0)];
          pd := pd[pde := PdeCreate(pt)];
        } else {
          return None;
        }
      }
      slot := Some(Slot(GetPage(pd[pde]), PtNo(va)));
    }

    /** Writing an entry changes one page's. */
    method Store(va: nat, slot: Slot, w: nat)
      requires Valid() && va < WORD && w < WORD - PHYS_BASE
      requires pd[va / PGSIZE / 1024] != 0 && slot == Slot(GetPage(pd[va / PGSIZE / 1024]), va / PGSIZE % 1024)
      modifies this`tables
      ensures Valid() && Pte(va / PGSIZE) == w && Others(va / PGSIZE)
      ensures tables.Keys == old(tables.Keys)
      ensures forall t :: t in tables && t != slot.table ==> tables[t] == old(tables)[t]
    {
      hide EntryOf, GetPage, Bit;
      var table: seq<nat> := tables[slot.table];
      table := table[slot.index := w];
      tables := tables[slot.table := table];
    }

    /** `pagedir_set_page`: maps a page that is not mapped, if there is memory for a page table it may need. */
    method SetPage(upage: nat, kpage: nat, writable: bool, memory: Option<nat>) returns (ok: bool)
      requires Valid() && upage < PHYS_BASE && upage % PGSIZE == 0 && IsFrame(kpage)
      requires memory.Some? ==> IsFrame(memory.value) && memory.value !in tables
      requires Entry(upage / PGSIZE) == None
      modifies this
      ensures Valid() && Others(upage / PGSIZE) && pd[768..] == old(pd[768..])
      ensures Entry(upage / PGSIZE) == if ok then Some(Mapped(kpage, writable, false, false)) else None
      ensures ok ==> UserMay(upage / PGSIZE, false) && UserMay(upage / PGSIZE, true) == writable
      ensures !ok ==> memory == None
    {
      hide EntryOf, Bit, PteCreateUser, GetPage;
      var slot := LookupPage(upage, true, memory);
      if slot.None? {
        return false;
      }
      PteRoundTrip(kpage, writable);
      assert pd[upage / PGSIZE / 1024] != 0 && upage / PGSIZE / 1024 < 768;
      Store(upage, slot.value, PteCreateUser(kpage, writable));
      ok := true;
    }

    /** The word at a slot. */
    method Load(slot: Slot) returns (w: nat)
      requires slot.table in tables && slot.index < |tables[slot.table]|
      ensures w == tables[slot.table][slot.index]
    {
      w := tables[slot.table][slot.index];
    }

    /** `pagedir_get_page`: the kernel address of a user address, if it is mapped. */
    method GetPageOf(uaddr: nat) returns (kaddr: Option<nat>)
      requires Valid() && uaddr < PHYS_BASE
      modifies this
      ensures Valid() && pd == old(pd) && tables == old(tables)
      ensures kaddr == match Entry(uaddr / PGSIZE)
                       case Some(m) => Some(m.kpage + uaddr % PGSIZE)
                       case None => None
    {
      var slot := LookupPage(uaddr, false, None);
      ZeroBits(P);
      kaddr := None;
      if slot.Some? {
        var pte := Load(slot.value);
        MaskTest(pte, P);
        if And(pte, Pow2(P)) != 0 {
          Offset(uaddr);
          kaddr := Some(GetPage(pte) + And(uaddr, 4095));
        }
      }
    }

    /** `pagedir_clear_page`: later accesses fault; the other bits stay. */
    method ClearPage(upage: nat)
      requires Valid() && upage < PHYS_BASE && upage % PGSIZE == 0
      modifies this
      ensures Valid() && Others(upage / PGSIZE) && pd == old(pd)
      ensures Entry(upage / PGSIZE) == None && !UserMay(upage / PGSIZE, false) && !UserMay(upage / PGSIZE, true)
      ensures Pte(upage / PGSIZE) / PGSIZE == old(Pte(upage / PGSIZE)) / PGSIZE
      ensures forall k: nat :: k != P ==> Bit(Pte(upage / PGSIZE), k) == Bit(old(Pte(upage / PGSIZE)), k)
    {
      hide Bit;
      var slot := LookupPage(upage, false, None);
      ZeroBits(P);
      if slot.Some? {
        var pte := Load(slot.value);
        MaskTest(pte, P);
        if And(pte, Pow2(P)) != 0 {
          ClearBit(pte, P);
          Store(upage, slot.value, AndNot(pte, Pow2(P)));
        }
      }
    }

    /** `pagedir_is_dirty`, `pagedir_is_accessed` and `pagedir_is_writable`, by the bit they test. */
    method TestFlag(vpage: nat, k: nat) returns (r: bool)
      requires Valid() && vpage < WORD && (k == D || k == A || k == W)
      modifies this
      ensures Valid() && pd == old(pd) && tables == old(tables)
      ensures r == Bit(Pte(vpage / PGSIZE), k)
      ensures Entry(vpage / PGSIZE).Some? ==>
                var m := Entry(vpage / PGSIZE).value; r == if k == D then m.dirty else if k == A then m.accessed else m.writable
    {
      hide Bit;
      var slot := LookupPage(vpage, false, None);
      ZeroBits(k);
      r := false;
      if slot.Some? {
        var pte := Load(slot.value);
        MaskTest(pte, k);
        r := And(pte, Pow2(k)) != 0;
      }
    }

    /** `pagedir_set_dirty` and `pagedir_set_accessed`: one flag of one page, whose frame and other flags stay. */
    method SetFlag(vpage: nat, k: nat, flag: bool)
      requires Valid() && vpage < WORD && (k == D || k == A)
      modifies this
      ensures Valid() && Others(vpage / PGSIZE) && pd == old(pd)
      ensures Entry(vpage / PGSIZE) == match old(Entry(vpage / PGSIZE))
                                       case Some(m) => Some(if k == D then m.(dirty := flag) else m.(accessed := flag))
                                       case None => None
      ensures Pte(vpage / PGSIZE) / PGSIZE == old(Pte(vpage / PGSIZE)) / PGSIZE
      ensures forall j: nat :: j != k ==> Bit(Pte(vpage / PGSIZE), j) == Bit(old(Pte(vpage / PGSIZE)), j)
      ensures pd[vpage / PGSIZE / 1024] != 0 ==> Bit(Pte(vpage / PGSIZE), k) == flag
    {
      hide Bit, And, Or, AndNot;
      var slot := LookupPage(vpage, false, None);
      ZeroBits(P);
      if slot.Some? {
        var pte := Load(slot.value);
        SetBit(pte, k);
        ClearBit(pte, k);
        var w := if flag then Or(pte, Pow2(k)) else AndNot(pte, Pow2(k));
        SameAddress(w, pte);
        Store(vpage, slot.value, w);
      }
    }
  }

  lemma Offset(va: nat)
    ensures And(va, 4095) == va % PGSIZE
  {
    Powers();
    MaskIsMod(va, 12);
  }
}
