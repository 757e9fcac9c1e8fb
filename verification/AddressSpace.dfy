/** How the operations of vm.c change page tables and the ownership of pages, step by step. */
module AddressSpace {
  import opened Ranges
  import opened Blocks
  import opened PageTable
  import opened FreePages

  const EXTMEM: nat := 0x10_0000
  const PHYSTOP: nat := 0xE00_0000
  const DEVSPACE: nat := 0xFE00_0000

  /** PGROUNDUP(x) / PGSIZE: the least number of pages with room for x bytes. */
  function PagesUp(x: nat): (n: nat)
    ensures x <= n * 4096 < x + 4096
  {
    (x + PGSIZE - 1) / PGSIZE
  }

  // ---- the kernel's mappings ----

  /** kernel.ld aligns `data` to a page; it follows KERNLINK. */
  predicate DataAddress(data: nat) { data % PGSIZE == 0 && EXTMEM < data < PHYSTOP }

  datatype Kmap = Kmap(virt: nat, start: nat, end: nat, perm: nat)

  /** The table kmap[] */
  function KmapTable(data: nat): seq<Kmap> {
    [ Kmap(KERNBASE, 0, EXTMEM, PTE_W),
      Kmap(KERNBASE + EXTMEM, EXTMEM, data, 0),
      Kmap(KERNBASE + data, data, PHYSTOP, PTE_W),
      Kmap(DEVSPACE, DEVSPACE, 0, PTE_W) ]
  }

  /**
   * What every page table holds above KERNBASE: physical memory from 0 to PHYSTOP, read-only between
   * EXTMEM and data, and the devices mapped to themselves.
   */
  function KernelEntry(data: nat, v: nat): Word32 {
    if v < UPAGES || v >= VPAGES then 0
    else if EXTMEM / PGSIZE <= v - UPAGES < data / PGSIZE then Pack(v - UPAGES, 1)
    else if v < UPAGES + NPAGES then Pack(v - UPAGES, PTE_W + 1)
    else if v < DEVSPACE / PGSIZE then 0
    else Pack(v, PTE_W + 1)
  }

  /** The virtual pages that the first k rows of kmap[] decide. */
  function KmapBound(data: nat, k: nat): nat {
    if k == 0 then UPAGES
    else if k == 1 then UPAGES + EXTMEM / PGSIZE
    else if k == 2 then UPAGES + data / PGSIZE
    else if k == 3 then DEVSPACE / PGSIZE
    else VPAGES
  }

  /** The last virtual page of row k. */
  function KmapLast(data: nat, k: nat): int {
    if k == 0 then UPAGES + EXTMEM / PGSIZE - 1
    else if k == 1 then UPAGES + data / PGSIZE - 1
    else if k == 2 then UPAGES + NPAGES - 1
    else VPAGES - 1
  }

  ghost predicate KernelUpTo(mem: seq<Page>, d: nat, data: nat, n: nat) {
    forall v: nat | v < VPAGES :: Entry(mem, d, v) == if v < n then KernelEntry(data, v) else 0
  }

  // ---- how ownership changes ----

  /** Only page tables of d are added. */
  ghost predicate Extends(owner: map<nat, Owner>, owner': map<nat, Owner>, d: nat) {
    && (forall p | p in owner :: Has(owner', p, owner[p]))
    && forall p | p in owner' && p !in owner :: owner'[p].Table? && owner'[p].d == d
  }

  /** Page tables of d are added, and held pages may become user pages of d. */
  ghost predicate Handed(owner: map<nat, Owner>, owner': map<nat, Owner>, d: nat) {
    && (forall p | p in owner :: p in owner'
         && (owner'[p] == owner[p] || (owner[p] == Held && owner'[p].User? && owner'[p].d == d)))
    && forall p | p in owner' && p !in owner :: owner'[p].Table? && owner'[p].d == d
  }

  ghost function AllHeld(lo: nat): (owner: map<nat, Owner>)
    requires lo <= NPAGES
    ensures forall p | p in owner :: lo <= p < NPAGES && owner[p] == Held
    ensures forall p | lo <= p < NPAGES :: p in owner
    decreases NPAGES - lo
  {
    if lo == NPAGES then map[] else AllHeld(lo + 1)[lo := Held]
  }

  /** The owned pages outside lo..hi. */
  ghost function WithoutPages(owner: map<nat, Owner>, lo: nat, hi: nat): map<nat, Owner> {
    map p | p in owner && !(lo <= p < hi) :: owner[p]
  }

  /** The owned pages other than d's user pages v with lo <= v < hi. */
  ghost function Unmapped(owner: map<nat, Owner>, d: nat, lo: nat, hi: nat): map<nat, Owner> {
    map p | p in owner && !(owner[p].User? && owner[p].d == d && lo <= owner[p].v < hi) :: owner[p]
  }

  /** The owned pages that are not d, a page table of d or a user page of d. */
  ghost function WithoutSpace(owner: map<nat, Owner>, d: nat): map<nat, Owner> {
    map p | p in owner && !Structure(owner, d, p) && !(owner[p].User? && owner[p].d == d) :: owner[p]
  }

  // ---- how many pages an operation needs ----

  /** The end of the page tables that the virtual pages first..v-1 use. */
  function TableEnd(first: nat, v: nat): nat { if v <= first then first / 1024 else (v - 1) / 1024 + 1 }

  /** Page v is in the last page table so far or in the next one. */
  lemma NextTable(first: nat, v: nat, tables: set<nat>)
    requires first <= v
    ensures tables + Range(first / 1024, TableEnd(first, v)) + {v / 1024} ==
            tables + Range(first / 1024, TableEnd(first, v + 1))
  {
    assert Range(first / 1024, TableEnd(first, v + 1)) == Range(first / 1024, TableEnd(first, v)) + {v / 1024};
  }

  /** Page tables that stop before page v are fewer than those for all pages up to last. */
  lemma TablesShort(first: nat, v: nat, last: nat, tables: set<nat>, had: set<nat>)
    requires first <= v <= last && tables == had + Range(first / 1024, TableEnd(first, v)) && v / 1024 !in tables
    ensures tables < had + Range(first / 1024, TableEnd(first, last + 1))
  {
    assert v / 1024 in Range(first / 1024, TableEnd(first, last + 1));
  }

  lemma NoTableAt(mem: seq<Page>, d: nat, v: nat)
    requires !Present(WordAt(mem, d, v / 1024))
    ensures v / 1024 !in Tables(mem, d)
  {
  }

  lemma NoTables(first: nat, tables: set<nat>)
    ensures tables + Range(first / 1024, TableEnd(first, first)) == tables
  {
  }

  /** The page tables of the kernel's mappings. */
  ghost function KernelTables(): set<nat> { Range(512, 568) + Range(1016, 1024) }

  /** Those of the first k rows of kmap[]. */
  ghost function KmapTables(data: nat, k: nat): set<nat>
    requires DataAddress(data)
  {
    if k == 0 then {}
    else KmapTables(data, k - 1) + Range(KmapBound(data, k - 1) / 1024, KmapLast(data, k - 1) / 1024 + 1)
  }

  /** The pages that setupkvm() needs: the directory and its page tables. */
  const SETUP_PAGES: nat := 65

  lemma KernelTablesCard()
    ensures |KernelTables()| + 1 == SETUP_PAGES
  {
    hide Range;
    RangeCard(512, 568);
    RangeCard(1016, 1024);
    assert Range(512, 568) !! Range(1016, 1024);
  }

  lemma KmapTablesStep(mem: seq<Page>, d: nat, data: nat, k: nat)
    requires DataAddress(data) && k < 4 && Tables(mem, d) == KmapTables(data, k)
    ensures var e := KmapTable(data)[k]; var size := (e.end - e.start) % WORD_LIMIT;
            TablesWith(mem, d, e.virt / PGSIZE, (e.virt + size - 1) / PGSIZE) == KmapTables(data, k + 1)
  {
    hide Tables, Range, KmapBound, KmapLast, KmapTable;
    KmapRange(data, k);
  }

  lemma {:induction false} KmapTablesGrow(data: nat, k: nat)
    requires DataAddress(data) && k <= 4
    ensures KmapTables(data, k) <= KmapTables(data, 4)
    decreases 4 - k
  {
    hide Range, TableEnd;
    if k < 4 {
      KmapTablesGrow(data, k + 1);
    }
  }

  lemma KmapTablesAll(data: nat)
    requires DataAddress(data)
    ensures KmapTables(data, 0) == {} && KmapTables(data, 4) == KernelTables()
  {
    hide Range;
    var last, next := (UPAGES + data / PGSIZE - 1) / 1024, (UPAGES + data / PGSIZE) / 1024;
    assert KmapTables(data, 1) == KmapTables(data, 0) + Range(512, 513);
    assert KmapTables(data, 2) == KmapTables(data, 1) + Range(512, last + 1);
    assert KmapTables(data, 3) == KmapTables(data, 2) + Range(next, 568);
    assert KmapTables(data, 4) == KmapTables(data, 3) + Range(1016, 1024);
    Joined(last, next);
  }

  lemma Joined(last: nat, next: nat)
    requires 512 <= last <= next <= last + 1 <= 568
    ensures Range(512, 513) + Range(512, last + 1) + Range(next, 568) == Range(512, 568)
  {
    hide Range;
  }

  /** A new directory has no page tables. */
  lemma NoTablesYet(mem: seq<Page>, d: nat)
    requires d < |mem|
    ensures Tables(mem[d := Filled(0)], d) == {}
  {
  }

  /** Pages and page tables used so far, with v - first pages mapped, add up. */
  ghost predicate Budget(free0: nat, free: nat, had: set<nat>, tables: set<nat>, first: nat, v: nat) {
    && first <= v && free + |tables| + v - first == free0 + |had|
    && tables == had + Range(first / 1024, TableEnd(first, v))
  }

  /** The pages that mapping the user pages first..hi-1 takes: themselves and the page tables still missing. */
  ghost function GrowPages(had: set<nat>, first: nat, hi: nat): int {
    hi - first + |had + Range(first / 1024, TableEnd(first, hi))| - |had|
  }

  lemma BudgetStart(free: nat, had: set<nat>, first: nat)
    ensures Budget(free, free, had, had, first, first)
  {
    NoTables(first, had);
  }

  lemma OneTable(v: nat)
    ensures Range(v / 1024, TableEnd(v, v + 1)) == {v / 1024}
  {
  }

  lemma BudgetStep(free0: nat, free: nat, free': nat, had: set<nat>, tables: set<nat>, tables': set<nat>, first: nat,
                   v: nat)
    requires Budget(free0, free, had, tables, first, v) && free > 0
    requires tables' == tables + Range(v / 1024, TableEnd(v, v + 1)) && free' + |tables'| == free - 1 + |tables|
    ensures Budget(free0, free', had, tables', first, v + 1)
  {
    hide Range, TableEnd;
    OneTable(v);
    NextTable(first, v, had);
  }

  lemma GrowMore(had: set<nat>, first: nat, u: nat, v: nat)
    requires first <= u <= v
    ensures GrowPages(had, first, v) >= GrowPages(had, first, u) + v - u
  {
    hide Range;
    SmallerSet(had + Range(first / 1024, TableEnd(first, u)), had + Range(first / 1024, TableEnd(first, v)));
  }

  /** No page is left for page v. */
  lemma BudgetEmpty(free0: nat, had: set<nat>, tables: set<nat>, first: nat, v: nat, hi: nat)
    requires Budget(free0, 0, had, tables, first, v) && v < hi
    ensures GrowPages(had, first, v) <= free0 < GrowPages(had, first, v + 1) <= GrowPages(had, first, hi)
  {
    hide Range, TableEnd;
    GrowMore(had, first, v, v + 1);
    GrowMore(had, first, v + 1, hi);
  }

  /** There is a page for page v, but none for its page table. */
  lemma BudgetNoTable(free0: nat, free: nat, had: set<nat>, tables: set<nat>, tables': set<nat>, first: nat, v: nat,
                      hi: nat)
    requires Budget(free0, free, had, tables, first, v) && v < hi && free > 0 && tables <= tables'
    requires tables' < tables + Range(v / 1024, TableEnd(v, v + 1)) && |tables'| == free - 1 + |tables|
    ensures GrowPages(had, first, v) <= free0 < GrowPages(had, first, v + 1) <= GrowPages(had, first, hi)
    ensures tables' == tables && free == 1
  {
    hide Range, TableEnd;
    OneTable(v);
    var more := tables + {v / 1024};
    SmallerSet(tables', more);
    SmallerSet(tables, tables');
    NextTable(first, v, had);
    assert more == had + Range(first / 1024, TableEnd(first, v + 1));
    assert v / 1024 in tables ==> more == tables;
    GrowMore(had, first, v + 1, hi);
  }

  /** n free pages are enough to map the pages from first up to and including v. */
  ghost predicate Reaches(had: set<nat>, first: nat, v: nat, n: nat) { GrowPages(had, first, v + 1) <= n }

  /** The page tables of the pages that n free pages reach on the way from first to hi. */
  ghost function TablesReached(had: set<nat>, first: nat, hi: nat, n: nat): set<nat> {
    set v: nat | first <= v < hi && Reaches(had, first, v, n) :: v / 1024
  }

  lemma ReachedUpTo(had: set<nat>, first: nat, v: nat, hi: nat, n: nat)
    requires first <= v < hi && GrowPages(had, first, v) <= n < GrowPages(had, first, v + 1)
    ensures TablesReached(had, first, hi, n) == Range(first / 1024, TableEnd(first, v))
  {
    hide Range, GrowPages;
    forall u: nat | first <= u < hi ensures Reaches(had, first, u, n) <==> u < v {
      if u < v {
        GrowMore(had, first, u + 1, v);
      } else {
        GrowMore(had, first, v + 1, u + 1);
      }
    }
    forall i | i in Range(first / 1024, TableEnd(first, v)) ensures i in TablesReached(had, first, hi, n) {
      var u := if i * 1024 < first then first else i * 1024;
      assert first <= u < v && u / 1024 == i && Reaches(had, first, u, n);
    }
  }

  lemma BudgetTables(free0: nat, free: nat, had: set<nat>, tables: set<nat>, first: nat, v: nat)
    requires Budget(free0, free, had, tables, first, v)
    ensures free0 == free + |tables| + v - first - |had| && tables == had + Range(first / 1024, TableEnd(first, v))
  {
  }

  lemma BudgetDone(free0: nat, free: nat, had: set<nat>, tables: set<nat>, first: nat, hi: nat)
    requires Budget(free0, free, had, tables, first, hi)
    ensures free == free0 - GrowPages(had, first, hi) && tables == TablesOver(had, first, hi)
  {
  }

  /** The page tables had, and those that the virtual pages first..hi-1 use. */
  ghost function TablesOver(had: set<nat>, first: nat, hi: nat): set<nat> {
    had + Range(first / 1024, TableEnd(first, hi))
  }

  /** The pages that copying n user pages takes. */
  function CopyPages(n: nat): nat { SETUP_PAGES + n + (n + 1023) / 1024 }

  lemma CopyNeeds(n: nat)
    requires n <= UPAGES
    ensures SETUP_PAGES + GrowPages(KernelTables(), 0, n) == CopyPages(n)
  {
    hide Range;
    RangeCard(0, TableEnd(0, n));
    assert KernelTables() !! Range(0, TableEnd(0, n));
  }

  lemma TablesElsewhere(mem: seq<Page>, d: nat, p: nat, x: Page)
    requires p < |mem| && p != d
    ensures Tables(mem[p := x], d) == Tables(mem, d)
  {
    assert forall i: nat :: WordAt(mem[p := x], d, i) == WordAt(mem, d, i);
  }

  /** The page tables of d once the virtual pages first..last have theirs. */
  ghost function TablesWith(mem: seq<Page>, d: nat, first: nat, last: nat): set<nat> {
    Tables(mem, d) + Range(first / 1024, TableEnd(first, last + 1))
  }

  lemma TablesThenTables(mem: seq<Page>, mem1: seq<Page>, mem2: seq<Page>, owner: map<nat, Owner>,
                         owner1: map<nat, Owner>, d: nat)
    requires OnlyTables(mem, mem1, owner, d) && OnlyTables(mem1, mem2, owner1, d) && Handed(owner, owner1, d)
    ensures OnlyTables(mem, mem2, owner, d)
  {
    forall p | p in owner && !Structure(owner, d, p) ensures mem2[p] == mem[p] {
      assert !Structure(owner1, d, p);
    }
  }

  /** The page table of v, where there is one, is owned as such. */
  lemma TableOwned(mem: seq<Page>, owner: map<nat, Owner>, d: nat, v: nat)
    requires Owned(mem, owner) && IsDir(owner, d) && v < VPAGES
    ensures d < |mem| && WordAt(mem, d, v / 1024) == mem[d][v / 1024]
    ensures Present(WordAt(mem, d, v / 1024)) ==> HasTable(mem, owner, d, v)
    ensures !Present(WordAt(mem, d, v / 1024)) ==> Entry(mem, d, v) == 0
    ensures Walked(mem, mem, owner, owner, d)
  {
  }

  /** Walking to an entry may add page tables to d; it maps and unmaps nothing. */
  ghost predicate Walked(mem: seq<Page>, mem': seq<Page>, owner: map<nat, Owner>, owner': map<nat, Owner>, d: nat) {
    Extends(owner, owner', d) && OnlyTables(mem, mem', owner, d) && SameMaps(mem, mem', owner)
  }

  ghost predicate SameMaps(mem: seq<Page>, mem': seq<Page>, owner: map<nat, Owner>) {
    forall d, v: nat | IsDir(owner, d) && v < VPAGES :: Entry(mem', d, v) == Entry(mem, d, v)
  }

  lemma TableWalked(mem: seq<Page>, mem': seq<Page>, owner: map<nat, Owner>, d: nat, i: nat, t: nat)
    requires t !in owner && IsDir(owner, d) && OnlyTables(mem, mem', owner[t := Table(d, i)], d)
    requires forall d', v: nat | IsDir(owner[t := Held], d') && v < VPAGES :: Entry(mem', d', v) == Entry(mem, d', v)
    ensures Walked(mem, mem', owner, owner[t := Table(d, i)], d)
  {
    hide Entry;
    forall d', v: nat | IsDir(owner, d') && v < VPAGES ensures Entry(mem', d', v) == Entry(mem, d', v) {
      assert IsDir(owner[t := Held], d');
    }
    var owner' := owner[t := Table(d, i)];
    forall p | p in owner ensures p < |mem| && (!Structure(owner, d, p) ==> mem'[p] == mem[p]) {
      assert p in owner' && owner'[p] == owner[p];
      assert Structure(owner', d, p) == Structure(owner, d, p);
    }
  }

  lemma NewTable(lo: nat, mem: seq<Page>, head: Word32, free: seq<nat>, owner: map<nat, Owner>, d: nat, v: nat,
                 t: nat, pde: Word32)
    requires t < |mem| && d < |mem|
    requires Pool(lo, mem, head, free, owner[t := Held]) && Owned(mem, owner[t := Held])
    requires t !in owner && IsDir(owner, d) && v < VPAGES && !Present(WordAt(mem, d, v / 1024))
    requires PointsTo(pde, t) && Flags(pde) == 7
    ensures var mem', owner' := mem[t := Filled(0)][d := mem[d][v / 1024 := pde]], owner[t := Table(d, v / 1024)];
            && Pool(lo, mem', head, free, owner') && Owned(mem', owner') && Walked(mem, mem', owner, owner', d)
            && HasTable(mem', owner', d, v) && TablePage(mem', d, v) == t
            && Tables(mem', d) == Tables(mem, d) + {v / 1024} && v / 1024 !in Tables(mem, d)
  {
    var i := v / 1024;
    var owner1, owner' := owner[t := Held], owner[t := Table(d, i)];
    AddTable(mem, owner1, d, i, t, pde);
    assert owner1[t := Table(d, i)] == owner';
    TableWalked(mem, mem[t := Filled(0)][d := mem[d][i := pde]], owner, d, i, t);
    OwnedWrite(lo, mem, head, free, owner1, owner1, t, Filled(0));
    OwnedWrite(lo, mem[t := Filled(0)], head, free, owner1, owner', d, mem[d][i := pde]);
  }

  lemma FreedOne(mem: seq<Page>, mem1: seq<Page>, owner: map<nat, Owner>, lo: nat, p: nat, x: Page)
    requires lo <= p && p in owner && SamePages(mem, mem1, WithoutPages(owner, lo, p))
    ensures p in WithoutPages(owner, lo, p) && WithoutPages(owner, lo, p) - {p} == WithoutPages(owner, lo, p + 1)
    ensures SamePages(mem, mem1[p := x], WithoutPages(owner, lo, p + 1))
  {
    assert forall q | q in WithoutPages(owner, lo, p + 1) :: q in WithoutPages(owner, lo, p);
  }

  lemma NoPageZero(lo: nat, mem: seq<Page>, head: Word32, free: seq<nat>, owner: map<nat, Owner>)
    requires Pool(lo, mem, head, free, owner)
    ensures 0 !in owner && |mem| == NPAGES
  {
  }

  lemma OwnedInMemory(mem: seq<Page>, owner: map<nat, Owner>)
    requires Owned(mem, owner)
    ensures forall p | p in owner :: p < |mem|
  {
  }

  lemma HeldOwned(mem: seq<Page>, owner: map<nat, Owner>, p: nat)
    requires Owned(mem, owner) && p !in owner && p < |mem|
    ensures Owned(mem, owner[p := Held])
  {
    hide Entry, WordAt;
    var owner' := owner[p := Held];
    forall q | q in owner' ensures Backed(mem, owner', q) {
      assert q != p ==> Backed(mem, owner, q);
    }
  }

  lemma HeldGone(mem: seq<Page>, mem': seq<Page>, owner: map<nat, Owner>, owner': map<nat, Owner>)
    requires Owned(mem, owner) && SamePages(mem, mem', owner')
    requires forall p | p in owner' :: Has(owner, p, owner'[p])
    requires forall p | p in owner && p !in owner' :: owner[p] == Held
    ensures Owned(mem', owner')
  {
    assert Owned(mem, owner') by {
      forall q | q in owner' ensures Backed(mem, owner', q) {
        assert Backed(mem, owner, q);
      }
      forall d: nat, v: nat | IsDir(owner', d) && v < UPAGES && Present(Entry(mem, d, v))
        ensures Has(owner', Frame(Entry(mem, d, v)), User(d, v))
      {
        assert Has(owner, Frame(Entry(mem, d, v)), User(d, v));
      }
    }
    OwnedKept(mem, mem', owner');
  }

  // ---- mapping a range ----

  ghost predicate Unused(mem: seq<Page>, d: nat, v: nat, last: nat) {
    forall v': nat | v <= v' <= last :: !Present(Entry(mem, d, v'))
  }

  /** The physical pages p..last below limit are held. */
  ghost predicate HeldPages(owner: map<nat, Owner>, p: nat, last: int, limit: int) {
    forall q: nat | p <= q <= last && q < limit :: Has(owner, q, Held)
  }

  /** Exactly the pages first..upto of d are mapped, to consecutive frames; no other entry changes. */
  ghost predicate MapsTo(mem: seq<Page>, mem': seq<Page>, owner: map<nat, Owner>, d: nat, first: nat, upto: nat,
                         frame: nat, perm: nat) {
    && perm < PGSIZE && first <= upto && frame + upto - first <= VPAGES
    && forall d', v: nat | IsDir(owner, d') && v < VPAGES ::
         Entry(mem', d', v) ==
           if d' == d && first <= v < upto then MakeEntry(frame + v - first, perm) else Entry(mem, d', v)
  }

  ghost predicate Mapping(mem: seq<Page>, mem': seq<Page>, owner: map<nat, Owner>, owner': map<nat, Owner>, d: nat,
                          first: nat, upto: nat, frame: nat, perm: nat) {
    Handed(owner, owner', d) && OnlyTables(mem, mem', owner, d) && MapsTo(mem, mem', owner, d, first, upto, frame, perm)
  }

  lemma MappingStart(mem: seq<Page>, owner: map<nat, Owner>, d: nat, first: nat, frame: nat, perm: nat)
    requires Owned(mem, owner) && perm < PGSIZE && frame <= VPAGES
    ensures Mapping(mem, mem, owner, owner, d, first, first, frame, perm)
  {
  }

  lemma MappingWalked(mem: seq<Page>, mem1: seq<Page>, mem2: seq<Page>, owner: map<nat, Owner>,
                      owner1: map<nat, Owner>, owner2: map<nat, Owner>, d: nat, first: nat, v: nat, frame: nat,
                      perm: nat, p: nat, lastp: int, limit: int)
    requires Mapping(mem, mem1, owner, owner1, d, first, v, frame, perm) && Walked(mem1, mem2, owner1, owner2, d)
    requires IsDir(owner1, d) && HeldPages(owner1, p, lastp, limit)
    ensures Mapping(mem, mem2, owner, owner2, d, first, v, frame, perm)
    ensures IsDir(owner2, d) && HeldPages(owner2, p, lastp, limit)
  {
    hide Entry, MakeEntry, Structure;
    TablesThenTables(mem, mem1, mem2, owner, owner1, d);
    forall q: nat | p <= q <= lastp && q < limit ensures Has(owner2, q, Held) {
      assert Has(owner1, q, Held);
    }
  }

  /** The entry at v is still what it was before the mapping began. */
  lemma NotYetMapped(mem: seq<Page>, mem1: seq<Page>, owner: map<nat, Owner>, owner1: map<nat, Owner>, d: nat,
                     first: nat, v: nat, frame: nat, perm: nat)
    requires Mapping(mem, mem1, owner, owner1, d, first, v, frame, perm) && IsDir(owner, d) && v < VPAGES
    requires HasTable(mem1, owner1, d, v) && Clear(mem, d, first, v)
    ensures TablePage(mem1, d, v) < |mem1| && mem1[TablePage(mem1, d, v)][v % 1024] == Entry(mem, d, v)
    ensures Entry(mem1, d, v) == Entry(mem, d, v)
    ensures !Present(Entry(mem, d, v)) ==> Clear(mem, d, first, v + 1)
  {
    hide Entry;
    ReadEntry(mem1, owner1, d, v);
  }

  lemma NoEntry(mem: seq<Page>, mem1: seq<Page>, owner: map<nat, Owner>, owner1: map<nat, Owner>, d: nat,
                first: nat, v: nat, frame: nat, perm: nat)
    requires Mapping(mem, mem1, owner, owner1, d, first, v, frame, perm) && IsDir(owner, d) && v < VPAGES
    requires !Present(WordAt(mem1, d, v / 1024))
    ensures !Present(Entry(mem, d, v))
  {
    assert Entry(mem1, d, v) == Entry(mem, d, v);
  }

  /** No page of lo..hi-1 is mapped. */
  ghost predicate Clear(mem: seq<Page>, d: nat, lo: nat, hi: nat) {
    forall u: nat | lo <= u < hi :: !Present(Entry(mem, d, u))
  }

  lemma UnusedClear(mem: seq<Page>, d: nat, v: nat, last: nat)
    ensures Clear(mem, d, v, v)
    ensures forall u: nat | v <= u <= last && Unused(mem, d, v, last) :: !Present(Entry(mem, d, u))
  {
    hide Entry;
  }

  lemma MapOne(lo: nat, mem: seq<Page>, head: Word32, free: seq<nat>, owner: map<nat, Owner>, d: nat, v: nat,
               p: nat, lastp: int, perm: nat)
    requires HasTable(mem, owner, d, v) && v < VPAGES && p < VPAGES && perm < PGSIZE
    requires Pool(lo, mem, head, free, owner) && Owned(mem, owner) && !Present(Entry(mem, d, v))
    requires p <= lastp && HeldPages(owner, p, lastp, p + UPAGES - v)
    ensures var mem' := WriteEntry(mem, owner, d, v, MakeEntry(p, perm));
            var owner' := if v < UPAGES then owner[p := User(d, v)] else owner;
            && Pool(lo, mem', head, free, owner') && Owned(mem', owner')
            && Remapped(mem, mem', owner, d, v, MakeEntry(p, perm)) && OnlyTables(mem, mem', owner, d)
            && Handed(owner, owner', d) && IsDir(owner', d)
            && HeldPages(owner', p + 1, lastp, p + UPAGES - v)
            && Tables(mem', d) == Tables(mem, d)
  {
    hide Owned, Pool, Entry, WordAt, MakeEntry;
    var e := MakeEntry(p, perm);
    assert Has(owner, p, Held) || v >= UPAGES;
    var t := TablePage(mem, d, v);
    WriteRemaps(mem, owner, d, v, e);
    MapPage(mem, owner, d, v, e);
    var owner' := if v < UPAGES then owner[p := User(d, v)] else owner;
    assert owner'.Keys == owner.Keys;
    OwnedWrite(lo, mem, head, free, owner, owner', t, mem[t][v % 1024 := e]);
    assert Handed(owner, owner', d);
    forall q: nat | p + 1 <= q <= lastp && q < p + UPAGES - v ensures Has(owner', q, Held) {
      assert Has(owner, q, Held);
    }
  }

  lemma MappingMore(mem: seq<Page>, mem1: seq<Page>, mem2: seq<Page>, owner: map<nat, Owner>, owner1: map<nat, Owner>,
                    owner2: map<nat, Owner>, d: nat, first: nat, v: nat, frame: nat, perm: nat)
    requires Mapping(mem, mem1, owner, owner1, d, first, v, frame, perm) && frame + v - first < VPAGES &&
             IsDir(owner1, d)
    requires Remapped(mem1, mem2, owner1, d, v, MakeEntry(frame + v - first, perm))
    requires OnlyTables(mem1, mem2, owner1, d) && Handed(owner1, owner2, d)
    ensures Mapping(mem, mem2, owner, owner2, d, first, v + 1, frame, perm)
  {
    hide Entry, MakeEntry, Structure;
    TablesThenTables(mem, mem1, mem2, owner, owner1, d);
  }

  // ---- unmapping a range ----

  /** Exactly the pages lo..hi of d are unmapped and given back. */
  ghost predicate Dealloced(mem: seq<Page>, mem': seq<Page>, owner: map<nat, Owner>, owner': map<nat, Owner>, d: nat,
                            lo: nat, hi: nat) {
    && owner' == Unmapped(owner, d, lo, hi) && OnlyTables(mem, mem', owner', d)
    && forall d', v: nat | IsDir(owner, d') && v < VPAGES ::
         Entry(mem', d', v) == if d' == d && lo <= v < hi && Present(Entry(mem, d, v)) then 0 else Entry(mem, d', v)
  }

  /** How many of the pages lo..hi-1 of d are mapped. */
  ghost function Mapped(mem: seq<Page>, d: nat, lo: nat, hi: nat): nat
    decreases hi
  {
    if hi <= lo then 0 else Mapped(mem, d, lo, hi - 1) + if Present(Entry(mem, d, hi - 1)) then 1 else 0
  }

  lemma NoneMapped(mem: seq<Page>, d: nat, lo: nat, hi: nat)
    requires hi <= lo
    ensures Mapped(mem, d, lo, hi) == 0
  {
  }

  lemma {:induction false} MappedNone(mem: seq<Page>, d: nat, lo: nat, v: nat, w: nat)
    requires lo <= v <= w && forall u: nat | v <= u < w :: !Present(Entry(mem, d, u))
    ensures Mapped(mem, d, lo, w) == Mapped(mem, d, lo, v)
    decreases w
  {
    hide Entry;
    if v < w {
      MappedNone(mem, d, lo, v, w - 1);
    }
  }

  lemma {:induction false} MappedAll(mem: seq<Page>, d: nat, lo: nat, v: nat)
    requires lo <= v && forall u: nat | lo <= u < v :: Present(Entry(mem, d, u))
    ensures Mapped(mem, d, lo, v) == v - lo
    decreases v
  {
    hide Entry;
    if lo < v {
      MappedAll(mem, d, lo, v - 1);
    }
  }

  lemma DeallocStart(mem: seq<Page>, owner: map<nat, Owner>, d: nat, lo: nat)
    requires Owned(mem, owner)
    ensures Dealloced(mem, mem, owner, owner, d, lo, lo)
  {
  }

  lemma DeallocEmpty(mem: seq<Page>, owner: map<nat, Owner>, d: nat, lo: nat, hi: nat)
    requires Dealloced(mem, mem, owner, owner, d, lo, lo) && hi <= lo
    ensures Dealloced(mem, mem, owner, owner, d, lo, hi)
  {
    assert Unmapped(owner, d, lo, hi) == owner;
  }

  lemma NoTable(mem: seq<Page>, d: nat, v: nat, last: int)
    requires !Present(WordAt(mem, d, v / 1024)) && last <= v / 1024 * 1024 + 1023
    ensures forall v': nat | v <= v' <= last :: !Present(Entry(mem, d, v'))
  {
    forall v': nat | v <= v' <= last ensures !Present(Entry(mem, d, v')) {
      assert v' / 1024 == v / 1024;
    }
  }

  lemma ReadEntry(mem: seq<Page>, owner: map<nat, Owner>, d: nat, v: nat)
    requires HasTable(mem, owner, d, v)
    ensures TablePage(mem, d, v) < |mem| && mem[TablePage(mem, d, v)][v % 1024] == Entry(mem, d, v)
  {
  }

  lemma DeallocAbsent(mem: seq<Page>, mem1: seq<Page>, owner: map<nat, Owner>, owner1: map<nat, Owner>, d: nat,
                      lo: nat, v: nat, w: nat)
    requires Dealloced(mem, mem1, owner, owner1, d, lo, v) && Owned(mem1, owner1) && IsDir(owner, d)
    requires lo <= v < w <= UPAGES && forall v': nat | v <= v' <= w - 1 :: !Present(Entry(mem1, d, v'))
    ensures Dealloced(mem, mem1, owner, owner1, d, lo, w) && Mapped(mem, d, lo, w) == Mapped(mem, d, lo, v)
  {
    hide Entry, TablesOwned, UsersOwned, Structure;
    MappedNone(mem, d, lo, v, w);
    forall p | p in owner1 ensures !(owner1[p].User? && owner1[p].d == d && v <= owner1[p].v < w) {
      assert Backed(mem1, owner1, p);
    }
    assert owner1 == Unmapped(owner, d, lo, w);
  }

  lemma DeallocOne(mem: seq<Page>, mem1: seq<Page>, owner: map<nat, Owner>, owner1: map<nat, Owner>, d: nat, lo: nat,
                   v: nat, x: Page)
    requires Dealloced(mem, mem1, owner, owner1, d, lo, v) && Owned(mem1, owner1) && IsDir(owner1, d) &&
             lo <= v < UPAGES
    requires HasTable(mem1, owner1, d, v) && Present(Entry(mem1, d, v))
    ensures var p, t := Frame(Entry(mem1, d, v)), TablePage(mem1, d, v);
            && p in owner1 && p != t && p < |mem1| && t in owner1 && t < |mem1|
            && var mem2, owner2 := mem1[p := x][t := mem1[t][v % 1024 := 0]], owner1 - {p};
            && IsDir(owner2, d) && Owned(mem2, owner2) && Dealloced(mem, mem2, owner, owner2, d, lo, v + 1)
            && Tables(mem2, d) == Tables(mem1, d) && Mapped(mem, d, lo, v + 1) == Mapped(mem, d, lo, v) + 1
  {
    var p, t := Frame(Entry(mem1, d, v)), TablePage(mem1, d, v);
    UnmapPage(mem1, owner1, d, v, x);
    var mem2, owner2 := mem1[p := x][t := mem1[t][v % 1024 := 0]], owner1 - {p};
    assert mem2 == WriteEntry(mem1[p := x], owner2, d, v, 0);
    TablesElsewhere(mem1, d, p, x);
    TablesElsewhere(mem1[p := x], d, t, mem1[t][v % 1024 := 0]);
    assert Present(Entry(mem, d, v));
    DeallocedMore(mem, mem1, mem2, owner, owner1, d, lo, v);
  }

  lemma DeallocedMore(mem: seq<Page>, mem1: seq<Page>, mem2: seq<Page>, owner: map<nat, Owner>,
                      owner1: map<nat, Owner>, d: nat, lo: nat, v: nat)
    requires Dealloced(mem, mem1, owner, owner1, d, lo, v) && Owned(mem1, owner1) && IsDir(owner1, d) &&
             lo <= v < UPAGES
    requires Present(Entry(mem1, d, v)) && Has(owner1, Frame(Entry(mem1, d, v)), User(d, v))
    requires Remapped(mem1, mem2, owner1 - {Frame(Entry(mem1, d, v))}, d, v, 0)
    requires OnlyTables(mem1, mem2, owner1 - {Frame(Entry(mem1, d, v))}, d)
    ensures Dealloced(mem, mem2, owner, owner1 - {Frame(Entry(mem1, d, v))}, d, lo, v + 1)
  {
    hide Entry, TablesOwned, UsersOwned;
    var p := Frame(Entry(mem1, d, v));
    forall q | q in owner1 && owner1[q] == User(d, v) ensures q == p {
      assert Backed(mem1, owner1, q);
    }
    assert owner1 - {p} == Unmapped(owner, d, lo, v + 1);
  }

  // ---- freeing an address space ----

  /** The owned pages other than the first n page tables of d. */
  ghost function WithoutTables(owner: map<nat, Owner>, d: nat, n: nat): map<nat, Owner> {
    map p | p in owner && !(owner[p].Table? && owner[p].d == d && owner[p].i < n) :: owner[p]
  }

  lemma SpaceEmptied(mem: seq<Page>, mem1: seq<Page>, owner: map<nat, Owner>, owner1: map<nat, Owner>, d: nat)
    requires Dealloced(mem, mem1, owner, owner1, d, 0, UPAGES) && IsDir(owner, d) && Owned(mem1, owner1)
    ensures IsDir(owner1, d) && WithoutTables(owner1, d, 0) == owner1 && SamePages(mem1, mem1, owner1)
  {
  }

  lemma DirLive(mem1: seq<Page>, mem: seq<Page>, owner1: map<nat, Owner>, d: nat, i: nat)
    requires IsDir(owner1, d) && SamePages(mem1, mem, WithoutTables(owner1, d, i)) && i <= 1024
    ensures IsDir(WithoutTables(owner1, d, i), d) && d < |mem| == |mem1| && mem[d] == mem1[d]
    ensures i < 1024 ==> mem[d][i] == WordAt(mem1, d, i)
  {
  }

  lemma TableFreed(mem1: seq<Page>, mem: seq<Page>, owner1: map<nat, Owner>, d: nat, i: nat, x: Page)
    requires Owned(mem1, owner1) && IsDir(owner1, d) && i < 1024 && Present(WordAt(mem1, d, i))
    requires SamePages(mem1, mem, WithoutTables(owner1, d, i))
    ensures var p := Frame(WordAt(mem1, d, i));
            && p in WithoutTables(owner1, d, i) && p < |mem|
            && WithoutTables(owner1, d, i) - {p} == WithoutTables(owner1, d, i + 1)
            && SamePages(mem1, mem[p := x], WithoutTables(owner1, d, i + 1))
  {
    hide UsersOwned;
    var p := Frame(WordAt(mem1, d, i));
    assert Has(owner1, p, Table(d, i));
    forall q | q in owner1 && owner1[q] == Table(d, i) ensures q == p {
      assert Backed(mem1, owner1, q);
    }
    assert forall q | q in WithoutTables(owner1, d, i + 1) :: q in WithoutTables(owner1, d, i);
  }

  lemma TableAbsent(mem1: seq<Page>, owner1: map<nat, Owner>, d: nat, i: nat)
    requires Owned(mem1, owner1) && !Present(WordAt(mem1, d, i))
    ensures WithoutTables(owner1, d, i) == WithoutTables(owner1, d, i + 1)
  {
    forall q | q in owner1 ensures owner1[q] != Table(d, i) {
      assert Backed(mem1, owner1, q);
    }
  }

  lemma DirFreed(mem: seq<Page>, mem1: seq<Page>, mem2: seq<Page>, owner: map<nat, Owner>, owner1: map<nat, Owner>,
                 d: nat, x: Page)
    requires Owned(mem, owner) && IsDir(owner, d) && Dealloced(mem, mem1, owner, owner1, d, 0, UPAGES) &&
             Owned(mem1, owner1)
    requires SamePages(mem1, mem2, WithoutTables(owner1, d, 1024)) && d < |mem2|
    ensures WithoutTables(owner1, d, 1024) - {d} == WithoutSpace(owner, d)
    ensures Owned(mem2[d := x], WithoutSpace(owner, d)) && SamePages(mem, mem2[d := x], WithoutSpace(owner, d))
    ensures SameEntries(mem, mem2[d := x], WithoutSpace(owner, d), d)
  {
    hide Owned, Entry, SamePages, SameEntries, WithoutTables;
    SpaceOwners(mem, mem1, owner, owner1, d);
    DirPages(mem, mem1, mem2, owner, owner1, d, x);
    DropDir(mem1, mem2[d := x], owner1, d);
    DirEntries(mem, mem1, mem2[d := x], owner, owner1, d);
  }

  lemma DirPages(mem: seq<Page>, mem1: seq<Page>, mem2: seq<Page>, owner: map<nat, Owner>, owner1: map<nat, Owner>,
                 d: nat, x: Page)
    requires SamePages(mem1, mem2, WithoutTables(owner1, d, 1024)) && d < |mem2| && OnlyTables(mem, mem1, owner1, d)
    requires WithoutTables(owner1, d, 1024) - {d} == WithoutSpace(owner, d) == WithoutDir(owner1, d)
    ensures SamePages(mem1, mem2[d := x], WithoutDir(owner1, d)) && SamePages(mem, mem2[d := x], WithoutSpace(owner, d))
  {
    assert forall p | p in WithoutDir(owner1, d) :: p in WithoutTables(owner1, d, 1024) && p != d;
  }

  lemma DirEntries(mem: seq<Page>, mem1: seq<Page>, mem2: seq<Page>, owner: map<nat, Owner>, owner1: map<nat, Owner>,
                   d: nat)
    requires Dealloced(mem, mem1, owner, owner1, d, 0, UPAGES) && SameEntries(mem1, mem2, WithoutDir(owner1, d), d)
    requires WithoutSpace(owner, d) == WithoutDir(owner1, d)
    ensures SameEntries(mem, mem2, WithoutSpace(owner, d), d)
  {
    hide Entry;
  }

  lemma SpaceOwners(mem: seq<Page>, mem1: seq<Page>, owner: map<nat, Owner>, owner1: map<nat, Owner>, d: nat)
    requires Owned(mem, owner) && Owned(mem1, owner1) && owner1 == Unmapped(owner, d, 0, UPAGES)
    ensures WithoutTables(owner1, d, 1024) - {d} == WithoutSpace(owner, d) == WithoutDir(owner1, d)
  {
    forall p | p in owner1 ensures owner1[p].Table? && owner1[p].d == d ==> owner1[p].i < 1024 {
      assert Backed(mem1, owner1, p);
    }
    forall p | p in owner ensures owner[p].User? && owner[p].d == d ==> owner[p].v < UPAGES {
      assert Backed(mem, owner, p);
    }
  }

  // ---- building an address space ----

  /** d is new, only pages of d are new, and no page owned before changes. */
  ghost predicate Built(mem: seq<Page>, mem': seq<Page>, owner: map<nat, Owner>, owner': map<nat, Owner>, d: nat) {
    && d !in owner && IsDir(owner', d) && SamePages(mem, mem', owner)
    && (forall p | p in owner :: Has(owner', p, owner[p]))
    && forall p | p in owner' && p !in owner && p != d :: (owner'[p].Table? || owner'[p].User?) && owner'[p].d == d
  }

  lemma SameStart(mem: seq<Page>, owner: map<nat, Owner>)
    requires Owned(mem, owner)
    ensures SamePages(mem, mem, owner)
  {
  }

  lemma SameAgain(mem: seq<Page>, mem1: seq<Page>, mem2: seq<Page>, owner: map<nat, Owner>)
    requires SamePages(mem, mem1, owner) && SamePages(mem1, mem2, owner)
    ensures SamePages(mem, mem2, owner)
  {
  }

  lemma FreeAgain(lo: nat, mem: seq<Page>, mem': seq<Page>, head: Word32, head': Word32, free: seq<nat>,
                  free': seq<nat>, owner: map<nat, Owner>)
    requires Pool(lo, mem, head, free, owner) && Pool(lo, mem', head', free', owner)
    ensures multiset(free') == multiset(free)
  {
    SameFree(lo, free, free', owner);
  }

  lemma NewDir(lo: nat, mem: seq<Page>, head: Word32, free: seq<nat>, owner: map<nat, Owner>, d: nat, data: nat)
    requires Pool(lo, mem, head, free, owner[d := Held]) && Owned(mem, owner[d := Held]) && d !in owner && d < |mem|
    ensures var mem', owner' := mem[d := Filled(0)], owner[d := Dir];
            && Pool(lo, mem', head, free, owner') && Owned(mem', owner') && Built(mem, mem', owner, owner', d)
            && KernelUpTo(mem', d, data, KmapBound(data, 0))
  {
    var owner1, owner' := owner[d := Held], owner[d := Dir];
    AddDir(mem, owner1, d);
    assert owner1[d := Dir] == owner';
    assert forall p | p in owner :: p in owner1;
    OwnedWrite(lo, mem, head, free, owner1, owner', d, Filled(0));
  }

  lemma KmapRange(data: nat, k: nat)
    requires DataAddress(data) && k < 4
    ensures var e := KmapTable(data)[k]; var size := (e.end - e.start) % WORD_LIMIT;
            && 0 < size && e.virt + size <= WORD_LIMIT && e.start % PGSIZE == 0 && e.perm < PGSIZE
            && KmapBound(data, k) == e.virt / PGSIZE >= UPAGES && KmapLast(data, k) == (e.virt + size - 1) / PGSIZE
            && (e.virt + size - 1) / PGSIZE < KmapBound(data, k + 1) <= VPAGES
            && e.start / PGSIZE + (e.virt + size - 1) / PGSIZE - e.virt / PGSIZE < VPAGES
  {
  }

  lemma KmapUnused(mem: seq<Page>, owner: map<nat, Owner>, d: nat, data: nat, k: nat)
    requires DataAddress(data) && k < 4 && KernelUpTo(mem, d, data, KmapBound(data, k))
    ensures var e := KmapTable(data)[k]; var size := (e.end - e.start) % WORD_LIMIT;
            && Unused(mem, d, e.virt / PGSIZE, (e.virt + size - 1) / PGSIZE)
            && HeldPages(owner, e.start / PGSIZE, e.start / PGSIZE + (e.virt + size - 1) / PGSIZE - e.virt / PGSIZE,
                         e.start / PGSIZE + UPAGES - e.virt / PGSIZE)
  {
    hide Entry, KernelEntry;
    KmapRange(data, k);
  }

  /** The rows of kmap[] write the kernel entries, in order and without gaps that should be mapped. */
  lemma KmapEntries(data: nat, k: nat, v: nat)
    requires DataAddress(data) && k < 4 && KmapBound(data, k) <= v < KmapBound(data, k + 1)
    ensures var e := KmapTable(data)[k]; var size := (e.end - e.start) % WORD_LIMIT;
            KernelEntry(data, v) == if v <= (e.virt + size - 1) / PGSIZE
                                    then MakeEntry(e.start / PGSIZE + v - e.virt / PGSIZE, e.perm) else 0
  {
    if k == 0 {
      assert KmapTable(data)[0].virt == KERNBASE;
    } else if k == 1 {
      assert KmapTable(data)[1].start == EXTMEM;
    } else if k == 2 {
      assert KmapTable(data)[2].start == data;
    } else {
      assert KmapTable(data)[3].virt == DEVSPACE;
    }
  }

  /** Pages owned before d existed are not pages of d. */
  lemma NotYet(mem: seq<Page>, owner: map<nat, Owner>, d: nat)
    requires Owned(mem, owner) && d !in owner
    ensures forall p | p in owner && (owner[p].Table? || owner[p].User?) :: owner[p].d != d
  {
    forall p | p in owner && (owner[p].Table? || owner[p].User?) ensures owner[p].d != d {
      assert Backed(mem, owner, p);
    }
  }

  lemma BuiltMore(mem: seq<Page>, mem1: seq<Page>, mem2: seq<Page>, owner: map<nat, Owner>, owner1: map<nat, Owner>,
                  owner2: map<nat, Owner>, d: nat)
    requires Owned(mem, owner) && Built(mem, mem1, owner, owner1, d)
    requires Extends(owner1, owner2, d) && OnlyTables(mem1, mem2, owner1, d)
    ensures Built(mem, mem2, owner, owner2, d) && IsDir(owner2, d)
  {
    NotYet(mem, owner, d);
  }

  lemma SpaceGone(mem: seq<Page>, mem1: seq<Page>, owner: map<nat, Owner>, owner1: map<nat, Owner>, d: nat)
    requires Owned(mem, owner) && Built(mem, mem1, owner, owner1, d)
    ensures WithoutSpace(owner1, d) == owner && IsDir(owner1, d) && SamePages(mem, mem1, owner)
  {
    NotYet(mem, owner, d);
  }

  /** Mapping above KERNBASE only adds page tables. */
  lemma HandedAbove(mem1: seq<Page>, mem2: seq<Page>, owner1: map<nat, Owner>, owner2: map<nat, Owner>, d: nat)
    requires Handed(owner1, owner2, d) && Owned(mem2, owner2)
    requires forall v: nat | v < UPAGES :: !Present(Entry(mem2, d, v))
    ensures Extends(owner1, owner2, d)
  {
    hide Entry, TablesOwned, UsersOwned;
    forall p | p in owner1 ensures Has(owner2, p, owner1[p]) {
      assert Backed(mem2, owner2, p);
    }
  }

  lemma KernelMapped(mem: seq<Page>, mem1: seq<Page>, mem2: seq<Page>, owner: map<nat, Owner>,
                     owner1: map<nat, Owner>, owner2: map<nat, Owner>, d: nat, data: nat, k: nat, upto: nat)
    requires Owned(mem, owner) && Built(mem, mem1, owner, owner1, d) && Owned(mem2, owner2) && IsDir(owner1, d)
    requires DataAddress(data) && k < 4 && KernelUpTo(mem1, d, data, KmapBound(data, k))
    requires var e := KmapTable(data)[k]; var size := (e.end - e.start) % WORD_LIMIT;
             && upto <= (e.virt + size - 1) / PGSIZE + 1
             && Mapping(mem1, mem2, owner1, owner2, d, e.virt / PGSIZE, upto, e.start / PGSIZE, e.perm)
    ensures Built(mem, mem2, owner, owner2, d) && IsDir(owner2, d)
    ensures var e := KmapTable(data)[k]; var size := (e.end - e.start) % WORD_LIMIT;
            upto == (e.virt + size - 1) / PGSIZE + 1 ==> KernelUpTo(mem2, d, data, KmapBound(data, k + 1))
  {
    hide Owned, Built, Entry, KernelEntry, Handed, OnlyTables, MakeEntry;
    KmapRange(data, k);
    assert forall v: nat | v < UPAGES :: Entry(mem2, d, v) == 0 by {
      UserEmpty(data);
    }
    HandedAbove(mem1, mem2, owner1, owner2, d);
    BuiltMore(mem, mem1, mem2, owner, owner1, owner2, d);
    forall v: nat | KmapBound(data, k) <= v < KmapBound(data, k + 1) {
      KmapEntries(data, k, v);
    }
  }

  lemma UserEmpty(data: nat)
    ensures forall v: nat | v < UPAGES :: KernelEntry(data, v) == 0
  {
  }

  // ---- copying an address space ----

  /** Page v of d has the flags and the contents that page v of d0 had, in a page that was free. */
  ghost predicate CopyOf(mem: seq<Page>, mem': seq<Page>, owner: map<nat, Owner>, d0: nat, d: nat, v: nat) {
    var e, e' := Entry(mem, d0, v), Entry(mem', d, v);
    && Present(e') && Flags(e') == Flags(e) && Frame(e') !in owner
    && Frame(e) < |mem| && Frame(e') < |mem'| && mem'[Frame(e')] == mem[Frame(e)]
  }

  ghost predicate CopiedAt(mem: seq<Page>, mem': seq<Page>, owner: map<nat, Owner>, d0: nat, d: nat, data: nat,
                           n: nat, v: nat) {
    if v < n then CopyOf(mem, mem', owner, d0, d, v) else Entry(mem', d, v) == KernelEntry(data, v)
  }

  /** The first n pages are copies, and everything else is as setupkvm() makes it. */
  ghost predicate Copied(mem: seq<Page>, mem': seq<Page>, owner: map<nat, Owner>, d0: nat, d: nat, data: nat, n: nat) {
    forall v: nat | v < VPAGES :: CopiedAt(mem, mem', owner, d0, d, data, n, v)
  }

  lemma CopyStart(mem: seq<Page>, mem': seq<Page>, owner: map<nat, Owner>, owner': map<nat, Owner>, d0: nat, d: nat,
                  data: nat)
    requires KernelUpTo(mem', d, data, VPAGES)
    ensures Copied(mem, mem', owner, d0, d, data, 0) && (Built(mem, mem', owner, owner', d) ==> IsDir(owner', d))
  {
  }

  lemma ParentKept(mem: seq<Page>, mem': seq<Page>, owner: map<nat, Owner>, owner': map<nat, Owner>, d0: nat, d: nat,
                   v: nat)
    requires Owned(mem, owner) && Built(mem, mem', owner, owner', d) && IsDir(owner, d0) && v < UPAGES
    ensures IsDir(owner', d0) && Entry(mem', d0, v) == Entry(mem, d0, v)
    ensures Present(Entry(mem, d0, v)) ==>
              var p := Frame(Entry(mem, d0, v)); p < |mem| == |mem'| && mem'[p] == mem[p]
  {
    EntryKept(mem, mem', owner, d0, v);
    assert Present(Entry(mem, d0, v)) ==> Has(owner, Frame(Entry(mem, d0, v)), User(d0, v));
  }

  /** The first of the pages 0..n-1 that is not mapped, or n. */
  ghost function FirstMissing(mem: seq<Page>, d: nat, n: nat): (m: nat)
    ensures m <= n && (forall v: nat | v < m :: Present(Entry(mem, d, v))) && (m < n ==> !Present(Entry(mem, d, m)))
  {
    if n == 0 then 0
    else
      var m := FirstMissing(mem, d, n - 1);
      if m == n - 1 && Present(Entry(mem, d, m)) then n else m
  }

  /** A page taken from the free list and filled. */
  lemma TakePage(lo: nat, mem: seq<Page>, head: Word32, free: seq<nat>, owner: map<nat, Owner>, p: nat, x: Page)
    requires Pool(lo, mem, head, free, owner[p := Held]) && Owned(mem, owner[p := Held]) && p !in owner && p < |mem|
    ensures Pool(lo, mem[p := x], head, free, owner[p := Held]) && Owned(mem[p := x], owner[p := Held])
    ensures SameMaps(mem, mem[p := x], owner) && SamePages(mem, mem[p := x], owner)
  {
    hide Pool;
    var owner1 := owner[p := Held];
    assert forall q | q in owner :: q in owner1;
    HeldGone(mem, mem, owner1, owner);
    OwnedKept(mem, mem[p := x], owner);
    HeldOwned(mem[p := x], owner, p);
    OwnedWrite(lo, mem, head, free, owner1, owner1, p, x);
  }

  /** What mapping one held page at v does to ownership. */
  lemma HandedOne(mem1: seq<Page>, mem2: seq<Page>, owner1: map<nat, Owner>, owner2: map<nat, Owner>, d: nat, v: nat,
                  upto: nat, p: nat, perm: nat)
    requires Owned(mem1, owner1) && Owned(mem2, owner2) && IsDir(owner1, d) && Has(owner1, p, Held) && v < UPAGES
    requires upto <= v + 1 && Mapping(mem1, mem2, owner1, owner2, d, v, upto, p, perm) && !Present(Entry(mem1, d, v))
    ensures forall q | q in owner1 :: Has(owner2, q, if q == p && upto == v + 1 then User(d, v) else owner1[q])
    ensures forall q | q in owner2 && q !in owner1 :: owner2[q].Table? && owner2[q].d == d
  {
    hide Entry, MakeEntry, TablesOwned, OnlyTables;
    assert Entry(mem2, d, v) == if upto == v + 1 then MakeEntry(p, perm) else Entry(mem1, d, v);
    forall q | q in owner1 ensures Has(owner2, q, if q == p && upto == v + 1 then User(d, v) else owner1[q]) {
      assert Backed(mem2, owner2, q);
    }
  }

  lemma NextUnused(mem: seq<Page>, mem1: seq<Page>, mem2: seq<Page>, owner: map<nat, Owner>, owner1: map<nat, Owner>,
                   d0: nat, d: nat, data: nat, v: nat, p: nat, e: Word32)
    requires Copied(mem, mem1, owner, d0, d, data, v) && v < UPAGES && SameMaps(mem1, mem2, owner1)
    requires IsDir(owner1, d) && p !in owner1
    ensures !Present(Entry(mem2, d, v)) && Unused(mem2, d, v, v) && HeldPages(owner1[p := Held], p, p, p + UPAGES - v)
    ensures Flags(e) < PGSIZE && IsDir(owner1[p := Held], d)
  {
    hide CopyOf, Entry;
    assert CopiedAt(mem, mem1, owner, d0, d, data, v, v);
    assert Entry(mem2, d, v) == Entry(mem1, d, v) == KernelEntry(data, v) == 0;
  }

  lemma CopyFailed(mem: seq<Page>, mem1: seq<Page>, mem2: seq<Page>, mem3: seq<Page>, owner: map<nat, Owner>,
                   owner1: map<nat, Owner>, owner3: map<nat, Owner>, d: nat, v: nat, p: nat, perm: nat, x: Page)
    requires Owned(mem, owner) && Built(mem, mem1, owner, owner1, d) && SamePages(mem1, mem2, owner1) && p !in owner1
    requires Owned(mem2, owner1[p := Held]) && IsDir(owner1, d) && v < UPAGES && !Present(Entry(mem2, d, v))
    requires Mapping(mem2, mem3, owner1[p := Held], owner3, d, v, v, p, perm) && Owned(mem3, owner3) && p < |mem3|
    ensures p in owner3 && Owned(mem3[p := x], owner3 - {p}) && Built(mem, mem3[p := x], owner, owner3 - {p}, d)
    ensures IsDir(owner3 - {p}, d)
  {
    var owner2, owner4 := owner1[p := Held], owner3 - {p};
    HandedOne(mem2, mem3, owner2, owner3, d, v, v, p, perm);
    FailedOwners(owner1, owner2, owner3, d, p);
    HeldGone(mem3, mem3[p := x], owner3, owner4);
    BuiltMore(mem, mem1, mem3[p := x], owner, owner1, owner4, d);
  }

  lemma FailedOwners(owner1: map<nat, Owner>, owner2: map<nat, Owner>, owner3: map<nat, Owner>, d: nat, p: nat)
    requires p !in owner1 && owner2 == owner1[p := Held] && forall q | q in owner2 :: Has(owner3, q, owner2[q])
    requires forall q | q in owner3 && q !in owner2 :: owner3[q].Table? && owner3[q].d == d
    ensures Has(owner3, p, Held) && Extends(owner1, owner3 - {p}, d)
  {
    assert forall q :: q in owner2 <==> q in owner1 || q == p;
    assert forall q | q in owner1 :: owner2[q] == owner1[q];
  }

  lemma CopyStep(mem: seq<Page>, mem1: seq<Page>, mem2: seq<Page>, mem3: seq<Page>, owner: map<nat, Owner>,
                 owner1: map<nat, Owner>, owner3: map<nat, Owner>, d0: nat, d: nat, data: nat, v: nat, p: nat)
    requires Owned(mem, owner) && Built(mem, mem1, owner, owner1, d) && Copied(mem, mem1, owner, d0, d, data, v) &&
             Owned(mem1, owner1)
    requires v < UPAGES && IsDir(owner1, d) && p !in owner1 && Present(Entry(mem, d0, v)) &&
             Frame(Entry(mem, d0, v)) < |mem|
    requires p < |mem1| && mem2 == mem1[p := mem[Frame(Entry(mem, d0, v))]]
    requires Owned(mem2, owner1[p := Held]) && SameMaps(mem1, mem2, owner1) && SamePages(mem1, mem2, owner1) &&
             !Present(Entry(mem2, d, v))
    requires Mapping(mem2, mem3, owner1[p := Held], owner3, d, v, v + 1, p, Flags(Entry(mem, d0, v))) &&
             Owned(mem3, owner3)
    ensures Built(mem, mem3, owner, owner3, d) && Copied(mem, mem3, owner, d0, d, data, v + 1) && IsDir(owner3, d)
  {
    hide Owned, Entry, MakeEntry, Built, CopiedAt, OnlyTables, Handed, SamePages;
    var owner2 := owner1[p := Held];
    HandedOne(mem2, mem3, owner2, owner3, d, v, v + 1, p, Flags(Entry(mem, d0, v)));
    CopyBuilt(mem, mem1, mem2, mem3, owner, owner1, owner3, d, v, p);
    var n := v + 1;
    forall u: nat | u < VPAGES ensures CopiedAt(mem, mem3, owner, d0, d, data, n, u) {
      CopyEntry(mem, mem1, mem2, mem3, owner, owner1, owner3, d0, d, data, v, p, u);
    }
  }

  /** The pages of d and of everyone else after page p became page v of d. */
  lemma CopyBuilt(mem: seq<Page>, mem1: seq<Page>, mem2: seq<Page>, mem3: seq<Page>, owner: map<nat, Owner>,
                  owner1: map<nat, Owner>, owner3: map<nat, Owner>, d: nat, v: nat, p: nat)
    requires Owned(mem, owner) && Built(mem, mem1, owner, owner1, d) && p !in owner1 && SamePages(mem1, mem2, owner1)
    requires var owner2 := owner1[p := Held]; OnlyTables(mem2, mem3, owner2, d)
    requires var owner2 := owner1[p := Held];
             forall q | q in owner2 :: Has(owner3, q, if q == p then User(d, v) else owner2[q])
    requires var owner2 := owner1[p := Held];
             forall q | q in owner3 && q !in owner2 :: owner3[q].Table? && owner3[q].d == d
    ensures Built(mem, mem3, owner, owner3, d) && IsDir(owner3, d)
  {
    NotYet(mem, owner, d);
    var owner2 := owner1[p := Held];
    assert forall q | q in owner1 :: q in owner2;
  }

  lemma CopyEntry(mem: seq<Page>, mem1: seq<Page>, mem2: seq<Page>, mem3: seq<Page>, owner: map<nat, Owner>,
                  owner1: map<nat, Owner>, owner3: map<nat, Owner>, d0: nat, d: nat, data: nat, v: nat, p: nat,
                  u: nat)
    requires Built(mem, mem1, owner, owner1, d) && Copied(mem, mem1, owner, d0, d, data, v) && Owned(mem1, owner1)
    requires v < UPAGES && IsDir(owner1, d) && p !in owner1 && Present(Entry(mem, d0, v)) &&
             Frame(Entry(mem, d0, v)) < |mem|
    requires p < |mem1| && mem2 == mem1[p := mem[Frame(Entry(mem, d0, v))]] && SameMaps(mem1, mem2, owner1) &&
             u < VPAGES
    requires Mapping(mem2, mem3, owner1[p := Held], owner3, d, v, v + 1, p, Flags(Entry(mem, d0, v)))
    ensures CopiedAt(mem, mem3, owner, d0, d, data, v + 1, u)
  {
    hide Entry, MakeEntry, Handed, TablesOwned, AllBacked;
    var owner2 := owner1[p := Held];
    assert IsDir(owner2, d) && CopiedAt(mem, mem1, owner, d0, d, data, v, u);
    var e := Entry(mem1, d, u);
    if u < v {
      assert Has(owner1, Frame(e), User(d, u));
      assert Frame(e) in owner2 && !Structure(owner2, d, Frame(e));
    } else if u == v {
      assert p in owner2 && !Structure(owner2, d, p);
      assert Flags(MakeEntry(p, Flags(Entry(mem, d0, v)))) == Flags(Entry(mem, d0, v));
    }
  }

  // ---- growing an address space ----

  /** Page v of d is a zeroed user page that was free before. */
  ghost predicate ZeroPage(mem': seq<Page>, owner: map<nat, Owner>, d: nat, v: nat) {
    var e := Entry(mem', d, v);
    && Present(e) && Flags(e) == PTE_W + PTE_U + 1
    && Frame(e) !in owner && Frame(e) < |mem'| && mem'[Frame(e)] == Filled(0)
  }

  ghost predicate GrownAt(mem: seq<Page>, mem': seq<Page>, owner: map<nat, Owner>, d: nat, lo: nat, hi: nat, d': nat,
                          v: nat) {
    if d' == d && lo <= v < hi then ZeroPage(mem', owner, d, v) else Entry(mem', d', v) == Entry(mem, d', v)
  }

  /** Exactly the pages lo..hi of d are new, and zero; no page owned before changes owner or contents. */
  ghost predicate Grown(mem: seq<Page>, mem': seq<Page>, owner: map<nat, Owner>, owner': map<nat, Owner>, d: nat,
                        lo: nat, hi: nat) {
    && OnlyTables(mem, mem', owner, d)
    && (forall p | p in owner :: Has(owner', p, owner[p]))
    && (forall p | p in owner' && p !in owner ::
          (owner'[p].Table? && owner'[p].d == d) || (owner'[p].User? && owner'[p].d == d && lo <= owner'[p].v < hi))
    && forall d', v: nat | IsDir(owner, d') && v < VPAGES :: GrownAt(mem, mem', owner, d, lo, hi, d', v)
  }

  predicate SameMapping(e: Word32, e': Word32) { e == e' || (!Present(e) && !Present(e')) }

  /** Every mapping is as it was and every page is back, except page tables added to d. */
  ghost predicate Undone(mem: seq<Page>, mem': seq<Page>, owner: map<nat, Owner>, owner': map<nat, Owner>, d: nat) {
    && Extends(owner, owner', d) && OnlyTables(mem, mem', owner, d)
    && forall d', v: nat | IsDir(owner, d') && v < VPAGES :: SameMapping(Entry(mem, d', v), Entry(mem', d', v))
  }

  /** Every page on the way from lo to hi that n free pages reach has its page table in had. */
  ghost predicate ReachedHad(had: set<nat>, lo: nat, hi: nat, n: nat) {
    forall v: nat | lo <= v < hi && Reaches(had, lo, v, n) :: v / 1024 in had
  }

  lemma ReachedTables(had: set<nat>, lo: nat, hi: nat, n: nat)
    ensures ReachedHad(had, lo, hi, n) <==> TablesReached(had, lo, hi, n) <= had
  {
    hide Reaches;
    forall v: nat | lo <= v < hi && Reaches(had, lo, v, n) ensures v / 1024 in TablesReached(had, lo, hi, n) {
    }
  }

  /**
   * What is left of a growth of d from page lo to page hi that n free pages were not enough for: the page
   * tables of the pages reached.  Nothing is left if and only if d had all of these before.
   */
  ghost predicate GaveUp(mem: seq<Page>, mem': seq<Page>, owner: map<nat, Owner>, owner': map<nat, Owner>,
                         free: seq<nat>, free': seq<nat>, d: nat, lo: nat, hi: nat)
  {
    var had := Tables(mem, d);
    && Undone(mem, mem', owner, owner', d)
    && Tables(mem', d) == had + TablesReached(had, lo, hi, |free|)
    && |free'| == |free| - |Tables(mem', d) - had|
    && (owner' == owner <==> ReachedHad(had, lo, hi, |free|))
    && (multiset(free') == multiset(free) <==> ReachedHad(had, lo, hi, |free|))
  }

  lemma DirNotHeld(owner: map<nat, Owner>, d: nat, p: nat)
    requires Has(owner, p, Held) && IsDir(owner, d)
    ensures p != d
  {
  }

  /** The pages mapped so far, which the failing call unmaps again. */
  lemma GrownCount(mem: seq<Page>, mem1: seq<Page>, owner: map<nat, Owner>, owner1: map<nat, Owner>, d: nat, lo: nat,
                   v: nat, hi: nat)
    requires Grown(mem, mem1, owner, owner1, d, lo, v) && IsDir(owner, d) && lo <= v <= hi <= UPAGES
    requires forall u: nat | lo <= u < hi :: !Present(Entry(mem, d, u))
    ensures Mapped(mem1, d, lo, hi) == v - lo
  {
    hide Entry, Mapped;
    forall u: nat | lo <= u < hi ensures Present(Entry(mem1, d, u)) <==> u < v {
      assert GrownAt(mem, mem1, owner, d, lo, v, d, u);
    }
    MappedAll(mem1, d, lo, v);
    MappedNone(mem1, d, lo, v, hi);
  }

  /** d has the page tables it had exactly when no page has a new owner. */
  lemma SameTables(mem: seq<Page>, mem': seq<Page>, owner: map<nat, Owner>, owner': map<nat, Owner>, d: nat)
    requires Owned(mem, owner) && Owned(mem', owner') && IsDir(owner, d) && Extends(owner, owner', d)
    ensures owner' == owner <==> Tables(mem', d) <= Tables(mem, d)
  {
    hide UsersOwned, Entry, WordAt;
    assert Has(owner', d, Dir);
    if Tables(mem', d) <= Tables(mem, d) {
      forall p | p in owner' ensures p in owner {
        assert Backed(mem', owner', p);
        if owner'[p].Table? && owner'[p].d == d {
          var i := owner'[p].i;
          assert i in Tables(mem', d);
          var q := Frame(WordAt(mem, d, i));
          assert Has(owner, q, Table(d, i));
          assert Backed(mem', owner', q);
        }
      }
    }
    if owner' == owner {
      forall i | i in Tables(mem', d) ensures i in Tables(mem, d) {
        var q := Frame(WordAt(mem', d, i));
        assert Has(owner', q, Table(d, i));
        assert Backed(mem, owner, q);
      }
    }
  }

  /** Giving up at page v, with v - lo pages and perhaps one more to give back. */
  lemma GivenUp(lo0: nat, mem: seq<Page>, mem': seq<Page>, head: Word32, head': Word32, owner: map<nat, Owner>,
                owner': map<nat, Owner>, free: seq<nat>, free': seq<nat>, d: nat, lo: nat, v: nat, hi: nat)
    requires Pool(lo0, mem, head, free, owner) && Pool(lo0, mem', head', free', owner')
    requires Owned(mem, owner) && Owned(mem', owner') && IsDir(owner, d) && Undone(mem, mem', owner, owner', d)
    requires lo <= v < hi && Tables(mem', d) == Tables(mem, d) + Range(lo / 1024, TableEnd(lo, v))
    requires |free'| == |free| - |Tables(mem', d)| + |Tables(mem, d)|
    requires GrowPages(Tables(mem, d), lo, v) <= |free| < GrowPages(Tables(mem, d), lo, v + 1)
    ensures GaveUp(mem, mem', owner, owner', free, free', d, lo, hi)
  {
    hide Pool, Owned, Tables, Range, GrowPages, OnlyTables, Reaches;
    var had, tables := Tables(mem, d), Tables(mem', d);
    ReachedUpTo(had, lo, v, hi, |free|);
    assert tables == had + (tables - had);
    SameTables(mem, mem', owner, owner', d);
    if owner' == owner {
      FreeAgain(lo0, mem, mem', head, head', free, free', owner);
    }
    ReachedTables(had, lo, hi, |free|);
    assert |multiset(free)| == |free| && |multiset(free')| == |free'|;
  }

  /** setupkvm() maps no user page. */
  lemma KernelOnly(mem: seq<Page>, mem': seq<Page>, owner: map<nat, Owner>, owner': map<nat, Owner>, d: nat, data: nat)
    requires Built(mem, mem', owner, owner', d) && KernelUpTo(mem', d, data, VPAGES)
    ensures IsDir(owner', d) && forall v: nat | v < UPAGES :: !Present(Entry(mem', d, v))
  {
    hide Entry;
  }

  /** When no page is owned, all pages from lo up are free. */
  lemma AllFree(lo: nat, mem: seq<Page>, head: Word32, free: seq<nat>)
    requires Pool(lo, mem, head, free, map[]) && lo <= NPAGES
    ensures |free| == NPAGES - lo
  {
    hide Range;
    RangeCard(lo, NPAGES);
    FreeCard(free);
    assert Elements(free) == Range(lo, NPAGES);
  }

  ghost function Elements(free: seq<nat>): set<nat> { set p | p in free }

  lemma {:induction false} FreeCard(free: seq<nat>)
    requires forall i, j | 0 <= i < j < |free| :: free[i] != free[j]
    ensures |Elements(free)| == |free|
  {
    if free != [] {
      FreeCard(free[1..]);
      assert free[0] !in Elements(free[1..]);
      assert Elements(free) == {free[0]} + Elements(free[1..]);
    }
  }

  /** Three free pages and no page table 0: pages 0 and 1 are reached, and page table 0 is what stays. */
  lemma ThreePages(mem: seq<Page>, mem': seq<Page>, owner: map<nat, Owner>, owner': map<nat, Owner>, free: seq<nat>,
                   free': seq<nat>, d: nat)
    requires GaveUp(mem, mem', owner, owner', free, free', d, 0, 8) && Tables(mem, d) == KernelTables() && |free| == 3
    ensures Tables(mem', d) == KernelTables() + {0} && |free'| == 2 && owner' != owner
  {
    hide Range, GrowPages, Undone, Tables;
    var had := KernelTables();
    CopyNeeds(1);
    CopyNeeds(2);
    CopyNeeds(3);
    ReachedUpTo(had, 0, 2, 8, 3);
    OneTable(0);
    assert Range(0, TableEnd(0, 2)) == {0};
    assert Reaches(had, 0, 0, 3) && 0 / 1024 !in had;
    assert Tables(mem', d) - had == {0};
  }

  lemma GrownStart(mem: seq<Page>, owner: map<nat, Owner>, d: nat, lo: nat)
    requires Owned(mem, owner)
    ensures Grown(mem, mem, owner, owner, d, lo, lo)
  {
    hide Entry;
  }

  lemma NextGrown(mem: seq<Page>, mem1: seq<Page>, mem2: seq<Page>, owner: map<nat, Owner>, owner1: map<nat, Owner>,
                  d: nat, lo: nat, v: nat, p: nat)
    requires Grown(mem, mem1, owner, owner1, d, lo, v) && v < UPAGES && SameMaps(mem1, mem2, owner1)
    requires IsDir(owner, d) && p !in owner1 && !Present(Entry(mem, d, v))
    ensures !Present(Entry(mem2, d, v)) && Unused(mem2, d, v, v) && HeldPages(owner1[p := Held], p, p, p + UPAGES - v)
    ensures IsDir(owner1, d) && IsDir(owner1[p := Held], d) && p !in owner
  {
    hide Entry;
    assert GrownAt(mem, mem1, owner, d, lo, v, d, v);
    assert Has(owner1, d, Dir);
    assert p in owner ==> Has(owner1, p, owner[p]);
    assert Entry(mem2, d, v) == Entry(mem1, d, v);
  }

  lemma GrowthUndone(mem: seq<Page>, mem1: seq<Page>, mem2: seq<Page>, owner: map<nat, Owner>,
                     owner1: map<nat, Owner>, owner2: map<nat, Owner>, d: nat, lo: nat, v: nat, hi: nat)
    requires Owned(mem, owner) && IsDir(owner, d) && lo <= v <= hi <= UPAGES
    requires forall u: nat | lo <= u < hi :: !Present(Entry(mem, d, u))
    requires Grown(mem, mem1, owner, owner1, d, lo, v) && Dealloced(mem1, mem2, owner1, owner2, d, lo, hi)
    ensures Undone(mem, mem2, owner, owner2, d)
  {
    hide Entry, TablesOwned, UsersOwned;
    forall p | p in owner ensures Has(owner2, p, owner[p]) {
      assert Backed(mem, owner, p) && Has(owner1, p, owner[p]);
    }
    forall d', u: nat | IsDir(owner, d') && u < VPAGES ensures SameMapping(Entry(mem, d', u), Entry(mem2, d', u)) {
      assert GrownAt(mem, mem1, owner, d, lo, v, d', u) && Has(owner1, d', Dir);
    }
  }

  /** Growth so far is kept while page tables are added to d. */
  lemma GrownMore(mem: seq<Page>, mem1: seq<Page>, mem2: seq<Page>, owner: map<nat, Owner>, owner1: map<nat, Owner>,
                  owner2: map<nat, Owner>, d: nat, lo: nat, v: nat)
    requires Grown(mem, mem1, owner, owner1, d, lo, v) && Owned(mem1, owner1) && IsDir(owner, d) && v <= UPAGES
    requires Extends(owner1, owner2, d) && OnlyTables(mem1, mem2, owner1, d) && SameMaps(mem1, mem2, owner1)
    ensures Grown(mem, mem2, owner, owner2, d, lo, v)
  {
    hide Entry, TablesOwned, AllBacked;
    forall d', u: nat | IsDir(owner, d') && u < VPAGES ensures GrownAt(mem, mem2, owner, d, lo, v, d', u) {
      assert GrownAt(mem, mem1, owner, d, lo, v, d', u) && Has(owner1, d', Dir);
      assert d' == d && lo <= u < v ==> Has(owner1, Frame(Entry(mem1, d, u)), User(d, u));
    }
    forall p | p in owner ensures Has(owner2, p, owner[p]) && (!Structure(owner, d, p) ==> mem2[p] == mem[p]) {
      assert Has(owner1, p, owner[p]);
    }
  }

  lemma GrowthFailed(mem: seq<Page>, mem1: seq<Page>, mem2: seq<Page>, mem3: seq<Page>, owner: map<nat, Owner>,
                     owner1: map<nat, Owner>, owner3: map<nat, Owner>, d: nat, lo: nat, v: nat, p: nat)
    requires Grown(mem, mem1, owner, owner1, d, lo, v) && Owned(mem1, owner1) && IsDir(owner, d) && IsDir(owner1, d) &&
             v < UPAGES
    requires p !in owner1 && SamePages(mem1, mem2, owner1) && SameMaps(mem1, mem2, owner1) &&
             Owned(mem2, owner1[p := Held])
    requires Mapping(mem2, mem3, owner1[p := Held], owner3, d, v, v, p, PTE_W + PTE_U) && Owned(mem3, owner3) &&
             !Present(Entry(mem2, d, v))
    ensures Has(owner3, p, Held) && Grown(mem, mem3, owner, owner3 - {p}, d, lo, v) && IsDir(owner3, d)
  {
    hide Owned, Grown, Entry;
    var owner2 := owner1[p := Held];
    HandedOne(mem2, mem3, owner2, owner3, d, v, v, p, PTE_W + PTE_U);
    FailedOwners(owner1, owner2, owner3, d, p);
    TablesOnly(mem1, mem2, mem3, owner1, owner2, d, p);
    assert SameMaps(mem1, mem3, owner1) by {
      assert forall d' | IsDir(owner1, d') :: IsDir(owner2, d');
    }
    GrownMore(mem, mem1, mem3, owner, owner1, owner3 - {p}, d, lo, v);
    assert Has(owner3, d, Dir);
  }

  lemma TablesOnly(mem1: seq<Page>, mem2: seq<Page>, mem3: seq<Page>, owner1: map<nat, Owner>,
                   owner2: map<nat, Owner>, d: nat, p: nat)
    requires SamePages(mem1, mem2, owner1) && owner2 == owner1[p := Held] && OnlyTables(mem2, mem3, owner2, d) &&
             p !in owner1
    ensures OnlyTables(mem1, mem3, owner1, d)
  {
    assert forall q | q in owner1 :: q in owner2 && owner2[q] == owner1[q];
  }

  lemma FailureUndone(mem: seq<Page>, mem3: seq<Page>, mem4: seq<Page>, owner: map<nat, Owner>,
                      owner3: map<nat, Owner>, owner4: map<nat, Owner>, d: nat, lo: nat, v: nat, hi: nat, p: nat,
                      x: Page)
    requires Owned(mem, owner) && IsDir(owner, d) && lo <= v <= hi <= UPAGES && p !in owner && p < |mem4|
    requires forall u: nat | lo <= u < hi :: !Present(Entry(mem, d, u))
    requires Has(owner3, p, Held) && Grown(mem, mem3, owner, owner3 - {p}, d, lo, v)
    requires Dealloced(mem3, mem4, owner3, owner4, d, lo, hi) && Owned(mem4, owner4)
    ensures p in owner4 && Owned(mem4[p := x], owner4 - {p}) && Undone(mem, mem4[p := x], owner, owner4 - {p}, d)
  {
    hide Grown, Entry, Undone, Backed, TablesOwned, UsersOwned;
    DeallocedWithout(mem3, mem4, owner3, owner4, d, lo, hi, p);
    var owner5 := owner4 - {p};
    GrowthUndone(mem, mem3, mem4, owner, owner3 - {p}, owner5, d, lo, v, hi);
    HeldGone(mem4, mem4, owner4, owner5);
    OwnedKept(mem4, mem4[p := x], owner5);
    UndoneKept(mem, mem4, mem4[p := x], owner, owner5, d);
  }

  lemma DeallocedWithout(mem3: seq<Page>, mem4: seq<Page>, owner3: map<nat, Owner>, owner4: map<nat, Owner>, d: nat,
                         lo: nat, hi: nat, p: nat)
    requires Dealloced(mem3, mem4, owner3, owner4, d, lo, hi) && Has(owner3, p, Held)
    ensures Dealloced(mem3, mem4, owner3 - {p}, owner4 - {p}, d, lo, hi) && Has(owner4, p, Held)
  {
    hide Entry;
    assert owner4 - {p} == Unmapped(owner3 - {p}, d, lo, hi);
  }

  lemma UndoneKept(mem: seq<Page>, mem1: seq<Page>, mem2: seq<Page>, owner: map<nat, Owner>, owner1: map<nat, Owner>,
                   d: nat)
    requires Undone(mem, mem1, owner, owner1, d) && SamePages(mem1, mem2, owner1)
    requires forall d', v: nat | IsDir(owner1, d') && v < VPAGES :: Entry(mem2, d', v) == Entry(mem1, d', v)
    ensures Undone(mem, mem2, owner, owner1, d)
  {
    hide Entry;
    assert forall d' | IsDir(owner, d') :: Has(owner1, d', Dir);
    assert forall p | p in owner :: Has(owner1, p, owner[p]);
  }

  lemma GrowStep(mem: seq<Page>, mem1: seq<Page>, mem2: seq<Page>, mem3: seq<Page>, owner: map<nat, Owner>,
                 owner1: map<nat, Owner>, owner3: map<nat, Owner>, d: nat, lo: nat, v: nat, p: nat)
    requires Grown(mem, mem1, owner, owner1, d, lo, v) && Owned(mem1, owner1) && IsDir(owner, d) && IsDir(owner1, d) &&
             lo <= v < UPAGES
    requires p !in owner1 && p < |mem1| && mem2 == mem1[p := Filled(0)] && SameMaps(mem1, mem2, owner1) &&
             SamePages(mem1, mem2, owner1)
    requires Owned(mem2, owner1[p := Held]) && !Present(Entry(mem2, d, v))
    requires Mapping(mem2, mem3, owner1[p := Held], owner3, d, v, v + 1, p, PTE_W + PTE_U) && Owned(mem3, owner3)
    ensures Grown(mem, mem3, owner, owner3, d, lo, v + 1) && IsDir(owner3, d)
  {
    hide Owned, Entry, MakeEntry, GrownAt, Handed, SamePages;
    var owner2 := owner1[p := Held];
    HandedOne(mem2, mem3, owner2, owner3, d, v, v + 1, p, PTE_W + PTE_U);
    TablesOnly(mem1, mem2, mem3, owner1, owner2, d, p);
    GrowOwners(mem, mem1, mem3, owner, owner1, owner2, owner3, d, lo, v, p);
    var hi := v + 1;
    forall d', u: nat | IsDir(owner, d') && u < VPAGES ensures GrownAt(mem, mem3, owner, d, lo, hi, d', u) {
      assert GrownAt(mem, mem1, owner, d, lo, v, d', u) && Has(owner1, d', Dir);
      GrowEntry(mem, mem1, mem2, mem3, owner, owner1, owner3, d, lo, v, p, d', u);
    }
  }

  lemma GrowOwners(mem: seq<Page>, mem1: seq<Page>, mem3: seq<Page>, owner: map<nat, Owner>, owner1: map<nat, Owner>,
                   owner2: map<nat, Owner>, owner3: map<nat, Owner>, d: nat, lo: nat, v: nat, p: nat)
    requires Grown(mem, mem1, owner, owner1, d, lo, v) && p !in owner1 && owner2 == owner1[p := Held] && lo <= v &&
             IsDir(owner1, d)
    requires forall q | q in owner2 :: Has(owner3, q, if q == p then User(d, v) else owner2[q])
    requires forall q | q in owner3 && q !in owner2 :: owner3[q].Table? && owner3[q].d == d
    requires OnlyTables(mem1, mem3, owner1, d)
    ensures OnlyTables(mem, mem3, owner, d) && IsDir(owner3, d)
    ensures forall q | q in owner :: Has(owner3, q, owner[q])
    ensures forall q | q in owner3 && q !in owner ::
              (owner3[q].Table? && owner3[q].d == d) ||
              (owner3[q].User? && owner3[q].d == d && lo <= owner3[q].v < v + 1)
  {
    hide GrownAt;
    assert forall q | q in owner1 :: q in owner2 && owner2[q] == owner1[q];
    assert forall q | q in owner :: Has(owner1, q, owner[q]);
  }

  lemma GrowEntry(mem: seq<Page>, mem1: seq<Page>, mem2: seq<Page>, mem3: seq<Page>, owner: map<nat, Owner>,
                  owner1: map<nat, Owner>, owner3: map<nat, Owner>, d: nat, lo: nat, v: nat, p: nat, d': nat, u: nat)
    requires GrownAt(mem, mem1, owner, d, lo, v, d', u) && Owned(mem1, owner1) && IsDir(owner1, d)
    requires IsDir(owner1, d') && lo <= v < UPAGES && u < VPAGES && p !in owner1 && p < |mem1|
    requires (forall q | q in owner :: q in owner1) && mem2 == mem1[p := Filled(0)] && SameMaps(mem1, mem2, owner1)
    requires Mapping(mem2, mem3, owner1[p := Held], owner3, d, v, v + 1, p, PTE_W + PTE_U)
    ensures GrownAt(mem, mem3, owner, d, lo, v + 1, d', u)
  {
    hide Entry, MakeEntry, Handed, TablesOwned, AllBacked;
    var owner2 := owner1[p := Held];
    assert IsDir(owner2, d) && IsDir(owner2, d');
    if d' == d && lo <= u < v {
      var f := Frame(Entry(mem1, d, u));
      assert Has(owner1, f, User(d, u));
      assert f in owner2 && !Structure(owner2, d, f);
    } else if d' == d && u == v {
      assert p in owner2 && !Structure(owner2, d, p);
    }
  }
}
