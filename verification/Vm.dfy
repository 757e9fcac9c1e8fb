/** kalloc.c and vm.c: page allocation, and address spaces built from page tables. */
module Vm {
  import opened Blocks
  import opened PageTable
  import opened FreePages
  import opened AddressSpace
  import opened Mmu
  import opened Ranges

  /** mappages(): 0, -1, or panic("remap"). */
  datatype MapResult = MapDone | MapFail | MapPanic

  /** A round of copyuvm(): on with the next page, goto bad, or a panic because the parent has no such page. */
  datatype CopyResult = CopyDone | CopyFail | CopyPanic

  class PhysMem {
    const data: nat      // physical address of the end of the kernel's text and read-only data
    const lo: nat        // first page after the kernel
    var mem: seq<Page>
    var freelist: Word32
    ghost var free: seq<nat>
    ghost var owner: map<nat, Owner>

    /** The free list and the owned pages partition memory; page tables may be in the middle of a change. */
    ghost predicate FreeListValid()
      reads this
    {
      DataAddress(data) && Pool(lo, mem, freelist, free, owner)
    }

    ghost predicate Valid()
      reads this
    {
      FreeListValid() && Owned(mem, owner)
    }

    /** Before kinit1() every page past the kernel is allocated and no page is free. */
    constructor (data: nat, lo: nat, mem: seq<Page>)
      requires DataAddress(data) && 0 < lo <= NPAGES && |mem| == NPAGES
      ensures Valid() && this.data == data && this.lo == lo && this.mem == mem && free == [] && owner == AllHeld(lo)
    {
      this.data, this.lo, this.mem, freelist, free, owner := data, lo, mem, 0, [], AllHeld(lo);
    }

    method Kfree(p: nat)
      requires FreeListValid() && p in owner
      modifies this
      ensures FreeListValid() && free == [p] + old(free) && owner == old(owner) - {p}
      ensures mem == old(mem)[p := Freed(old(freelist))]
      ensures mem[p][0] == old(freelist) && forall i | 1 <= i < 1024 :: mem[p][i] == 0x0101_0101
    {
      hide Pool;
      Pushed(lo, mem, freelist, free, owner, p);
      mem := mem[p := Filled(0x01010101)];
      mem := mem[p := mem[p][0 := freelist]];
      assert mem == old(mem)[p := Freed(freelist)];
      freelist := KERNBASE + p * PGSIZE;
      free, owner := [p] + free, owner - {p};
    }

    /** The page number of a free page, now owned by the caller, or 0 when no page is free. */
    method Kalloc() returns (p: nat)
      requires FreeListValid()
      modifies this
      ensures FreeListValid() && mem == old(mem) && p < NPAGES == |mem|
      ensures p == 0 <==> old(free) == []
      ensures p == 0 ==> owner == old(owner) && free == old(free)
      ensures p != 0 ==> p == old(free)[0] && free == old(free)[1..]
      ensures p != 0 ==> owner == old(owner)[p := Held] && p !in old(owner)
      ensures old(Valid()) ==> Valid()
    {
      var r := freelist;
      if r == 0 {
        return 0;
      }
      Popped(lo, mem, freelist, free, owner);
      p := (r - KERNBASE) / PGSIZE;
      assert p == free[0] && p in free;
      freelist := mem[p][0];
      free, owner := free[1..], owner[p := Held];
      if old(Valid()) {
        HeldOwned(mem, old(owner), p);
      }
    }

    /** freerange(): every whole page between the two physical addresses is freed. */
    method Freerange(vstart: nat, vend: nat)
      requires Valid() && vend <= PHYSTOP
      requires forall p | PagesUp(vstart) <= p < vend / PGSIZE :: Has(owner, p, Held)
      modifies this
      ensures Valid() && owner == WithoutPages(old(owner), PagesUp(vstart), vend / PGSIZE)
    {
      hide Pool, Owned, Freed;
      OwnedInMemory(mem, owner);
      var p := PagesUp(vstart);
      while (p + 1) * PGSIZE <= vend
        invariant PagesUp(vstart) <= p && (p * PGSIZE <= vend || p == PagesUp(vstart))
        invariant FreeListValid() && owner == WithoutPages(old(owner), PagesUp(vstart), p)
        invariant SamePages(old(mem), mem, owner)
        decreases vend - p * PGSIZE
      {
        assert Has(old(owner), p, Held);
        FreedOne(old(mem), mem, old(owner), PagesUp(vstart), p, Freed(freelist));
        Kfree(p);
        p := p + 1;
      }
      assert owner == WithoutPages(old(owner), PagesUp(vstart), vend / PGSIZE);
      assert forall q | q in old(owner) && q !in owner :: Has(old(owner), q, Held);
      HeldGone(old(mem), mem, old(owner), owner);
    }

    /** The page table page with the entry of virtual page v, or 0 when there is none. */
    method Walkpgdir(d: nat, v: nat, alloc: bool) returns (t: nat)
      requires Valid() && IsDir(owner, d) && v < VPAGES
      modifies this
      ensures Valid() && Walked(old(mem), mem, old(owner), owner, d)
      ensures t != 0 ==> HasTable(mem, owner, d, v) && t == TablePage(mem, d, v)
      ensures t == 0 ==> !Present(WordAt(mem, d, v / 1024)) && (alloc ==> old(free) == [])
      ensures t == 0 || !alloc ==> mem == old(mem) && owner == old(owner) && free == old(free)
      ensures t != 0 ==> Tables(mem, d) == Tables(old(mem), d) + {v / 1024}
      ensures |free| + |Tables(mem, d)| == |old(free)| + |Tables(old(mem), d)|
    {
      hide Pool, Owned, Walked, WordAt, Entry;
      TableOwned(mem, owner, d, v);
      NoPageZero(lo, mem, freelist, free, owner);
      var pde := mem[d][v / 1024];
      if Present(pde) {
        assert v / 1024 in Tables(mem, d);
        t := Frame(pde);
      } else if !alloc {
        t := 0;
      } else {
        t := NewTablePage(d, v);
      }
    }

    /** The part of walkpgdir() that allocates a page table. */
    method NewTablePage(d: nat, v: nat) returns (t: nat)
      requires Valid() && IsDir(owner, d) && v < VPAGES && !Present(WordAt(mem, d, v / 1024))
      modifies this
      ensures Valid() && Walked(old(mem), mem, old(owner), owner, d)
      ensures t != 0 ==> HasTable(mem, owner, d, v) && t == TablePage(mem, d, v)
      ensures t != 0 ==>
                && d < |mem| && t < |mem| && mem[d] == old(mem)[d][v / 1024 := t * 4096 + 7]
                && forall i | 0 <= i < 1024 :: mem[t][i] == 0
      ensures t == 0 ==> old(free) == [] && mem == old(mem) && owner == old(owner) && free == old(free)
      ensures t != 0 ==> Tables(mem, d) == Tables(old(mem), d) + {v / 1024}
      ensures |free| + |Tables(mem, d)| == |old(free)| + |Tables(old(mem), d)|
    {
      hide Pool, Owned, Walked, WordAt, Entry, HasTable, MakeEntry, Tables;
      TableOwned(mem, owner, d, v);
      t := Kalloc();
      if t != 0 {
        var pde := MakeEntry(t, PTE_W + PTE_U);
        NewTable(lo, mem, freelist, free, old(owner), d, v, t, pde);
        owner := old(owner)[t := Table(d, v / 1024)];
        mem := mem[t := Filled(0)][d := mem[d][v / 1024 := pde]];
      }
    }

    /** The pages before `upto` are mapped: all of the range, or those before a failure or a panic. */
    method Mappages(d: nat, va: nat, size: nat, pa: nat, perm: nat) returns (r: MapResult, ghost upto: nat)
      requires Valid() && IsDir(owner, d) && 0 < size && va + size <= WORD_LIMIT && pa % PGSIZE == 0 && perm < PGSIZE
      requires pa / PGSIZE + (va + size - 1) / PGSIZE - va / PGSIZE < VPAGES
      requires var v, last, p := va / PGSIZE, (va + size - 1) / PGSIZE, pa / PGSIZE;
               HeldPages(owner, p, p + last - v, p + UPAGES - v)
      modifies this
      ensures Valid()
      ensures va / PGSIZE <= upto <= (va + size - 1) / PGSIZE + 1
      ensures r == MapDone <==> upto == (va + size - 1) / PGSIZE + 1
      ensures r == MapPanic <==> upto <= (va + size - 1) / PGSIZE && Present(Entry(old(mem), d, upto))
      ensures Clear(old(mem), d, va / PGSIZE, upto)
      ensures Unused(old(mem), d, va / PGSIZE, (va + size - 1) / PGSIZE) ==> r != MapPanic
      ensures Mapping(old(mem), mem, old(owner), owner, d, va / PGSIZE, upto, pa / PGSIZE, perm)
      ensures |free| + |Tables(mem, d)| == |old(free)| + |Tables(old(mem), d)|
      ensures r == MapDone ==> Tables(mem, d) == TablesWith(old(mem), d, va / PGSIZE, (va + size - 1) / PGSIZE)
      ensures r == MapFail ==> free == [] && Tables(old(mem), d) <= Tables(mem, d)
      ensures r == MapFail ==> Tables(mem, d) < TablesWith(old(mem), d, va / PGSIZE, (va + size - 1) / PGSIZE)
    {
      hide Pool, Owned, Walked, WordAt, Entry, HasTable, Mapping, Unused, Clear, HeldPages, MakeEntry, Remapped,
           OnlyTables, Handed, Tables, Range, TableEnd;
      var v, last, p := va / PGSIZE, (va + size - 1) / PGSIZE, pa / PGSIZE;
      ghost var first, frame := v, p;
      MappingStart(mem, owner, d, first, frame, perm);
      UnusedClear(mem, d, first, last);
      NoTables(first, Tables(mem, d));
      while true
        invariant first <= v <= last && p == frame + v - first
        invariant Valid() && IsDir(owner, d)
        invariant Mapping(old(mem), mem, old(owner), owner, d, first, v, frame, perm)
        invariant Clear(old(mem), d, first, v) && HeldPages(owner, p, frame + last - first, frame + UPAGES - first)
        invariant |free| + |Tables(mem, d)| == |old(free)| + |Tables(old(mem), d)|
        invariant Tables(mem, d) == Tables(old(mem), d) + Range(first / 1024, TableEnd(first, v))
        decreases last - v
      {
        ghost var mem1, owner1 := mem, owner;
        var t := Walkpgdir(d, v, true);
        MappingWalked(old(mem), mem1, mem, old(owner), owner1, owner, d, first, v, frame, perm,
                      p, frame + last - first, frame + UPAGES - first);
        if t == 0 {
          NoTableAt(mem, d, v);
          TablesShort(first, v, last, Tables(mem, d), Tables(old(mem), d));
          NoEntry(old(mem), mem, old(owner), owner, d, first, v, frame, perm);
          return MapFail, v;
        }
        NextTable(first, v, Tables(old(mem), d));
        ghost var mem2, owner2 := mem, owner;
        NotYetMapped(old(mem), mem, old(owner), owner, d, first, v, frame, perm);
        if Present(mem[t][v % 1024]) {
          return MapPanic, v;
        }
        MapOne(lo, mem, freelist, free, owner, d, v, p, frame + last - first, perm);
        mem := mem[t := mem[t][v % 1024 := MakeEntry(p, perm)]];
        owner := if v < UPAGES then owner[p := User(d, v)] else owner;
        MappingMore(old(mem), mem2, mem, old(owner), owner2, owner, d, first, v, frame, perm);
        if v == last {
          return MapDone, v + 1;
        }
        v, p := v + 1, p + 1;
      }
    }

    /** The skip over a missing page table leaves exactly what a walk of every page would. */
    method Deallocuvm(d: nat, oldsz: nat, newsz: nat) returns (r: nat)
      requires Valid() && IsDir(owner, d) && oldsz <= KERNBASE
      modifies this
      ensures Valid() && r == (if newsz >= oldsz then oldsz else newsz)
      ensures Dealloced(old(mem), mem, old(owner), owner, d, PagesUp(newsz), PagesUp(oldsz))
      ensures Tables(mem, d) == Tables(old(mem), d)
      ensures |free| == |old(free)| + Mapped(old(mem), d, PagesUp(newsz), PagesUp(oldsz))
      ensures ShrunkView(old(mem), mem, d, PagesUp(newsz), PagesUp(oldsz))
    {
      hide Pool, Owned, Walked, WordAt, Entry, HasTable, Dealloced, Freed, Unused, Tables, Mapped, ShrunkView;
      ghost var first, hi := PagesUp(newsz), PagesUp(oldsz);
      NoneMapped(mem, d, first, first);
      DeallocStart(mem, owner, d, first);
      if newsz >= oldsz {
        DeallocEmpty(mem, owner, d, first, hi);
        NoneMapped(mem, d, first, hi);
        ShrunkReached(mem, mem, owner, owner, d, first, hi);
        return oldsz;
      }
      var v := PagesUp(newsz);
      while v * PGSIZE < oldsz
        invariant Valid() && IsDir(owner, d) && first <= v <= UPAGES && first <= hi <= UPAGES
        invariant Dealloced(old(mem), mem, old(owner), owner, d, first, if v < hi then v else hi)
        invariant Tables(mem, d) == Tables(old(mem), d)
        invariant |free| == |old(free)| + Mapped(old(mem), d, first, if v < hi then v else hi)
        decreases UPAGES - v
      {
        var t := Walkpgdir(d, v, false);
        if t == 0 {
          ghost var next := if (v / 1024 + 1) * 1024 < hi then (v / 1024 + 1) * 1024 else hi;
          NoTable(mem, d, v, next - 1);
          DeallocAbsent(old(mem), mem, old(owner), owner, d, first, v, next);
          v := (v / 1024 + 1) * 1024 - 1;
        } else {
          ReadEntry(mem, owner, d, v);
          var pte := mem[t][v % 1024];
          if Present(pte) {
            var pa := Frame(pte);
            DeallocOne(old(mem), mem, old(owner), owner, d, first, v, Freed(freelist));
            Kfree(pa);
            OwnedWrite(lo, mem, freelist, free, owner, owner, t, mem[t][v % 1024 := 0]);
            mem := mem[t := mem[t][v % 1024 := 0]];
          } else {
            DeallocAbsent(old(mem), mem, old(owner), owner, d, first, v, v + 1);
          }
        }
        v := v + 1;
      }
      ShrunkReached(old(mem), mem, old(owner), owner, d, first, hi);
      return newsz;
    }

    method Freevm(d: nat)
      requires Valid() && IsDir(owner, d)
      modifies this
      ensures Valid() && owner == WithoutSpace(old(owner), d) && SamePages(old(mem), mem, owner)
      ensures SameEntries(old(mem), mem, owner, d)
    {
      hide Pool, Owned, WordAt, Entry, Dealloced, Freed, SamePages, WithoutTables, WithoutSpace, SameEntries,
           ShrunkView;
      var _ := Deallocuvm(d, KERNBASE, 0);
      ghost var mem1, owner1 := mem, owner;
      SpaceEmptied(old(mem), mem, old(owner), owner, d);
      var i := 0;
      while i < NPTENTRIES
        invariant 0 <= i <= NPTENTRIES && FreeListValid()
        invariant owner == WithoutTables(owner1, d, i) && SamePages(mem1, mem, owner)
      {
        DirLive(mem1, mem, owner1, d, i);
        if Present(mem[d][i]) {
          TableFreed(mem1, mem, owner1, d, i, Freed(freelist));
          Kfree(Frame(mem[d][i]));
        } else {
          TableAbsent(mem1, owner1, d, i);
        }
        i := i + 1;
      }
      DirLive(mem1, mem, owner1, d, i);
      DirFreed(old(mem), mem1, mem, old(owner), owner1, d, Freed(freelist));
      Kfree(d);
    }

    /** A directory with the kernel's mappings and nothing else, or 0 with every page given back. */
    method Setupkvm() returns (d: nat)
      requires Valid()
      modifies this
      ensures Valid()
      ensures d != 0 <==> |old(free)| >= SETUP_PAGES
      ensures d != 0 ==> Built(old(mem), mem, old(owner), owner, d) && KernelUpTo(mem, d, data, VPAGES)
      ensures d != 0 ==> KernelView(mem, d, data, 0)
      ensures d != 0 ==> |free| == |old(free)| - SETUP_PAGES && Tables(mem, d) == KernelTables()
      ensures d == 0 ==> owner == old(owner) && SamePages(old(mem), mem, owner) && multiset(free) == multiset(old(free))
    {
      hide Pool, Owned, Entry, Built, KernelUpTo, SamePages, Tables, KmapTables, KernelTables, WordAt, KernelView;
      SameStart(mem, owner);
      KernelTablesCard();
      d := Kalloc();
      if d == 0 {
        return;
      }
      NoTablesYet(mem, d);
      KmapTablesAll(data);
      NewDir(lo, mem, freelist, free, old(owner), d, data);
      mem, owner := mem[d := Filled(0)], old(owner)[d := Dir];
      var k := 0;
      while k < 4
        invariant 0 <= k <= 4 && Valid() && d != 0 && IsDir(owner, d)
        invariant Built(old(mem), mem, old(owner), owner, d) && KernelUpTo(mem, d, data, KmapBound(data, k))
        invariant |free| + |Tables(mem, d)| + 1 == |old(free)| && Tables(mem, d) == KmapTables(data, k)
      {
        var ok := MapKernelRow(d, k, old(mem), old(owner));
        if !ok {
          SmallerSet(Tables(mem, d), KernelTables());
          Discard(d, old(mem), old(freelist), old(free), old(owner));
          return 0;
        }
        k := k + 1;
      }
      KernelReached(mem, owner, d, data);
    }

    /** The body of setupkvm()'s loop: mappages() of one row of kmap[]. */
    method MapKernelRow(d: nat, k: nat, ghost mem0: seq<Page>, ghost owner0: map<nat, Owner>) returns (ok: bool)
      requires Valid() && IsDir(owner, d) && Owned(mem0, owner0) && k < 4
      requires Built(mem0, mem, owner0, owner, d) && KernelUpTo(mem, d, data, KmapBound(data, k))
      requires Tables(mem, d) == KmapTables(data, k)
      modifies this
      ensures Valid() && IsDir(owner, d) && Built(mem0, mem, owner0, owner, d)
      ensures |free| + |Tables(mem, d)| == |old(free)| + |Tables(old(mem), d)|
      ensures ok ==> KernelUpTo(mem, d, data, KmapBound(data, k + 1)) && Tables(mem, d) == KmapTables(data, k + 1)
      ensures !ok ==> free == [] && Tables(mem, d) < KernelTables()
    {
      hide Pool, Owned, Entry, Built, KernelUpTo, Mapping, SamePages, Unused, HeldPages, KernelEntry, Tables,
           KmapTables, KernelTables, TablesWith, WordAt, KmapBound;
      var e := KmapTable(data)[k];
      var size := (e.end - e.start) % WORD_LIMIT;
      KmapRange(data, k);
      KmapUnused(mem, owner, d, data, k);
      KmapTablesStep(mem, d, data, k);
      var r, upto := Mappages(d, e.virt, size, e.start, e.perm);
      ok := r == MapDone;
      KernelMapped(mem0, old(mem), mem, owner0, old(owner), owner, d, data, k, upto);
      KmapTablesGrow(data, k + 1);
      KmapTablesAll(data);
    }

    /**
     * A copy of the first sz bytes of d0's address space in new pages, or 0 with every page given back.  It
     * panics at the first page that d0 does not map, if it gets there.
     */
    method Copyuvm(d0: nat, sz: nat) returns (d: nat, panic: bool)
      requires Valid() && IsDir(owner, d0) && sz <= KERNBASE
      modifies this
      ensures Valid()
      ensures var n, m := PagesUp(sz), FirstMissing(old(mem), d0, PagesUp(sz));
              && (d != 0 && !panic <==> m == n && |old(free)| >= CopyPages(n))
              && (panic <==> m < n && |old(free)| >= CopyPages(m))
      ensures d != 0 && !panic ==> Built(old(mem), mem, old(owner), owner, d)
      ensures d != 0 && !panic ==> Copied(old(mem), mem, old(owner), d0, d, data, PagesUp(sz))
      ensures d != 0 && !panic ==>
                CopyView(old(mem), mem, old(owner), d0, d, PagesUp(sz)) && KernelView(mem, d, data, PagesUp(sz))
      ensures d != 0 && !panic ==>
                && |free| == |old(free)| - CopyPages(PagesUp(sz))
                && Tables(mem, d) == TablesOver(KernelTables(), 0, PagesUp(sz))
      ensures d == 0 && !panic ==>
                owner == old(owner) && SamePages(old(mem), mem, owner) && multiset(free) == multiset(old(free))
    {
      hide Pool, Owned, Entry, Built, Copied, KernelUpTo, SamePages, Tables, KernelTables, Budget, GrowPages,
           TablesOver, FirstMissing, CopyView, KernelView;
      panic := false;
      ghost var m := FirstMissing(mem, d0, PagesUp(sz));
      CopyNeeds(m);
      CopyNeeds(0);
      GrowMore(KernelTables(), 0, 0, m);
      d := Setupkvm();
      if d == 0 {
        return;
      }
      CopyStart(old(mem), mem, old(owner), owner, d0, d, data);
      ghost var free0 := |free|;
      BudgetStart(free0, KernelTables(), 0);
      var v := 0;
      while v * PGSIZE < sz
        invariant v <= m && Valid() && IsDir(owner, d) && d != 0
        invariant Built(old(mem), mem, old(owner), owner, d) && Copied(old(mem), mem, old(owner), d0, d, data, v)
        invariant Budget(free0, |free|, KernelTables(), Tables(mem, d), 0, v)
      {
        var r := CopyPage(d0, d, v, old(mem), old(owner), free0);
        if r == CopyPanic {
          BudgetDone(free0, |free|, KernelTables(), Tables(mem, d), 0, v);
          return d, true;
        }
        if r == CopyFail {
          GrowMore(KernelTables(), 0, v + 1, m);
          Discard(d, old(mem), old(freelist), old(free), old(owner));
          return 0, false;
        }
        v := v + 1;
      }
      BudgetDone(free0, |free|, KernelTables(), Tables(mem, d), 0, v);
      CopyReached(old(mem), mem, old(owner), owner, d0, d, data, v);
    }

    /** The body of copyuvm()'s loop. */
    method CopyPage(d0: nat, d: nat, v: nat, ghost mem0: seq<Page>, ghost owner0: map<nat, Owner>, ghost free0: nat)
        returns (r: CopyResult)
      requires Valid() && IsDir(owner, d) && Owned(mem0, owner0) && IsDir(owner0, d0) && v < UPAGES
      requires Built(mem0, mem, owner0, owner, d) && Copied(mem0, mem, owner0, d0, d, data, v)
      requires Budget(free0, |free|, KernelTables(), Tables(mem, d), 0, v)
      modifies this
      ensures Valid() && IsDir(owner, d) && Built(mem0, mem, owner0, owner, d)
      ensures r == CopyPanic <==> !Present(Entry(mem0, d0, v))
      ensures r == CopyPanic ==> Budget(free0, |free|, KernelTables(), Tables(mem, d), 0, v)
      ensures r == CopyDone ==> Copied(mem0, mem, owner0, d0, d, data, v + 1)
      ensures r == CopyDone ==> Budget(free0, |free|, KernelTables(), Tables(mem, d), 0, v + 1)
      ensures r == CopyFail ==> free0 < GrowPages(KernelTables(), 0, v + 1)
    {
      hide Pool, Owned, Entry, WordAt, HasTable, Built, Copied, Mapping, SamePages, Unused, Clear, HeldPages, Flags,
           Walked, Tables, KernelTables, Budget, GrowPages, Range, TableEnd;
      ParentKept(mem0, mem, owner0, owner, d0, d, v);
      var t := Walkpgdir(d0, v, false);
      TableOwned(mem, owner, d0, v);
      if t == 0 {
        return CopyPanic;
      }
      ReadEntry(mem, owner, d0, v);
      var pte := mem[t][v % 1024];
      if !Present(pte) {
        return CopyPanic;
      }
      ghost var mem1, owner1, free1 := mem, owner, free;
      var p := Kalloc();
      if p == 0 {
        BudgetEmpty(free0, KernelTables(), Tables(mem, d), 0, v, v + 1);
        return CopyFail;
      }
      TakePage(lo, mem, freelist, free, owner1, p, mem[Frame(pte)]);
      TablesElsewhere(mem, d, p, mem[Frame(pte)]);
      mem := mem[p := mem[Frame(pte)]];
      ghost var mem2 := mem;
      NextUnused(mem0, mem1, mem2, owner0, owner1, d0, d, data, v, p, pte);
      var mapped, upto := Mappages(d, v * PGSIZE, PGSIZE, p * PGSIZE, Flags(pte));
      NoPageZero(lo, mem, freelist, free, owner);
      if mapped != MapDone {
        BudgetNoTable(free0, |free1|, KernelTables(), Tables(mem1, d), Tables(mem, d), 0, v, v + 1);
        CopyFailed(mem0, mem1, mem2, mem, owner0, owner1, owner, d, v, p, Flags(pte), Freed(freelist));
        Kfree(p);
        return CopyFail;
      }
      CopyStep(mem0, mem1, mem2, mem, owner0, owner1, owner, d0, d, data, v, p);
      BudgetStep(free0, |free1|, |free|, KernelTables(), Tables(mem1, d), Tables(mem, d), 0, v);
      r := CopyDone;
    }

    /** freevm() of an unfinished address space: everything is as it was before setupkvm(). */
    method Discard(d: nat, ghost mem0: seq<Page>, ghost head0: Word32, ghost free0: seq<nat>,
                   ghost owner0: map<nat, Owner>)
      requires Valid() && Owned(mem0, owner0) && Pool(lo, mem0, head0, free0, owner0) &&
               Built(mem0, mem, owner0, owner, d)
      modifies this
      ensures Valid() && owner == owner0 && SamePages(mem0, mem, owner) && multiset(free) == multiset(free0)
    {
      hide Pool, Owned, Entry, Built, SamePages, WithoutSpace, SameEntries;
      SpaceGone(mem0, mem, owner0, owner, d);
      ghost var mem1 := mem;
      Freevm(d);
      SameAgain(mem0, mem1, mem, owner0);
      FreeAgain(lo, mem0, mem, head0, freelist, free0, free, owner);
    }

    /**
     * Grows d from oldsz to newsz with zeroed pages.  When memory runs out every page goes back, except
     * the page tables of the pages that were reached, which stay until freevm().
     */
    method Allocuvm(d: nat, oldsz: nat, newsz: nat) returns (r: nat)
      requires Valid() && IsDir(owner, d)
      requires newsz < KERNBASE ==> forall v: nat | PagesUp(oldsz) <= v < PagesUp(newsz) :: !Present(Entry(mem, d, v))
      modifies this
      ensures Valid()
      ensures newsz >= KERNBASE ==> r == 0 && mem == old(mem) && owner == old(owner)
      ensures newsz < KERNBASE && newsz < oldsz ==> r == oldsz && mem == old(mem) && owner == old(owner)
      ensures oldsz <= newsz < KERNBASE ==>
                if |old(free)| >= GrowPages(Tables(old(mem), d), PagesUp(oldsz), PagesUp(newsz))
                then && r == newsz && Grown(old(mem), mem, old(owner), owner, d, PagesUp(oldsz), PagesUp(newsz))
                     && GrownView(old(mem), mem, old(owner), d, PagesUp(oldsz), PagesUp(newsz))
                     && |free| == |old(free)| - GrowPages(Tables(old(mem), d), PagesUp(oldsz), PagesUp(newsz))
                     && Tables(mem, d) == TablesOver(Tables(old(mem), d), PagesUp(oldsz), PagesUp(newsz))
                else && r == 0
                     && GaveUp(old(mem), mem, old(owner), owner, old(free), free, d, PagesUp(oldsz), PagesUp(newsz))
    {
      hide Pool, Owned, Entry, Grown, GaveUp, Tables, Budget, GrowPages, TablesOver, GrownView;
      if newsz >= KERNBASE {
        return 0;
      }
      if newsz < oldsz {
        return oldsz;
      }
      ghost var first, hi := PagesUp(oldsz), PagesUp(newsz);
      GrownStart(mem, owner, d, first);
      ghost var had := Tables(mem, d);
      BudgetStart(|free|, had, first);
      var v := PagesUp(oldsz);
      while v * PGSIZE < newsz
        invariant first <= v <= hi && Valid() && IsDir(owner, d)
        invariant Grown(old(mem), mem, old(owner), owner, d, first, v)
        invariant Budget(|old(free)|, |free|, had, Tables(mem, d), first, v)
      {
        var ok := GrowPage(d, oldsz, newsz, v, old(mem), old(freelist), old(free), old(owner));
        if !ok {
          return 0;
        }
        v := v + 1;
      }
      BudgetDone(|old(free)|, |free|, had, Tables(mem, d), first, v);
      GrownReached(old(mem), mem, old(owner), owner, d, first, v);
      return newsz;
    }

    /** The body of allocuvm()'s loop, with what it gives back when kalloc() or mappages() fails. */
    method GrowPage(d: nat, oldsz: nat, newsz: nat, v: nat, ghost mem0: seq<Page>, ghost head0: Word32,
                    ghost free0: seq<nat>, ghost owner0: map<nat, Owner>)
        returns (ok: bool)
      requires Valid() && IsDir(owner, d) && Pool(lo, mem0, head0, free0, owner0) && Owned(mem0, owner0)
      requires IsDir(owner0, d) && oldsz <= newsz < KERNBASE && PagesUp(oldsz) <= v < PagesUp(newsz)
      requires forall v: nat | PagesUp(oldsz) <= v < PagesUp(newsz) :: !Present(Entry(mem0, d, v))
      requires Grown(mem0, mem, owner0, owner, d, PagesUp(oldsz), v)
      requires Budget(|free0|, |free|, Tables(mem0, d), Tables(mem, d), PagesUp(oldsz), v)
      modifies this
      ensures Valid()
      ensures ok ==> IsDir(owner, d) && Grown(mem0, mem, owner0, owner, d, PagesUp(oldsz), v + 1)
      ensures ok ==> Budget(|free0|, |free|, Tables(mem0, d), Tables(mem, d), PagesUp(oldsz), v + 1)
      ensures !ok ==> |free0| < GrowPages(Tables(mem0, d), PagesUp(oldsz), PagesUp(newsz))
      ensures !ok ==> GaveUp(mem0, mem, owner0, owner, free0, free, d, PagesUp(oldsz), PagesUp(newsz))
    {
      hide Pool, Owned, Entry, WordAt, Grown, Undone, GaveUp, Mapped, Mapping, Dealloced, SamePages, SameMaps, Unused,
           HeldPages, Tables, Budget, GrowPages, Range, TableEnd, ShrunkView;
      ghost var first, hi, had := PagesUp(oldsz), PagesUp(newsz), Tables(mem0, d);
      ghost var mem1, owner1, free1 := mem, owner, free;
      BudgetTables(|free0|, |free|, had, Tables(mem, d), first, v);
      var p := Kalloc();
      if p == 0 {
        BudgetEmpty(|free0|, had, Tables(mem, d), first, v, hi);
        GrownCount(mem0, mem1, owner0, owner1, d, first, v, hi);
        var _ := Deallocuvm(d, newsz, oldsz);
        GrowthUndone(mem0, mem1, mem, owner0, owner1, owner, d, first, v, hi);
        GivenUp(lo, mem0, mem, head0, freelist, owner0, owner, free0, free, d, first, v, hi);
        return false;
      }
      TakePage(lo, mem, freelist, free, owner1, p, Filled(0));
      TablesElsewhere(mem, d, p, Filled(0));
      mem := mem[p := Filled(0)];
      ghost var mem2 := mem;
      NextGrown(mem0, mem1, mem2, owner0, owner1, d, first, v, p);
      var r, upto := Mappages(d, v * PGSIZE, PGSIZE, p * PGSIZE, PTE_W + PTE_U);
      ok := r == MapDone;
      NoPageZero(lo, mem, freelist, free, owner);
      if ok {
        GrowStep(mem0, mem1, mem2, mem, owner0, owner1, owner, d, first, v, p);
        BudgetStep(|free0|, |free1|, |free|, had, Tables(mem1, d), Tables(mem, d), first, v);
        return;
      }
      ghost var mem3, owner3 := mem, owner;
      BudgetNoTable(|free0|, |free1|, had, Tables(mem1, d), Tables(mem, d), first, v, hi);
      GrowthFailed(mem0, mem1, mem2, mem3, owner0, owner1, owner3, d, first, v, p);
      GrownCount(mem0, mem3, owner0, owner3 - {p}, d, first, v, hi);
      var _ := Deallocuvm(d, newsz, oldsz);
      NoPageZero(lo, mem, freelist, free, owner);
      FailureUndone(mem0, mem3, mem, owner0, owner3, owner, d, first, v, hi, p, Freed(freelist));
      DirNotHeld(owner3, d, p);
      TablesElsewhere(mem, d, p, Freed(freelist));
      Kfree(p);
      GivenUp(lo, mem0, mem, head0, freelist, owner0, owner, free0, free, d, first, v, hi);
    }
  }

  /**
   * The page table that a failed allocuvm() leaves behind: with 68 pages past the kernel, setupkvm() leaves
   * three, which is not enough for 8 user pages and their page table.
   */
  method GrowthLeavesTable(data: nat, mem: seq<Page>)
      returns (m: PhysMem, d: nat, r: nat, ghost before: map<nat, Owner>)
    requires DataAddress(data) && |mem| == NPAGES
    ensures m.Valid() && r == 0 && IsDir(before, d) && m.owner != before
    ensures |m.free| == 2 && Tables(m.mem, d) == KernelTables() + {0}
  {
    hide Pool, Owned, Built, KernelUpTo, KernelView, Tables, KernelTables, GaveUp, Grown, GrowPages;
    m := new PhysMem(data, NPAGES - 68, mem);
    m.Freerange((NPAGES - 68) * PGSIZE, PHYSTOP);
    assert m.owner == map[];
    AllFree(m.lo, m.mem, m.freelist, m.free);
    ghost var mem0 := m.mem;
    d := m.Setupkvm();
    before := m.owner;
    ghost var mem1, free1 := m.mem, m.free;
    KernelOnly(mem0, m.mem, map[], m.owner, d, data);
    CopyNeeds(8);
    r := m.Allocuvm(d, 0, 8 * PGSIZE);
    ThreePages(mem1, m.mem, before, m.owner, free1, m.free, d);
  }
}
