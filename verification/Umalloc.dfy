/**
 * umalloc.c: the Kernighan and Ritchie allocator (section 8.7 of The C Programming Language, 2nd
 * edition).  Addresses count Headers; `ptr` and `size` are the fields of the Header at an address.
 */
module Umalloc {
  import opened FreeList

  /** sizeof(Header) */
  const HEADER: nat := 8
  const MINCORE: nat := 4096

  ghost function NextAddr(fl: seq<Blk>, m: nat): int
    requires 0 < |fl| && m <= |fl|
  {
    if m < |fl| then fl[m].addr else fl[0].addr
  }

  /** The headers in memory form the circular list fl. */
  ghost predicate Linked(fl: seq<Blk>, ptr: map<int, int>, size: map<int, nat>) {
    forall i | 0 <= i < |fl| :: LinkedAt(fl, ptr, size, i)
  }

  lemma DistinctAddrs(fl: seq<Blk>, i: nat, j: nat)
    requires Sorted(fl) && i < |fl| && j < |fl| && fl[i].addr == fl[j].addr
    ensures i == j
  {
    if i < j { SortedAt(fl, i, j); } else if j < i { SortedAt(fl, j, i); }
  }

  ghost predicate LinkedAt(fl: seq<Blk>, ptr: map<int, int>, size: map<int, nat>, i: nat)
    requires i < |fl|
  {
    && fl[i].addr in ptr && ptr[fl[i].addr] == NextAddr(fl, i + 1)
    && fl[i].addr in size && size[fl[i].addr] == fl[i].size
  }

  /** r is the first k blocks of fl, then c, then the blocks of fl from m on. */
  ghost predicate Around(r: seq<Blk>, fl: seq<Blk>, k: nat, c: Blk, m: nat) {
    && k <= |fl| && m <= |fl| && |r| == k + 1 + |fl| - m && r[k] == c
    && (forall i | 0 <= i < k :: r[i] == fl[i])
    && (forall i | k < i < |r| :: r[i] == fl[m + i - k - 1])
  }

  lemma DistinctAddrsAuto(fl: seq<Blk>, i: nat, j: nat)
    requires Sorted(fl) && i < |fl| && j < |fl| && i != j
    ensures fl[i].addr != fl[j].addr
  {
    if fl[i].addr == fl[j].addr { DistinctAddrs(fl, i, j); }
  }

  lemma LinkInsertAt(fl: seq<Blk>, ptr: map<int, int>, size: map<int, nat>, t: nat, c: Blk, m: nat, r: seq<Blk>, i: nat)
    requires Sorted(fl) && Linked(fl, ptr, size) && t < m <= |fl|
    requires forall k | 0 <= k < |fl| :: fl[k].addr != c.addr
    requires Around(r, fl, t + 1, c, m) && i < |r|
    ensures LinkedAt(r, ptr[c.addr := NextAddr(fl, m)][fl[t].addr := c.addr], size[c.addr := c.size], i)
  {
    hide Sorted;
    if i < t {
      DistinctAddrsAuto(fl, i, t);
      assert LinkedAt(fl, ptr, size, i);
    } else if i == t {
      assert LinkedAt(fl, ptr, size, t);
    } else if i > t + 1 {
      var k := m + i - t - 2;
      DistinctAddrsAuto(fl, k, t);
      assert LinkedAt(fl, ptr, size, k);
    }
  }

  /** Storing c's header and pointing block t to it inserts c between block t and block m. */
  lemma LinkInsert(fl: seq<Blk>, ptr: map<int, int>, size: map<int, nat>, t: nat, c: Blk, m: nat)
    requires Sorted(fl) && Linked(fl, ptr, size) && t < m <= |fl|
    requires forall i | 0 <= i < |fl| :: fl[i].addr != c.addr
    ensures Linked(fl[..t + 1] + [c] + fl[m..],
                   ptr[c.addr := NextAddr(fl, m)][fl[t].addr := c.addr], size[c.addr := c.size])
  {
    hide Sorted;
    var r := fl[..t + 1] + [c] + fl[m..];
    var ptr', size' := ptr[c.addr := NextAddr(fl, m)][fl[t].addr := c.addr], size[c.addr := c.size];
    forall i | 0 <= i < |r| ensures LinkedAt(r, ptr', size', i) {
      LinkInsertAt(fl, ptr, size, t, c, m, r, i);
    }
  }

  lemma LinkJoinAt(fl: seq<Blk>, ptr: map<int, int>, size: map<int, nat>, t: nat, n: nat, m: nat, r: seq<Blk>, i: nat)
    requires Sorted(fl) && Linked(fl, ptr, size) && t < m <= |fl|
    requires Around(r, fl, t, Blk(fl[t].addr, n), m) && i < |r|
    ensures LinkedAt(r, ptr[fl[t].addr := NextAddr(fl, m)], size[fl[t].addr := n], i)
  {
    hide Sorted;
    if i < t {
      DistinctAddrsAuto(fl, i, t);
      assert LinkedAt(fl, ptr, size, i);
    } else if i > t {
      var k := m + i - t - 1;
      DistinctAddrsAuto(fl, k, t);
      assert LinkedAt(fl, ptr, size, k);
    }
  }

  /** Growing block t and pointing it past the blocks it swallowed. */
  lemma LinkJoin(fl: seq<Blk>, ptr: map<int, int>, size: map<int, nat>, t: nat, n: nat, m: nat)
    requires Sorted(fl) && Linked(fl, ptr, size) && t < m <= |fl|
    ensures Linked(fl[..t] + [Blk(fl[t].addr, n)] + fl[m..],
                   ptr[fl[t].addr := NextAddr(fl, m)], size[fl[t].addr := n])
  {
    hide Sorted;
    var r := fl[..t] + [Blk(fl[t].addr, n)] + fl[m..];
    var ptr', size' := ptr[fl[t].addr := NextAddr(fl, m)], size[fl[t].addr := n];
    forall i | 0 <= i < |r| ensures LinkedAt(r, ptr', size', i) {
      LinkJoinAt(fl, ptr, size, t, n, m, r, i);
    }
  }

  /** Links do not depend on headers outside the list. */
  lemma LinkedFrame(fl: seq<Blk>, ptr: map<int, int>, size: map<int, nat>, ptr': map<int, int>, size': map<int, nat>)
    requires Linked(fl, ptr, size)
    requires forall i | 0 <= i < |fl| ::
               && fl[i].addr in ptr && fl[i].addr in ptr' && ptr'[fl[i].addr] == ptr[fl[i].addr]
               && fl[i].addr in size && fl[i].addr in size' && size'[fl[i].addr] == size[fl[i].addr]
    ensures Linked(fl, ptr', size')
  {
    forall i | 0 <= i < |fl| ensures LinkedAt(fl, ptr', size', i) {
      assert LinkedAt(fl, ptr, size, i);
    }
  }

  /** The gap of the list that an address falls in. */
  ghost function GapOf(fl: seq<Blk>, a: int): (t: nat)
    requires |fl| > 0 && fl[0].addr < a
    ensures t < |fl| && fl[t].addr < a
    ensures forall i | t < i < |fl| :: a <= fl[i].addr
  {
    if fl[|fl| - 1].addr < a then |fl| - 1 else GapOf(fl[..|fl| - 1], a)
  }

  /** A block that shares no unit with the list fits into the gap its address falls in. */
  lemma DisjointFits(fl: seq<Blk>, t: nat, b: Blk)
    requires Sorted(fl) && t < |fl| && b.size > 0 && Seg(b.addr, b.size) !! Units(fl)
    requires fl[t].addr < b.addr && (t + 1 < |fl| ==> b.addr < fl[t + 1].addr)
    ensures InGap(fl, t, b)
    ensures forall i | 0 <= i < |fl| :: fl[i].addr != b.addr
  {
    UnitsMember(fl, b.addr);
    assert b.addr in Seg(b.addr, b.size);
    if t + 1 < |fl| {
      UnitsMember(fl, fl[t + 1].addr);
    }
    forall i | 0 <= i < |fl| ensures fl[i].addr != b.addr {
      if i < t { SortedAt(fl, i, t); } else if i > t + 1 { SortedAt(fl, t + 1, i); }
    }
  }

  /** The header writes of free(), for a block b that belongs after block t. */
  lemma RelinkList(fl: seq<Blk>, ptr: map<int, int>, size: map<int, nat>, t: nat, b: Blk, c: Blk, m: nat,
                   ptr': map<int, int>, size': map<int, nat>)
    requires Sorted(fl) && Linked(fl, ptr, size) && InGap(fl, t, b)
    requires forall i | 0 <= i < |fl| :: fl[i].addr != b.addr
    requires m == (if JoinsNext(fl, t, b) then t + 2 else t + 1)
    requires c == Blk(b.addr, if JoinsNext(fl, t, b) then b.size + fl[t + 1].size else b.size)
    requires var p := fl[t].addr;
             if End(fl[t]) == b.addr then
               && ptr' == ptr[b.addr := NextAddr(fl, m)][p := NextAddr(fl, m)]
               && size' == size[b.addr := c.size][p := fl[t].size + c.size]
             else
               ptr' == ptr[b.addr := NextAddr(fl, m)][p := b.addr] && size' == size[b.addr := c.size]
    ensures Linked(Insert(fl, t, b), ptr', size')
    ensures t < |Insert(fl, t, b)| && Insert(fl, t, b)[t].addr == fl[t].addr
  {
    hide Sorted;
    if End(fl[t]) == b.addr {
      var ptr1, size1 := ptr[b.addr := NextAddr(fl, m)], size[b.addr := c.size];
      forall i | 0 <= i < |fl| ensures fl[i].addr in ptr && fl[i].addr in size {
        assert LinkedAt(fl, ptr, size, i);
      }
      LinkedFrame(fl, ptr, size, ptr1, size1);
      LinkJoin(fl, ptr1, size1, t, fl[t].size + c.size, m);
    } else {
      LinkInsert(fl, ptr, size, t, c, m);
    }
  }

  /** Every unit is free or belongs to a live block. */
  ghost predicate Covered(heap: set<int>, free: set<int>, live: map<int, nat>) {
    forall u | u in heap :: u in free || exists b | b in live :: u in Seg(b, live[b])
  }

  /** No live block shares a unit with another or with the free list. */
  ghost predicate Apart(heap: set<int>, free: set<int>, live: map<int, nat>) {
    && (forall b | b in live :: live[b] > 0 && Seg(b, live[b]) <= heap && Seg(b, live[b]) !! free)
    && (forall b, c | b in live && c in live && b != c :: Seg(b, live[b]) !! Seg(c, live[c]))
  }

  /** Free units and live blocks share nothing and together are the heap. */
  ghost predicate Memory(base: int, top: int, heap: set<int>, fl: seq<Blk>, live: map<int, nat>, size: map<int, nat>) {
    && 0 < base < top
    && (forall u | u in heap :: base < u < top)
    && Units(fl) <= heap
    && (forall b | b in live :: b in size && size[b] == live[b])
    && Apart(heap, Units(fl), live)
    && Covered(heap, Units(fl), live)
  }

  /** A live block lies above base and at no address of the free list. */
  lemma LiveAddress(base: int, top: int, heap: set<int>, fl: seq<Blk>, live: map<int, nat>, size: map<int, nat>, b: int)
    requires Memory(base, top, heap, fl, live, size) && Sorted(fl) && fl[0].addr == base && b in live
    ensures base < b && forall i | 0 <= i < |fl| :: fl[i].addr != b
  {
    hide Units, Sorted, Covered;
    assert b in Seg(b, live[b]);
    NotInList(fl, base, b, Seg(b, live[b]));
  }

  lemma NotInList(fl: seq<Blk>, base: int, b: int, s: set<int>)
    requires Sorted(fl) && fl[0].addr == base < b && b in s && s !! Units(fl)
    ensures forall i | 0 <= i < |fl| :: fl[i].addr != b
  {
    hide Units;
    forall i | 0 <= i < |fl| ensures fl[i].addr != b {
      UnitsMember(fl, fl[i].addr);
    }
  }

  /** Moving a live block's units to the free list keeps the heap partitioned. */
  lemma FreedMemory(base: int, top: int, heap: set<int>, fl: seq<Blk>, live: map<int, nat>, size: map<int, nat>,
                    b: int, fl': seq<Blk>, size': map<int, nat>)
    requires Memory(base, top, heap, fl, live, size) && b in live && Units(fl') == Units(fl) + Seg(b, live[b])
    requires forall x | x in live && x != b :: x in size' && size'[x] == size[x]
    ensures Memory(base, top, heap, fl', live - {b}, size')
  {
    hide Units, Seg;
    var live' := live - {b};
    assert Apart(heap, Units(fl'), live');
    forall u | u in heap ensures u in Units(fl') || exists x | x in live' :: u in Seg(x, live'[x]) {
      if u !in Units(fl) {
        var x :| x in live && u in Seg(x, live[x]);
        assert x != b ==> x in live' && u in Seg(x, live'[x]);
      }
    }
  }

  /** The units morecore() asks sbrk for. */
  function CoreUnits(nunits: nat): nat { if nunits < MINCORE then MINCORE else nunits }

  lemma AddressesBelow(base: int, top: int, heap: set<int>, fl: seq<Blk>, live: map<int, nat>, size: map<int, nat>)
    requires Memory(base, top, heap, fl, live, size) && Sorted(fl) && fl[0].addr == base
    ensures forall i | 0 <= i < |fl| :: fl[i].addr < top
    ensures forall b | b in live :: b < top
  {
    hide Units, Covered;
    forall i | 0 <= i < |fl| ensures fl[i].addr < top {
      UnitsMember(fl, fl[i].addr);
    }
    forall b | b in live ensures b < top {
      assert b in Seg(b, live[b]);
    }
  }

  lemma LinkedElsewhere(fl: seq<Blk>, ptr: map<int, int>, size: map<int, nat>, a: int, n: nat)
    requires Linked(fl, ptr, size) && forall i | 0 <= i < |fl| :: fl[i].addr != a
    ensures Linked(fl, ptr, size[a := n])
  {
    var size' := size[a := n];
    forall i | 0 <= i < |fl| ensures LinkedAt(fl, ptr, size', i) {
      assert LinkedAt(fl, ptr, size, i);
    }
  }

  lemma CoverMore(heap: set<int>, free: set<int>, live: map<int, nat>, a: int, n: nat)
    requires Covered(heap, free, live) && a !in live
    ensures Covered(heap + Seg(a, n), free, live[a := n])
  {
    hide Seg;
    var live' := live[a := n];
    forall u | u in heap + Seg(a, n) ensures u in free || exists b | b in live' :: u in Seg(b, live'[b]) {
      if u in heap && u !in free {
        var b :| b in live && u in Seg(b, live[b]);
        assert b in live' && u in Seg(b, live'[b]);
      } else if u !in heap {
        assert a in live' && u in Seg(a, live'[a]);
      }
    }
  }

  lemma ApartMore(heap: set<int>, free: set<int>, live: map<int, nat>, a: int, n: nat)
    requires Apart(heap, free, live) && a !in live && n > 0 && free <= heap && Seg(a, n) !! heap
    ensures Apart(heap + Seg(a, n), free, live[a := n])
  {
    hide Seg;
  }

  /** A fresh region above everything, held as one live block. */
  lemma CoreMemory(base: int, top: int, heap: set<int>, fl: seq<Blk>, live: map<int, nat>, size: map<int, nat>,
                   a: int, n: nat)
    requires Memory(base, top, heap, fl, live, size) && a >= top && n > 0 && forall b | b in live :: b < top
    ensures a !in live && Memory(base, a + n, heap + Seg(a, n), fl, live[a := n], size[a := n])
  {
    hide Units, Covered, Apart;
    CoverMore(heap, Units(fl), live, a, n);
    ApartMore(heap, Units(fl), live, a, n);
  }

  ghost predicate HasBlock(fl: seq<Blk>, n: nat) { exists i | 0 <= i < |fl| :: fl[i].size >= n }

  /** Inserting never makes a block smaller than the one inserted. */
  lemma InsertHas(fl: seq<Blk>, t: nat, b: Blk)
    requires InGap(fl, t, b)
    ensures forall n: nat | n <= b.size :: HasBlock(Insert(fl, t, b), n)
  {
    var c := if JoinsNext(fl, t, b) then Blk(b.addr, b.size + fl[t + 1].size) else b;
    var r := Insert(fl, t, b);
    if End(fl[t]) == c.addr {
      assert r[t].size >= b.size;
    } else {
      assert r[t + 1].size >= b.size;
    }
  }

  lemma LinkedOne(fl: seq<Blk>, ptr: map<int, int>, size: map<int, nat>, i: nat)
    requires Linked(fl, ptr, size) && i < |fl|
    ensures LinkedAt(fl, ptr, size, i)
  {
  }

  lemma PositiveBase(base: int, top: int, heap: set<int>, fl: seq<Blk>, live: map<int, nat>, size: map<int, nat>,
                     i: nat)
    requires Memory(base, top, heap, fl, live, size) && Sorted(fl) && fl[0].addr == base && i < |fl|
    ensures 0 < fl[i].addr
  {
    hide Covered, Apart, Units;
    if i > 0 { SortedAt(fl, 0, i); }
  }

  /** The end of a free block is at no header: neither of the list nor of a live block. */
  lemma CarvedAddress(base: int, top: int, heap: set<int>, fl: seq<Blk>, live: map<int, nat>, size: map<int, nat>,
                      i: nat, n: nat)
    requires Memory(base, top, heap, fl, live, size) && Sorted(fl) && 0 < i < |fl| && 0 < n <= fl[i].size
    ensures var a := Carved(fl, i, n).addr;
            && a !in live && fl[i].addr !in live
            && (n < fl[i].size ==> forall k | 0 <= k < |fl| :: fl[k].addr != a)
  {
    hide Covered, Units;
    var a := Carved(fl, i, n).addr;
    UnitsMember(fl, a);
    UnitsMember(fl, fl[i].addr);
    assert fl[i].addr <= a < End(fl[i]);
    assert forall b | b in live :: b in Seg(b, live[b]);
    forall k | 0 <= k < |fl| && n < fl[i].size ensures fl[k].addr != a {
      if k < i { SortedAt(fl, k, i); } else if k > i { SortedAt(fl, i, k); }
    }
  }

  /** The header writes of malloc() on block i. */
  lemma LinkCarve(fl: seq<Blk>, ptr: map<int, int>, size: map<int, nat>, i: nat, n: nat)
    requires Sorted(fl) && Linked(fl, ptr, size) && 0 < i < |fl| && 0 < n <= fl[i].size
    requires n < fl[i].size ==> forall k | 0 <= k < |fl| :: fl[k].addr != Carved(fl, i, n).addr
    ensures fl[i].addr in ptr && fl[i].addr in size && size[fl[i].addr] == fl[i].size
    ensures n == fl[i].size ==> Linked(Carve(fl, i, n), ptr[fl[i - 1].addr := ptr[fl[i].addr]], size)
    ensures n < fl[i].size ==>
              Linked(Carve(fl, i, n), ptr, size[fl[i].addr := fl[i].size - n][Carved(fl, i, n).addr := n])
  {
    hide Sorted;
    assert LinkedAt(fl, ptr, size, i) && LinkedAt(fl, ptr, size, i - 1);
    if n == fl[i].size {
      LinkJoin(fl, ptr, size, i - 1, fl[i - 1].size, i + 1);
      assert fl[..i - 1] + [Blk(fl[i - 1].addr, fl[i - 1].size)] + fl[i + 1..] == Carve(fl, i, n);
      assert size[fl[i - 1].addr := fl[i - 1].size] == size;
    } else {
      LinkJoin(fl, ptr, size, i, fl[i].size - n, i + 1);
      assert fl[..i] + [Blk(fl[i].addr, fl[i].size - n)] + fl[i + 1..] == Carve(fl, i, n);
      assert ptr[fl[i].addr := NextAddr(fl, i + 1)] == ptr;
      LinkedElsewhere(Carve(fl, i, n), ptr, size[fl[i].addr := fl[i].size - n], Carved(fl, i, n).addr, n);
    }
  }

  /** Moving units from the free list to a new live block keeps the heap partitioned. */
  lemma CarvedMemory(base: int, top: int, heap: set<int>, fl: seq<Blk>, live: map<int, nat>, size: map<int, nat>,
                     fl': seq<Blk>, a: int, n: nat, size': map<int, nat>)
    requires Memory(base, top, heap, fl, live, size) && a !in live && n > 0
    requires Units(fl) == Units(fl') + Seg(a, n) && Units(fl') !! Seg(a, n)
    requires a in size' && size'[a] == n && forall x | x in live && x in size :: x in size' && size'[x] == size[x]
    ensures Memory(base, top, heap, fl', live[a := n], size')
  {
    hide Units, Seg, Covered;
    assert Apart(heap, Units(fl'), live[a := n]);
    CarvedCover(heap, Units(fl), Units(fl'), live, a, n);
  }

  lemma CarvedCover(heap: set<int>, free: set<int>, free': set<int>, live: map<int, nat>, a: int, n: nat)
    requires Covered(heap, free, live) && a !in live && free == free' + Seg(a, n)
    ensures Covered(heap, free', live[a := n])
  {
    hide Seg;
    var live' := live[a := n];
    forall u | u in heap ensures u in free' || exists b | b in live' :: u in Seg(b, live'[b]) {
      if u in Seg(a, n) {
        assert a in live' && u in Seg(a, live'[a]);
      } else if u !in free {
        var b :| b in live && u in Seg(b, live[b]);
        assert b in live' && u in Seg(b, live'[b]);
      }
    }
  }

  lemma SegEmpty(a: int)
    ensures Seg(a, 0) == {}
  {
  }

  /** The least number of units with one header and room for nbytes. */
  function NUnits(nbytes: nat): (n: nat)
    ensures n >= 1 && (n - 2) * 8 < nbytes <= (n - 1) * 8
  {
    (nbytes + HEADER - 1) / HEADER + 1
  }

  const UINT: nat := 0x1_0000_0000

  /** nunits as 32-bit unsigned arithmetic computes it. */
  function NUnits32(nbytes: nat): nat { (nbytes + HEADER - 1) % UINT / HEADER + 1 }

  /** nu * sizeof(Header), computed unsigned and passed to sbrk as an int. */
  function SbrkArgument(nu: nat): int {
    var x := nu * HEADER % UINT;
    if x < 0x8000_0000 then x else x - UINT
  }

  /** For which requests morecore() asks for the memory it means to have, and what it asks for otherwise. */
  lemma SbrkRequest(nbytes: nat)
    requires nbytes < UINT
    ensures SbrkArgument(CoreUnits(NUnits32(nbytes))) == CoreUnits(NUnits(nbytes)) * HEADER <==> nbytes <= 0x7FFF_FFF0
    ensures SbrkArgument(CoreUnits(NUnits32(nbytes))) < 0 <==> 0x7FFF_FFF0 < nbytes <= 0xFFFF_FFF0
    ensures SbrkArgument(CoreUnits(NUnits32(nbytes))) == 0 <==> 0xFFFF_FFF0 < nbytes <= 0xFFFF_FFF8
    ensures AsksRight(nbytes) <==> nbytes <= 0x7FFF_FFF0 || nbytes > 0xFFFF_FFF8
  {
    WrappedUnits(nbytes);
  }

  /** morecore() asks sbrk for as many bytes as it then puts on the list. */
  predicate AsksRight(nbytes: nat) {
    SbrkArgument(CoreUnits(NUnits32(nbytes))) == CoreUnits(NUnits32(nbytes)) * HEADER
  }

  /** The last seven sizes wrap to one unit, a header without room; all others get a block with room for nbytes. */
  lemma WrappedUnits(nbytes: nat)
    requires nbytes < UINT
    ensures NUnits32(nbytes) == (if nbytes <= 0xFFFF_FFF8 then NUnits(nbytes) else 1)
    ensures (NUnits32(nbytes) - 1) * HEADER >= nbytes <==> nbytes <= 0xFFFF_FFF8
  {
    if nbytes > 0xFFFF_FFF8 {
      assert (nbytes + HEADER - 1) % UINT == nbytes + HEADER - 1 - UINT < HEADER;
    }
  }

  /** s steps around a circle of n from position a. */
  ghost function Turn(a: nat, s: nat, n: nat): (k: nat)
    requires a < n && s <= n
    ensures k < n
  {
    if a + s < n then a + s else a + s - n
  }

  lemma BaseIsEmpty(fl: seq<Blk>, k: nat, n: nat)
    requires Sorted(fl) && k < |fl| && fl[k].size >= n > 0
    ensures k > 0 && HasBlock(fl, n)
  {
  }

  /** The free units are what the live blocks leave of the heap. */
  lemma FreeIsTheRest(base: int, top: int, heap: set<int>, fl: seq<Blk>, live: map<int, nat>, size: map<int, nat>,
                      u: int)
    requires Memory(base, top, heap, fl, live, size) && u in heap
    ensures u in Units(fl) <==> forall b | b in live :: u !in Seg(b, live[b])
  {
    hide Units, Seg;
  }

  lemma SameHeap(base: int, top: int, top': int, heap: set<int>, fl: seq<Blk>, live: map<int, nat>,
                 size: map<int, nat>, fl': seq<Blk>, size': map<int, nat>, b: int, n: nat)
    requires Memory(base, top, heap, fl, live, size) && b !in live
    requires Memory(base, top', heap, fl', live[b := n], size')
    ensures Units(fl) == Units(fl') + Seg(b, n)
  {
    hide Units, Seg, Covered;
    var live' := live[b := n];
    assert b in live' && live'[b] == n;
    assert forall x | x in live' :: x == b || (x in live && live'[x] == live[x]);
    forall u | u in heap ensures u in Units(fl) <==> u in Units(fl') || u in Seg(b, n) {
      FreeIsTheRest(base, top, heap, fl, live, size, u);
      FreeIsTheRest(base, top', heap, fl', live', size', u);
      if u in Units(fl') || u in Seg(b, n) {
        forall x | x in live ensures u !in Seg(x, live[x]) {
          assert x in live' && live'[x] == live[x] && x != b;
        }
      }
    }
  }

  /** malloc()'s scan: seen steps past freep, all blocks so far too small, p the next one. */
  ghost predicate Scanned(fl: seq<Blk>, at: nat, seen: nat, prevp: int, p: int, n: nat) {
    && at < |fl| && seen < |fl|
    && prevp == fl[Turn(at, seen, |fl|)].addr && p == fl[Turn(at, seen + 1, |fl|)].addr
    && forall s | 1 <= s <= seen :: fl[Turn(at, s, |fl|)].size < n
  }

  lemma ScanStart(fl: seq<Blk>, at: nat, p: int, n: nat)
    requires at < |fl| && p == NextAddr(fl, at + 1)
    ensures Scanned(fl, at, 0, fl[at].addr, p, n)
  {
  }

  lemma ScanStep(fl: seq<Blk>, at: nat, seen: nat, prevp: int, p: int, n: nat, next: int)
    requires Scanned(fl, at, seen, prevp, p, n) && p != fl[at].addr
    requires var k := Turn(at, seen + 1, |fl|); fl[k].size < n && next == NextAddr(fl, k + 1)
    ensures Scanned(fl, at, seen + 1, p, next, n)
  {
  }

  lemma NotLast(fl: seq<Blk>, at: nat, seen: nat, prevp: int, p: int, n: nat)
    requires Scanned(fl, at, seen, prevp, p, n) && p != fl[at].addr
    ensures seen + 1 < |fl|
  {
  }

  /** The predecessor of the block at p is the one at prevp. */
  lemma ScanPosition(fl: seq<Blk>, at: nat, seen: nat, prevp: int, p: int, n: nat)
    requires Scanned(fl, at, seen, prevp, p, n)
    ensures var k := Turn(at, seen + 1, |fl|);
            p == fl[k].addr && (k > 0 ==> prevp == fl[k - 1].addr)
  {
  }

  /**
   * Next fit: the first block past freep with n units or more gives up its last n, whose header is just below r;
   * the list is left as fl', with freep at the block before.
   */
  ghost predicate NextFit(fl: seq<Blk>, at: nat, n: nat, r: int, fl': seq<Blk>, at': nat) {
    at < |fl| && exists s | 1 <= s <= |fl| :: FitsAt(fl, at, n, r, fl', at', s)
  }

  ghost predicate FitsAt(fl: seq<Blk>, at: nat, n: nat, r: int, fl': seq<Blk>, at': nat, s: nat)
    requires at < |fl| && s <= |fl|
  {
    var k := Turn(at, s, |fl|);
    && fl[k].size >= n && (forall j | 1 <= j < s :: fl[Turn(at, j, |fl|)].size < n)
    && r - 1 == fl[k].addr + fl[k].size - n && at' == k - 1
    && fl' == if fl[k].size == n then fl[..k] + fl[k + 1..] else fl[k := Blk(fl[k].addr, fl[k].size - n)]
  }

  lemma FirstFits(fl: seq<Blk>, at: nat, seen: nat, prevp: int, p: int, n: nat)
    requires Scanned(fl, at, seen, prevp, p, n) && n > 0
    requires var k := Turn(at, seen + 1, |fl|); k > 0 && fl[k].size >= n
    ensures var k := Turn(at, seen + 1, |fl|);
            NextFit(fl, at, n, Carved(fl, k, n).addr + 1, Carve(fl, k, n), k - 1)
  {
    var k := Turn(at, seen + 1, |fl|);
    assert FitsAt(fl, at, n, Carved(fl, k, n).addr + 1, Carve(fl, k, n), k - 1, seen + 1);
  }

  /** Back at the start after |fl| steps with no block large enough: there is none. */
  lemma FullTurn(fl: seq<Blk>, at: nat, seen: nat, prevp: int, n: nat)
    requires at < |fl|
    requires Sorted(fl) && Scanned(fl, at, seen, prevp, fl[at].addr, n)
    requires fl[Turn(at, seen + 1, |fl|)].size < n
    ensures !HasBlock(fl, n)
  {
    hide Sorted;
    DistinctAddrs(fl, Turn(at, seen + 1, |fl|), at);
    forall i | 0 <= i < |fl| ensures fl[i].size < n {
      var s := if i > at then i - at else i + |fl| - at;
      assert Turn(at, s, |fl|) == i;
    }
  }

  class Allocator {
    const base: int                 // &base, below every region sbrk returns
    var ptr: map<int, int>
    var size: map<int, nat>
    var freep: int                  // 0 until the first malloc
    ghost var fl: seq<Blk>          // the free list in address order, from base
    ghost var at: nat               // freep's position in it
    ghost var live: map<int, nat>   // blocks handed out: header address and size
    ghost var heap: set<int>        // every unit sbrk ever returned
    ghost var top: int

    /** The free list: circular through memory, in address order, no two blocks touching. */
    ghost predicate ListOk()
      reads this
    {
      && Sorted(fl) && fl[0].addr == base && Linked(fl, ptr, size)
      && at < |fl| && freep == fl[at].addr
    }

    ghost predicate Valid()
      reads this
    {
      Memory(base, top, heap, fl, live, size) && if freep == 0 then fl == [] && live == map[] else ListOk()
    }

    /** Before the first call: no list, no block handed out, and nothing asked of sbrk. */
    constructor (base: int, top: int)
      requires 0 < base < top
      ensures Valid() && this.base == base && this.top == top && freep == 0 && heap == {}
    {
      this.base, ptr, size, freep := base, map[], map[], 0;
      fl, at, live, heap, this.top := [], 0, map[], {}, top;
    }

    /** free()'s search loop: the list position after which bp belongs. */
    method Search(bp: int) returns (p: int, ghost t: nat)
      requires ListOk() && base < bp && forall i | 0 <= i < |fl| :: fl[i].addr != bp
      ensures t < |fl| && p == fl[t].addr && base <= p < bp && (t + 1 < |fl| ==> bp < fl[t + 1].addr)
    {
      ghost var gap := GapOf(fl, bp);
      ghost var k: nat := at;
      p := freep;
      assert LinkedAt(fl, ptr, size, k);
      while !(bp > p && bp < ptr[p])
        invariant k < |fl| && p == fl[k].addr && LinkedAt(fl, ptr, size, k)
        decreases if k <= gap then gap - k else |fl| - k + gap
      {
        if p >= ptr[p] && (bp > p || bp < ptr[p]) {
          break;
        }
        p := ptr[p];
        k := if k + 1 < |fl| then k + 1 else 0;
        assert LinkedAt(fl, ptr, size, k);
      }
      t := k;
    }

    /** free()'s header writes for the block at bp, which belongs after block t at p. */
    method Relink(bp: int, p: int, ghost t: nat, ghost b: Blk)
      requires Sorted(fl) && Linked(fl, ptr, size) && InGap(fl, t, b) && p == fl[t].addr
      requires fl[0].addr < bp == b.addr && bp in size && size[bp] == b.size
      requires forall i | 0 <= i < |fl| :: fl[i].addr != bp
      modifies this`ptr, this`size, this`freep
      ensures Linked(Insert(fl, t, b), ptr, size) && freep == p
      ensures t < |Insert(fl, t, b)| && Insert(fl, t, b)[t].addr == p
      ensures forall x | x in old(size) && x != bp && x != p :: x in size && size[x] == old(size)[x]
    {
      hide Sorted, Insert;
      assert LinkedAt(fl, ptr, size, t);
      ghost var joins := JoinsNext(fl, t, b);
      if bp + size[bp] == ptr[p] {
        assert joins && LinkedAt(fl, ptr, size, t + 1);
        size := size[bp := size[bp] + size[ptr[p]]];
        ptr := ptr[bp := ptr[ptr[p]]];
      } else {
        ptr := ptr[bp := ptr[p]];
        assert size == size[bp := b.size];
      }
      if p + size[p] == bp {
        size := size[p := size[p] + size[bp]];
        ptr := ptr[p := ptr[bp]];
      } else {
        ptr := ptr[p := bp];
      }
      freep := p;
      RelinkList(fl, old(ptr), old(size), t, b, Blk(bp, if joins then b.size + fl[t + 1].size else b.size),
                 if joins then t + 2 else t + 1, ptr, size);
    }

    /** free(): the block's units go back to the list, merged with the neighbours they touch. */
    method Free(ap: int) returns (ghost t: nat)
      requires Valid() && ap - 1 in live
      modifies this`ptr, this`size, this`freep, this`fl, this`at, this`live
      ensures Valid() && freep != 0
      ensures live == old(live) - {ap - 1}
      ensures InGap(old(fl), t, Blk(ap - 1, old(live)[ap - 1]))
      ensures fl == Insert(old(fl), t, Blk(ap - 1, old(live)[ap - 1]))
      ensures Units(fl) == old(Units(fl)) + Seg(ap - 1, old(live)[ap - 1])
    {
      hide Sorted, Insert, Units, Seg, Linked;
      var bp := ap - 1;
      ghost var b := Blk(bp, live[bp]);
      LiveAddress(base, top, heap, fl, live, size, bp);
      var p;
      p, t := Search(bp);
      DisjointFits(fl, t, b);
      Relink(bp, p, t, b);
      InsertUnits(fl, t, b);
      InsertSorted(fl, t, b);
      forall x | x in live && x != bp ensures x in size && size[x] == old(size)[x] {
        LiveAddress(base, top, heap, fl, live, old(size), x);
      }
      FreedMemory(base, top, heap, fl, live, old(size), bp, Insert(fl, t, b), size);
      fl := Insert(fl, t, b);
      live := live - {bp};
      at := t;
    }

    /** morecore(), with brk the address sbrk returns or a negative number if it fails. */
    method Morecore(nunits: nat, brk: int) returns (r: int)
      requires Valid() && freep != 0 && nunits > 0 && (brk < 0 || brk >= top)
      modifies this`ptr, this`size, this`freep, this`fl, this`at, this`live, this`heap, this`top
      ensures Valid() && freep != 0 && live == old(live)
      ensures brk < 0 ==> r == 0 && fl == old(fl) && at == old(at) && heap == old(heap) && top == old(top)
      ensures brk >= 0 ==>
                && r == freep && heap == old(heap) + Seg(brk, CoreUnits(nunits)) && top == brk + CoreUnits(nunits)
                && top - brk >= nunits && top - brk >= 4096 && top - brk in {nunits, 4096}
                && Units(fl) == old(Units(fl)) + Seg(brk, CoreUnits(nunits))
                && HasBlock(fl, nunits)
    {
      hide Sorted, Insert, Units, Seg, Linked, Memory;
      var nu := if nunits < MINCORE then MINCORE else nunits;
      if brk < 0 {
        return 0;
      }
      var hp := brk;
      AddressesBelow(base, top, heap, fl, live, size);
      LinkedElsewhere(fl, ptr, size, hp, nu);
      CoreMemory(base, top, heap, fl, live, size, hp, nu);
      size := size[hp := nu];
      ghost var live0, fl0 := live, fl;
      heap, live, top := heap + Seg(hp, nu), live[hp := nu], hp + nu;
      ghost var t := Free(hp + 1);
      assert live == live0;
      InsertHas(fl0, t, Blk(hp, nu));
      r := freep;
    }

    /** malloc()'s allocation from block i at p, whose predecessor is prevp. */
    method Take(prevp: int, p: int, nunits: nat, ghost i: nat) returns (r: int)
      requires Valid() && freep != 0 && 0 < i < |fl| && p == fl[i].addr && prevp == fl[i - 1].addr
      requires 0 < nunits <= fl[i].size
      modifies this`ptr, this`size, this`freep, this`fl, this`at, this`live
      ensures Valid() && freep != 0
      ensures r - 1 == Carved(old(fl), i, nunits).addr > 0 && r - 1 !in old(live)
      ensures live == old(live)[r - 1 := nunits] && fl == Carve(old(fl), i, nunits) && at == i - 1
    {
      hide Sorted, Units, Seg, Linked, Memory;
      ghost var c := Carved(fl, i, nunits);
      CarveUnits(fl, i, nunits);
      CarveSorted(fl, i, nunits);
      CarvedAddress(base, top, heap, fl, live, size, i, nunits);
      PositiveBase(base, top, heap, fl, live, size, i - 1);
      PositiveBase(base, top, heap, fl, live, size, i);
      LinkCarve(fl, ptr, size, i, nunits);
      CarvedMemory(base, top, heap, fl, live, size, Carve(fl, i, nunits), c.addr, nunits,
                   if fl[i].size == nunits then size else size[p := fl[i].size - nunits][c.addr := nunits]);
      assert LinkedAt(fl, ptr, size, i) by { LinkedOne(fl, ptr, size, i); }
      var q := p;
      if size[q] == nunits {
        ptr := ptr[prevp := ptr[q]];
      } else {
        size := size[q := size[q] - nunits];
        q := q + size[q];
        size := size[q := nunits];
      }
      freep := prevp;
      r := q + 1;
      live := live[q := nunits];
      fl := Carve(fl, i, nunits);
      at := i - 1;
    }

    /** The first malloc() sets up a list of base alone. */
    method InitList()
      requires Valid() && freep == 0
      modifies this`ptr, this`size, this`freep, this`fl, this`at
      ensures Valid() && freep != 0 && fl == [Blk(base, 0)] && Units(fl) == old(Units(fl))
    {
      hide Covered, Apart, Seg;
      ptr := ptr[base := base];
      freep := base;
      size := size[base := 0];
      fl, at := [Blk(base, 0)], 0;
      assert LinkedAt(fl, ptr, size, 0);
      UnitsOne(fl[0]);
      SegEmpty(base);
    }

    /**
     * malloc(), with brk what sbrk would return.  It calls sbrk only if no free block is large enough,
     * and then at most once.  A call of sbrk with a wrong byte count is outside the model.
     */
    method Malloc(nbytes: nat, brk: int) returns (r: int)
      requires Valid() && nbytes < UINT && (HasBlock(fl, NUnits32(nbytes)) || AsksRight(nbytes)) &&
               (brk < 0 || brk >= top)
      modifies this`ptr, this`size, this`freep, this`fl, this`at, this`live, this`heap, this`top
      ensures Valid() && freep != 0
      ensures r == 0 <==> brk < 0 && forall i | 0 <= i < |old(fl)| :: old(fl)[i].size < NUnits32(nbytes)
      ensures r == 0 ==> live == old(live) && Units(fl) == old(Units(fl))
      ensures r != 0 ==> r - 1 !in old(live) && live == old(live)[r - 1 := NUnits32(nbytes)]
      ensures heap == if HasBlock(old(fl), NUnits32(nbytes)) || brk < 0 then old(heap)
                      else old(heap) + Seg(brk, CoreUnits(NUnits32(nbytes)))
      ensures old(freep) != 0 && HasBlock(old(fl), NUnits32(nbytes)) ==>
                NextFit(old(fl), old(at), NUnits32(nbytes), r, fl, at)
    {
      hide Sorted, Units, Seg, Linked, Memory, Carve, Carved, Scanned, NextFit;
      var nunits := NUnits32(nbytes);
      if freep == 0 {
        InitList();
      }
      ghost var had, grown, seen: nat := HasBlock(fl, nunits), false, 0;
      assert had == HasBlock(old(fl), nunits);
      hide HasBlock;
      var prevp := freep;
      LinkedOne(fl, ptr, size, at);
      var p := ptr[prevp];
      ScanStart(fl, at, p, nunits);
      while true
        invariant Valid() && freep != 0 && live == old(live)
        invariant Scanned(fl, at, seen, prevp, p, nunits) && seen < |fl|
        invariant !grown ==> had == HasBlock(fl, nunits) && heap == old(heap) && top == old(top)
        invariant !grown ==> Units(fl) == old(Units(fl))
        invariant !grown && old(freep) != 0 ==> fl == old(fl) && at == old(at)
        invariant grown ==> HasBlock(fl, nunits) && brk >= 0 && !had && heap == old(heap) + Seg(brk, CoreUnits(nunits))
        decreases if grown then 0 else 1, |fl| - seen
      {
        ghost var k := Turn(at, seen + 1, |fl|);
        ScanPosition(fl, at, seen, prevp, p, nunits);
        LinkedOne(fl, ptr, size, k);
        if size[p] >= nunits {
          BaseIsEmpty(fl, k, nunits);
          FirstFits(fl, at, seen, prevp, p, nunits);
          r := Take(prevp, p, nunits, k);
          return r;
        }
        if p == freep {
          FullTurn(fl, at, seen, prevp, nunits);
          p := Morecore(nunits, brk);
          if p == 0 {
            return 0;
          }
          grown, seen := true, 0;
          prevp := p;
          LinkedOne(fl, ptr, size, at);
          p := ptr[p];
          ScanStart(fl, at, p, nunits);
        } else {
          ScanStep(fl, at, seen, prevp, p, nunits, ptr[p]);
          NotLast(fl, at, seen, prevp, p, nunits);
          seen := seen + 1;
          prevp := p;
          p := ptr[p];
        }
      }
    }
  }

  /** When a free block was large enough, free(malloc(n)) gives back exactly the list there was before. */
  method MallocThenFree(h: Allocator, nbytes: nat, brk: int)
    requires h.Valid() && h.freep != 0 && nbytes < UINT && (brk < 0 || brk >= h.top)
    requires HasBlock(h.fl, NUnits32(nbytes))
    modifies h
    ensures h.Valid() && h.fl == old(h.fl) && h.live == old(h.live) && h.heap == old(h.heap)
  {
    hide Memory, Linked, Units, Seg, HasBlock, Insert;
    var p := h.Malloc(nbytes, brk);
    SameHeap(h.base, old(h.top), h.top, h.heap, old(h.fl), old(h.live), old(h.size), h.fl, h.size, p - 1,
             NUnits32(nbytes));
    ghost var t := h.Free(p);
    CanonicalList(h.fl, old(h.fl));
  }
}
