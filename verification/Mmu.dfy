/**
 * What the processor makes of the page tables: the physical page that an access reaches, and when it faults.
 * An access needs the permission of the directory entry and of the page table entry; since entry.S sets
 * CR0_WP, a write needs PTE_W in the kernel too.
 */
module Mmu {
  import opened Wrappers
  import opened Blocks
  import opened PageTable
  import opened AddressSpace

  /** An access in user mode or not, for writing or not. */
  datatype Access = Access(user: bool, write: bool)

  /** Bit 0 of an entry is PTE_P, bit 1 PTE_W and bit 2 PTE_U. */
  predicate Allows(e: Word32, a: Access) {
    e % 2 == 1 && (a.write ==> e / 2 % 2 == 1) && (a.user ==> e / 4 % 2 == 1)
  }

  /** The page that access a to virtual page v reaches with directory d, or None where it faults. */
  function Reach(mem: seq<Page>, d: nat, v: nat, a: Access): Option<nat> {
    var pde := WordAt(mem, d, v / 1024);
    if !Allows(pde, a) then None
    else
      var pte := WordAt(mem, pde / 4096, v % 1024);
      if Allows(pte, a) then Some(pte / 4096) else None
  }

  /**
   * The kernel's view: no user access; physical memory 0..PHYSTOP from KERNBASE, read-only between EXTMEM and
   * data; the devices from DEVSPACE at their own addresses.
   */
  function KernelReach(data: nat, v: nat, a: Access): Option<nat> {
    if a.user then None
    else if 0x8_0000 <= v < 0x8_E000 then
      if a.write && 0x100 <= v - 0x8_0000 < data / 4096 then None else Some(v - 0x8_0000)
    else if 0xF_E000 <= v < 0x10_0000 then Some(v)
    else None
  }

  /** The directory entries forbid nothing, so the page table entry decides. */
  lemma EntryDecides(mem: seq<Page>, owner: map<nat, Owner>, d: nat, v: nat, a: Access)
    requires Owned(mem, owner) && IsDir(owner, d) && v < VPAGES
    ensures var e := Entry(mem, d, v); Reach(mem, d, v, a) == if Allows(e, a) then Some(Frame(e)) else None
  {
    var pde := WordAt(mem, d, v / 1024);
    if Present(pde) {
      assert Flags(pde) == 7;
      SevenAllows(pde, a);
    }
  }

  /** The three bits are bits of the flags. */
  lemma LowBits(e: nat, f: nat, q: nat)
    requires e == 4096 * q + f
    ensures e % 2 == f % 2 && e / 2 % 2 == f / 2 % 2 && e / 4 % 2 == f / 4 % 2
  {
    assert e / 2 == 2048 * q + f / 2;
    assert e / 4 == 1024 * q + f / 4;
    Even(1024 * q, f / 2);
    Even(512 * q, f / 4);
    Even(2048 * q, f);
  }

  lemma Even(k: nat, x: nat)
    ensures (2 * k + x) % 2 == x % 2
  {
  }

  lemma AllowsFlags(e: Word32, e': Word32, a: Access)
    requires Flags(e) == Flags(e')
    ensures Allows(e, a) == Allows(e', a)
  {
    LowBits(e, Flags(e), e / 4096);
    LowBits(e', Flags(e'), e' / 4096);
  }

  lemma SevenAllows(e: Word32, a: Access)
    requires Flags(e) == 7
    ensures Allows(e, a)
  {
    LowBits(e, 7, e / 4096);
  }

  /** Equal entries, in states that are both in order, are reached alike. */
  lemma SameReach(mem: seq<Page>, mem': seq<Page>, owner: map<nat, Owner>, owner': map<nat, Owner>, d: nat, v: nat,
                  a: Access)
    requires Owned(mem, owner) && Owned(mem', owner') && IsDir(owner, d) && IsDir(owner', d) && v < VPAGES
    requires SameMapping(Entry(mem, d, v), Entry(mem', d, v))
    ensures Reach(mem', d, v, a) == Reach(mem, d, v, a)
  {
    hide Owned, Entry, Reach;
    EntryDecides(mem, owner, d, v, a);
    EntryDecides(mem', owner', d, v, a);
  }

  // ---- setupkvm() ----

  ghost predicate KernelView(mem: seq<Page>, d: nat, data: nat, lo: nat) {
    forall v: nat, a: Access | lo <= v < VPAGES :: Reach(mem, d, v, a) == KernelReach(data, v, a)
  }

  lemma KernelEntryReach(data: nat, v: nat, a: Access)
    requires DataAddress(data) && v < VPAGES
    ensures var e := KernelEntry(data, v); KernelReach(data, v, a) == if Allows(e, a) then Some(Frame(e)) else None
  {
    var e := KernelEntry(data, v);
    if EXTMEM / PGSIZE <= v - UPAGES < data / PGSIZE { AllowsFlags(e, 1, a); } else if e != 0 { AllowsFlags(e, 3, a); }
  }

  /** The kernel can read what it maps, write all but its text and read-only data, and a user can do neither. */
  lemma KernelReached(mem: seq<Page>, owner: map<nat, Owner>, d: nat, data: nat)
    requires Owned(mem, owner) && IsDir(owner, d) && DataAddress(data) && KernelUpTo(mem, d, data, VPAGES)
    ensures KernelView(mem, d, data, 0)
  {
    hide Owned, Entry, Reach, KernelReach, KernelEntry, Allows;
    forall v: nat, a: Access | v < VPAGES ensures Reach(mem, d, v, a) == KernelReach(data, v, a) {
      EntryDecides(mem, owner, d, v, a);
      KernelEntryReach(data, v, a);
    }
  }

  // ---- copyuvm() ----

  /** The child may do with its page v what the parent may, and finds there a copy of the parent's page. */
  ghost predicate SameView(mem: seq<Page>, mem': seq<Page>, owner: map<nat, Owner>, d0: nat, d: nat, v: nat, a: Access)
  {
    var r, r' := Reach(mem, d0, v, a), Reach(mem', d, v, a);
    && (r'.Some? <==> r.Some?)
    && (r.Some? ==> && r.value < |mem| && r'.value < |mem'| && r'.value !in owner
                    && mem'[r'.value] == mem[r.value])
  }

  ghost predicate CopyView(mem: seq<Page>, mem': seq<Page>, owner: map<nat, Owner>, d0: nat, d: nat, n: nat) {
    forall v: nat, a: Access | v < n && v < VPAGES :: SameView(mem, mem', owner, d0, d, v, a)
  }

  lemma CopyReached(mem: seq<Page>, mem': seq<Page>, owner: map<nat, Owner>, owner': map<nat, Owner>, d0: nat, d: nat,
                    data: nat, n: nat)
    requires Owned(mem, owner) && Owned(mem', owner') && IsDir(owner, d0) && IsDir(owner', d) && DataAddress(data)
    requires Copied(mem, mem', owner, d0, d, data, n)
    ensures CopyView(mem, mem', owner, d0, d, n) && KernelView(mem', d, data, n)
  {
    hide Owned, Entry, Reach, KernelReach, KernelEntry, Allows, Copied;
    forall v: nat, a: Access | v < n && v < VPAGES ensures SameView(mem, mem', owner, d0, d, v, a) {
      CopiedOne(mem, mem', owner, d0, d, data, n, v);
      EntryDecides(mem, owner, d0, v, a);
      EntryDecides(mem', owner', d, v, a);
      AllowsFlags(Entry(mem, d0, v), Entry(mem', d, v), a);
    }
    forall v: nat, a: Access | n <= v < VPAGES ensures Reach(mem', d, v, a) == KernelReach(data, v, a) {
      CopiedOne(mem, mem', owner, d0, d, data, n, v);
      EntryDecides(mem', owner', d, v, a);
      KernelEntryReach(data, v, a);
    }
  }

  lemma CopiedOne(mem: seq<Page>, mem': seq<Page>, owner: map<nat, Owner>, d0: nat, d: nat, data: nat, n: nat, v: nat)
    requires Copied(mem, mem', owner, d0, d, data, n) && v < VPAGES
    ensures CopiedAt(mem, mem', owner, d0, d, data, n, v)
  {
  }

  // ---- allocuvm() and deallocuvm() ----

  /** The user can read and write pages lo..hi of d, finds them zero, and reaches every other page as before. */
  ghost predicate GrownView(mem: seq<Page>, mem': seq<Page>, owner: map<nat, Owner>, d: nat, lo: nat, hi: nat) {
    forall v: nat, a: Access | v < VPAGES ::
      if lo <= v < hi then ZeroReached(mem', owner, Reach(mem', d, v, a))
      else Reach(mem', d, v, a) == Reach(mem, d, v, a)
  }

  ghost predicate ZeroReached(mem': seq<Page>, owner: map<nat, Owner>, r: Option<nat>) {
    && r.Some? && r.value !in owner && r.value < |mem'|
    && forall i | 0 <= i < 1024 :: mem'[r.value][i] == 0
  }

  lemma GrownReached(mem: seq<Page>, mem': seq<Page>, owner: map<nat, Owner>, owner': map<nat, Owner>, d: nat,
                     lo: nat, hi: nat)
    requires Owned(mem, owner) && Owned(mem', owner') && IsDir(owner, d) && IsDir(owner', d)
    requires Grown(mem, mem', owner, owner', d, lo, hi)
    ensures GrownView(mem, mem', owner, d, lo, hi)
  {
    hide Owned, Entry, Reach, Grown;
    forall v: nat, a: Access | v < VPAGES
      ensures if lo <= v < hi then ZeroReached(mem', owner, Reach(mem', d, v, a))
              else Reach(mem', d, v, a) == Reach(mem, d, v, a)
    {
      GrownOne(mem, mem', owner, owner', d, lo, hi, v);
      if lo <= v < hi {
        EntryDecides(mem', owner', d, v, a);
        SevenAllows(Entry(mem', d, v), a);
      } else {
        SameReach(mem, mem', owner, owner', d, v, a);
      }
    }
  }

  lemma GrownOne(mem: seq<Page>, mem': seq<Page>, owner: map<nat, Owner>, owner': map<nat, Owner>, d: nat, lo: nat,
                 hi: nat, v: nat)
    requires Grown(mem, mem', owner, owner', d, lo, hi) && IsDir(owner, d) && v < VPAGES
    ensures GrownAt(mem, mem', owner, d, lo, hi, d, v)
  {
  }

  /** Pages lo..hi of d fault, and every other page is reached as before. */
  ghost predicate ShrunkView(mem: seq<Page>, mem': seq<Page>, d: nat, lo: nat, hi: nat) {
    forall v: nat, a: Access | v < VPAGES ::
      Reach(mem', d, v, a) == if lo <= v < hi then None else Reach(mem, d, v, a)
  }

  lemma ShrunkReached(mem: seq<Page>, mem': seq<Page>, owner: map<nat, Owner>, owner': map<nat, Owner>, d: nat,
                      lo: nat, hi: nat)
    requires Owned(mem, owner) && Owned(mem', owner') && IsDir(owner, d) && IsDir(owner', d)
    requires Dealloced(mem, mem', owner, owner', d, lo, hi)
    ensures ShrunkView(mem, mem', d, lo, hi)
  {
    hide Owned, Entry, Reach, OnlyTables, Unmapped;
    forall v: nat, a: Access | v < VPAGES
      ensures Reach(mem', d, v, a) == if lo <= v < hi then None else Reach(mem, d, v, a)
    {
      if lo <= v < hi {
        EntryDecides(mem', owner', d, v, a);
      } else {
        SameReach(mem, mem', owner, owner', d, v, a);
      }
    }
  }
}
