/**
 * Two-level x86 page tables in physical memory, and who owns each physical page.
 *
 * Physical memory is a sequence of pages of 1024 words.  The abstract page table of a directory d is
 * the function v -> Entry(mem, d, v) from virtual page numbers to page table entries.
 */
module PageTable {
  import opened Blocks

  const PGSIZE: nat := 4096
  const NPTENTRIES: nat := 1024
  const VPAGES: nat := 0x10_0000   // virtual pages: 2^32 / PGSIZE
  const UPAGES: nat := 0x8_0000    // virtual pages below KERNBASE
  const NPAGES: nat := 0xE000      // physical pages: PHYSTOP / PGSIZE
  const KERNBASE: nat := 0x8000_0000
  const PTE_W: nat := 2
  const PTE_U: nat := 4

  type Page = p: seq<Word32> | |p| == 1024 witness seq(1024, _ => 0)

  /** memset(page, c, PGSIZE), given the word that four bytes c make */
  function Filled(w: Word32): (p: Page)
    ensures forall i | 0 <= i < 1024 :: p[i] == w
  {
    seq(1024, _ => w)
  }

  function Present(e: Word32): bool { e % 2 == 1 }

  /** PTE_ADDR(e), as a page number */
  function Frame(e: Word32): nat { e / 4096 }

  function Flags(e: Word32): nat { e % 4096 }

  function Pack(page: nat, flags: nat): (e: Word32)
    requires page < VPAGES && flags < PGSIZE
    ensures e % 4096 == flags && e / 4096 == page && e % 2 == flags % 2
  {
    page * 4096 + flags
  }

  /** pa | perm | PTE_P, where pa is the address of a page */
  function MakeEntry(page: nat, perm: nat): (e: Word32)
    requires page < VPAGES && perm < PGSIZE
    ensures Present(e) && Frame(e) == page && Flags(e) == (if perm % 2 == 1 then perm else perm + 1)
  {
    Pack(page, if perm % 2 == 1 then perm else perm + 1)
  }

  function WordAt(mem: seq<Page>, p: nat, i: nat): Word32 {
    if p < |mem| && i < 1024 then mem[p][i] else 0
  }

  /** The page table entry of virtual page v, or 0 where there is no page table for it. */
  function Entry(mem: seq<Page>, d: nat, v: nat): Word32 {
    var pde := WordAt(mem, d, v / 1024);
    if Present(pde) then WordAt(mem, Frame(pde), v % 1024) else 0
  }

  /** The page tables that directory d has, by index. */
  ghost function Tables(mem: seq<Page>, d: nat): set<nat> {
    set i: nat | i < 1024 && Present(WordAt(mem, d, i))
  }

  // ---- ownership ----

  /** What an allocated page is: a directory, the i-th page table of d, user page v of d, or anything else. */
  datatype Owner = Dir | Table(d: nat, i: nat) | User(d: nat, v: nat) | Held

  predicate IsDir(owner: map<nat, Owner>, d: nat) { d in owner && owner[d] == Dir }

  predicate PointsTo(e: Word32, p: nat) { Present(e) && Frame(e) == p }

  predicate Has(owner: map<nat, Owner>, p: nat, o: Owner) { p in owner && owner[p] == o }

  /** A directory entry that is present points to its page table, and forbids nothing: its flags are P, W and U. */
  ghost predicate TablesOwned(mem: seq<Page>, owner: map<nat, Owner>) {
    forall d: nat, i: nat {:trigger WordAt(mem, d, i)} | IsDir(owner, d) && i < 1024 && Present(WordAt(mem, d, i)) ::
      Has(owner, Frame(WordAt(mem, d, i)), Table(d, i)) && Flags(WordAt(mem, d, i)) == 7
  }

  ghost predicate UsersOwned(mem: seq<Page>, owner: map<nat, Owner>) {
    forall d: nat, v: nat {:trigger Entry(mem, d, v)} | IsDir(owner, d) && v < UPAGES && Present(Entry(mem, d, v)) ::
      Has(owner, Frame(Entry(mem, d, v)), User(d, v))
  }

  ghost predicate Backed(mem: seq<Page>, owner: map<nat, Owner>, p: nat)
    requires p in owner
  {
    match owner[p]
    case Dir => true
    case Held => true
    case Table(d, i) => IsDir(owner, d) && i < 1024 && PointsTo(WordAt(mem, d, i), p)
    case User(d, v) => IsDir(owner, d) && v < UPAGES && PointsTo(Entry(mem, d, v), p)
  }

  ghost predicate AllBacked(mem: seq<Page>, owner: map<nat, Owner>) {
    forall p | p in owner :: Backed(mem, owner, p)
  }

  /**
   * Page tables and ownership agree in both directions: what a directory reaches below KERNBASE is owned
   * for exactly that use, so no page is reached twice, and what is owned for a use is reached there.
   */
  ghost predicate Owned(mem: seq<Page>, owner: map<nat, Owner>) {
    && (forall p | p in owner :: p < |mem|)
    && TablesOwned(mem, owner) && UsersOwned(mem, owner) && AllBacked(mem, owner)
  }

  /** The pages that hold d's directory and page tables. */
  predicate Structure(owner: map<nat, Owner>, d: nat, p: nat) {
    p == d || (p in owner && owner[p].Table? && owner[p].d == d)
  }

  /** No owned page changes, except those that hold d's directory and page tables. */
  ghost predicate OnlyTables(mem: seq<Page>, mem': seq<Page>, owner: map<nat, Owner>, d: nat) {
    && |mem'| == |mem| && (forall p | p in owner :: p < |mem|)
    && forall p | p in owner && !Structure(owner, d, p) :: mem'[p] == mem[p]
  }

  /** Every owned page keeps its contents. */
  ghost predicate SamePages(mem: seq<Page>, mem': seq<Page>, owner: map<nat, Owner>) {
    && |mem'| == |mem| && (forall p | p in owner :: p < |mem|)
    && forall p | p in owner :: mem'[p] == mem[p]
  }

  /** Every directory but `except` maps what it mapped. */
  ghost predicate SameEntries(mem: seq<Page>, mem': seq<Page>, owner: map<nat, Owner>, except: nat) {
    forall d: nat, v: nat | IsDir(owner, d) && d != except && v < VPAGES :: Entry(mem', d, v) == Entry(mem, d, v)
  }

  // ---- frame and update lemmas ----

  lemma EntryKept(mem: seq<Page>, mem': seq<Page>, owner: map<nat, Owner>, d: nat, v: nat)
    requires Owned(mem, owner) && SamePages(mem, mem', owner) && IsDir(owner, d) && v < VPAGES
    ensures Entry(mem', d, v) == Entry(mem, d, v)
  {
    assert WordAt(mem', d, v / 1024) == WordAt(mem, d, v / 1024);
    assert Present(WordAt(mem, d, v / 1024)) ==> Has(owner, Frame(WordAt(mem, d, v / 1024)), Table(d, v / 1024));
  }

  /** Ownership depends on owned pages only. */
  lemma OwnedKept(mem: seq<Page>, mem': seq<Page>, owner: map<nat, Owner>)
    requires Owned(mem, owner) && SamePages(mem, mem', owner)
    ensures Owned(mem', owner)
    ensures forall d: nat, v: nat | IsDir(owner, d) && v < VPAGES :: Entry(mem', d, v) == Entry(mem, d, v)
  {
    forall d: nat, v: nat | IsDir(owner, d) && v < VPAGES ensures Entry(mem', d, v) == Entry(mem, d, v) {
      EntryKept(mem, mem', owner, d, v);
    }
    assert forall d: nat, i: nat | IsDir(owner, d) :: WordAt(mem', d, i) == WordAt(mem, d, i);
    forall p | p in owner ensures Backed(mem', owner, p) {
      assert Backed(mem, owner, p);
    }
  }

  /** Writing one page table entry changes that entry of that directory and no other. */
  lemma EntryWritten(mem: seq<Page>, owner: map<nat, Owner>, d: nat, v: nat, e: Word32, d': nat, v': nat)
    requires Owned(mem, owner) && IsDir(owner, d) && v < VPAGES && IsDir(owner, d') && v' < VPAGES
    requires Present(WordAt(mem, d, v / 1024)) && Has(owner, Frame(WordAt(mem, d, v / 1024)), Table(d, v / 1024))
    ensures var t := Frame(WordAt(mem, d, v / 1024));
            Entry(mem[t := mem[t][v % 1024 := e]], d', v') == if d' == d && v' == v then e else Entry(mem, d', v')
  {
    var t := Frame(WordAt(mem, d, v / 1024));
    var mem' := mem[t := mem[t][v % 1024 := e]];
    var pde' := WordAt(mem, d', v' / 1024);
    assert WordAt(mem', d', v' / 1024) == pde';
    assert Present(pde') ==> Has(owner, Frame(pde'), Table(d', v' / 1024));
  }

  ghost function TablePage(mem: seq<Page>, d: nat, v: nat): nat { Frame(WordAt(mem, d, v / 1024)) }

  /** The page table for v exists and is owned as such. */
  ghost predicate HasTable(mem: seq<Page>, owner: map<nat, Owner>, d: nat, v: nat) {
    && v < VPAGES && IsDir(owner, d) && Present(WordAt(mem, d, v / 1024))
    && Has(owner, TablePage(mem, d, v), Table(d, v / 1024)) && TablePage(mem, d, v) < |mem|
  }

  ghost function WriteEntry(mem: seq<Page>, owner: map<nat, Owner>, d: nat, v: nat, e: Word32): (mem': seq<Page>)
    requires HasTable(mem, owner, d, v)
  {
    var t := TablePage(mem, d, v);
    mem[t := mem[t][v % 1024 := e]]
  }

  /** mem' maps as mem does, except that v of d has entry e. */
  ghost predicate Remapped(mem: seq<Page>, mem': seq<Page>, owner: map<nat, Owner>, d: nat, v: nat, e: Word32) {
    forall d': nat, v': nat | IsDir(owner, d') && v' < VPAGES ::
      Entry(mem', d', v') == if d' == d && v' == v then e else Entry(mem, d', v')
  }

  lemma WriteRemaps(mem: seq<Page>, owner: map<nat, Owner>, d: nat, v: nat, e: Word32)
    requires Owned(mem, owner) && HasTable(mem, owner, d, v)
    ensures Remapped(mem, WriteEntry(mem, owner, d, v, e), owner, d, v, e)
    ensures OnlyTables(mem, WriteEntry(mem, owner, d, v, e), owner, d)
    ensures forall d', i: nat | IsDir(owner, d') :: WordAt(WriteEntry(mem, owner, d, v, e), d', i) == WordAt(mem, d', i)
  {
    forall d': nat, v': nat | IsDir(owner, d') && v' < VPAGES
      ensures Entry(WriteEntry(mem, owner, d, v, e), d', v') == if d' == d && v' == v then e else Entry(mem, d', v')
    {
      EntryWritten(mem, owner, d, v, e, d', v');
    }
  }

  /** Mapping a held page below KERNBASE, or any page above it, keeps ownership. */
  lemma MapPage(mem: seq<Page>, owner: map<nat, Owner>, d: nat, v: nat, e: Word32)
    requires Owned(mem, owner) && HasTable(mem, owner, d, v) && Present(e) && !Present(Entry(mem, d, v))
    requires v < UPAGES ==> Has(owner, Frame(e), Held)
    ensures var owner' := if v < UPAGES then owner[Frame(e) := User(d, v)] else owner;
            Owned(WriteEntry(mem, owner, d, v, e), owner')
  {
    var mem' := WriteEntry(mem, owner, d, v, e);
    var owner' := if v < UPAGES then owner[Frame(e) := User(d, v)] else owner;
    WriteRemaps(mem, owner, d, v, e);
    forall p | p in owner' ensures Backed(mem', owner', p) {
      assert Backed(mem, owner, p);
    }
  }

  /** Freeing user page v, whatever is written to the page itself, and clearing its entry keeps ownership. */
  lemma UnmapPage(mem: seq<Page>, owner: map<nat, Owner>, d: nat, v: nat, x: Page)
    requires Owned(mem, owner) && HasTable(mem, owner, d, v) && v < UPAGES && Present(Entry(mem, d, v))
    ensures var p := Frame(Entry(mem, d, v)); var owner' := owner - {p};
            && Has(owner, p, User(d, v)) && HasTable(mem[p := x], owner', d, v)
            && Owned(WriteEntry(mem[p := x], owner', d, v, 0), owner')
            && Remapped(mem, WriteEntry(mem[p := x], owner', d, v, 0), owner', d, v, 0)
            && OnlyTables(mem, WriteEntry(mem[p := x], owner', d, v, 0), owner', d)
  {
    var p := Frame(Entry(mem, d, v));
    var t := TablePage(mem, d, v);
    var owner' := owner - {p};
    var mem1 := WriteEntry(mem, owner, d, v, 0);
    WriteRemaps(mem, owner, d, v, 0);
    assert Has(owner, p, User(d, v)) && p != t && p != d;
    var mem' := WriteEntry(mem[p := x], owner', d, v, 0);
    assert mem' == mem1[p := x];
    UnmappedOwned(mem, mem1, owner, d, v);
    OwnedKept(mem1, mem', owner');
  }

  lemma UnmappedOwned(mem: seq<Page>, mem': seq<Page>, owner: map<nat, Owner>, d: nat, v: nat)
    requires Owned(mem, owner) && IsDir(owner, d) && v < UPAGES && Present(Entry(mem, d, v))
    requires |mem'| == |mem| && Remapped(mem, mem', owner, d, v, 0)
    requires forall d', i: nat | IsDir(owner, d') :: WordAt(mem', d', i) == WordAt(mem, d', i)
    ensures Owned(mem', owner - {Frame(Entry(mem, d, v))})
  {
    hide Entry;
    var p := Frame(Entry(mem, d, v));
    var owner' := owner - {p};
    assert Has(owner, p, User(d, v));
    forall q | q in owner' ensures Backed(mem', owner', q) {
      assert Backed(mem, owner, q);
    }
    forall d': nat, v': nat | IsDir(owner', d') && v' < UPAGES && Present(Entry(mem', d', v'))
      ensures Has(owner', Frame(Entry(mem', d', v')), User(d', v'))
    {
      assert Has(owner, Frame(Entry(mem, d', v')), User(d', v'));
    }
  }

  /** A zeroed page becomes the i-th page table of d: nothing is mapped or unmapped. */
  lemma AddTable(mem: seq<Page>, owner: map<nat, Owner>, d: nat, i: nat, t: nat, pde: Word32)
    requires Owned(mem, owner) && IsDir(owner, d) && i < 1024 && !Present(WordAt(mem, d, i))
    requires Has(owner, t, Held) && PointsTo(pde, t) && Flags(pde) == 7
    ensures var mem' := mem[t := Filled(0)][d := mem[d][i := pde]];
            && Owned(mem', owner[t := Table(d, i)])
            && OnlyTables(mem, mem', owner[t := Table(d, i)], d)
            && forall d', v: nat | IsDir(owner, d') && v < VPAGES :: Entry(mem', d', v) == Entry(mem, d', v)
  {
    var mem' := mem[t := Filled(0)][d := mem[d][i := pde]];
    var owner' := owner[t := Table(d, i)];
    assert forall d', k: nat | IsDir(owner, d') ::
      WordAt(mem', d', k) == if d' == d && k == i then pde else WordAt(mem, d', k);
    forall d': nat, v: nat | IsDir(owner, d') && v < VPAGES ensures Entry(mem', d', v) == Entry(mem, d', v) {
      var e := WordAt(mem, d', v / 1024);
      assert Present(e) ==> Has(owner, Frame(e), Table(d', v / 1024));
    }
    forall p | p in owner' ensures Backed(mem', owner', p) {
      assert Backed(mem, owner, p);
    }
  }

  /** A zeroed page becomes a directory that maps nothing. */
  lemma AddDir(mem: seq<Page>, owner: map<nat, Owner>, d: nat)
    requires Owned(mem, owner) && Has(owner, d, Held)
    ensures var mem' := mem[d := Filled(0)];
            && Owned(mem', owner[d := Dir])
            && (forall v: nat | v < VPAGES :: Entry(mem', d, v) == 0)
            && forall d', v: nat | IsDir(owner, d') && v < VPAGES :: Entry(mem', d', v) == Entry(mem, d', v)
  {
    var mem' := mem[d := Filled(0)];
    var owner' := owner[d := Dir];
    assert forall d', i: nat | IsDir(owner', d') :: WordAt(mem', d', i) == if d' == d then 0 else WordAt(mem, d', i);
    assert forall v: nat | v < VPAGES :: Entry(mem', d, v) == 0;
    forall d', v: nat | IsDir(owner, d') && v < VPAGES ensures Entry(mem', d', v) == Entry(mem, d', v) {
      var e := WordAt(mem, d', v / 1024);
      assert Present(e) ==> Has(owner, Frame(e), Table(d', v / 1024));
    }
    forall p | p in owner' ensures Backed(mem', owner', p) {
      assert Backed(mem, owner, p);
    }
    assert UsersOwned(mem', owner');
    assert TablesOwned(mem', owner');
  }

  /** The owned pages that are not part of directory d, once d maps no user page. */
  ghost function WithoutDir(owner: map<nat, Owner>, d: nat): map<nat, Owner> {
    map p | p in owner && !Structure(owner, d, p) :: owner[p]
  }

  /** Freeing a directory that maps no user page, with its page tables, keeps ownership of the rest. */
  lemma DropDir(mem: seq<Page>, mem': seq<Page>, owner: map<nat, Owner>, d: nat)
    requires Owned(mem, owner) && IsDir(owner, d)
    requires forall v: nat | v < UPAGES :: !Present(Entry(mem, d, v))
    requires SamePages(mem, mem', WithoutDir(owner, d))
    ensures Owned(mem', WithoutDir(owner, d))
    ensures SameEntries(mem, mem', WithoutDir(owner, d), d)
  {
    var owner' := WithoutDir(owner, d);
    forall p | p in owner' ensures Backed(mem, owner', p) {
      assert Backed(mem, owner, p);
    }
    assert Owned(mem, owner') by {
      forall d': nat, v: nat | IsDir(owner', d') && v < UPAGES && Present(Entry(mem, d', v))
        ensures Has(owner', Frame(Entry(mem, d', v)), User(d', v))
      {
        assert Has(owner, Frame(Entry(mem, d', v)), User(d', v));
      }
    }
    OwnedKept(mem, mem', owner');
  }
}
