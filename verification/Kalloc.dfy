/** kalloc.c: the free list threaded through the free pages themselves. */
module FreePages {
  import opened Blocks
  import opened PageTable

  /** The kernel address of the k-th free page, or 0 after the last. */
  function Link(free: seq<nat>, k: nat): Word32
    requires forall i | 0 <= i < |free| :: free[i] < NPAGES
  {
    if k < |free| then KERNBASE + free[k] * PGSIZE else 0
  }

  /** The list starts at head, and the first word of each free page leads to the next. */
  ghost predicate Chain(mem: seq<Page>, head: Word32, free: seq<nat>) {
    && |mem| == NPAGES && (forall i | 0 <= i < |free| :: free[i] < NPAGES)
    && head == Link(free, 0)
    && forall i | 0 <= i < |free| :: mem[free[i]][0] == Link(free, i + 1)
  }

  /** Every page from lo up is either free or owned, never both, and is on the list at most once. */
  ghost predicate Partition(lo: nat, free: seq<nat>, owner: map<nat, Owner>) {
    && (forall i, j | 0 <= i < j < |free| :: free[i] != free[j])
    && (forall p | p in owner :: p !in free && lo <= p < NPAGES)
    && (forall p | p in free :: lo <= p < NPAGES)
    && (forall p | lo <= p < NPAGES :: p in owner || p in free)
  }

  ghost predicate Pool(lo: nat, mem: seq<Page>, head: Word32, free: seq<nat>, owner: map<nat, Owner>) {
    lo > 0 && Chain(mem, head, free) && Partition(lo, free, owner)
  }

  /** kfree() fills the page with bytes 1 and then stores the link. */
  ghost function Freed(head: Word32): Page { Filled(0x01010101)[0 := head] }

  lemma ChainKept(mem: seq<Page>, mem': seq<Page>, head: Word32, free: seq<nat>)
    requires Chain(mem, head, free) && |mem'| == |mem| && forall p | p in free :: p < |mem| && mem'[p] == mem[p]
    ensures Chain(mem', head, free)
  {
    assert forall i | 0 <= i < |free| :: free[i] in free;
  }

  /** Writing an owned page, or changing what it is used for, leaves the free list alone. */
  lemma OwnedWrite(lo: nat, mem: seq<Page>, head: Word32, free: seq<nat>, owner: map<nat, Owner>,
                   owner': map<nat, Owner>, p: nat, x: Page)
    requires Pool(lo, mem, head, free, owner) && p in owner && owner'.Keys == owner.Keys
    ensures p < |mem| && Pool(lo, mem[p := x], head, free, owner')
  {
    ChainKept(mem, mem[p := x], head, free);
    assert forall q :: q in owner' <==> q in owner;
  }

  /** Equal ownership means equal free pages: nothing is lost and nothing is freed twice. */
  lemma SameFree(lo: nat, free: seq<nat>, free': seq<nat>, owner: map<nat, Owner>)
    requires Partition(lo, free, owner) && Partition(lo, free', owner)
    ensures multiset(free) == multiset(free')
  {
    forall p: nat ensures multiset(free)[p] == multiset(free')[p] {
      Once(free, p);
      Once(free', p);
      assert p in free <==> p in free';
    }
  }

  lemma {:induction false} Once(s: seq<nat>, p: nat)
    requires forall i, j | 0 <= i < j < |s| :: s[i] != s[j]
    ensures multiset(s)[p] == if p in s then 1 else 0
  {
    if s != [] {
      assert s == [s[0]] + s[1..];
      Once(s[1..], p);
    }
  }

  lemma Pushed(lo: nat, mem: seq<Page>, head: Word32, free: seq<nat>, owner: map<nat, Owner>, p: nat)
    requires Pool(lo, mem, head, free, owner) && p in owner
    ensures p < NPAGES == |mem| && Pool(lo, mem[p := Freed(head)], KERNBASE + p * PGSIZE, [p] + free, owner - {p})
  {
    hide Partition, Freed;
    PartitionFacts(lo, free, owner, p);
    PushedChain(mem, head, free, p);
    PushedPartition(lo, free, owner, p);
  }

  lemma PartitionFacts(lo: nat, free: seq<nat>, owner: map<nat, Owner>, p: nat)
    requires Partition(lo, free, owner) && p in owner
    ensures p < NPAGES && p !in free
  {
  }

  lemma PushedChain(mem: seq<Page>, head: Word32, free: seq<nat>, p: nat)
    requires Chain(mem, head, free) && p < NPAGES && p !in free
    ensures Chain(mem[p := Freed(head)], KERNBASE + p * PGSIZE, [p] + free)
  {
    var free' := [p] + free;
    forall i | 0 <= i < |free'| ensures free'[i] < NPAGES && mem[p := Freed(head)][free'[i]][0] == Link(free', i + 1) {
      if i > 0 {
        assert free'[i] == free[i - 1] && free[i - 1] in free;
      }
    }
  }

  lemma PushedPartition(lo: nat, free: seq<nat>, owner: map<nat, Owner>, p: nat)
    requires Partition(lo, free, owner) && p in owner
    ensures Partition(lo, [p] + free, owner - {p})
  {
    var free' := [p] + free;
    forall q | lo <= q < NPAGES ensures q in owner - {p} || q in free' {
      assert q in free ==> q in free';
      assert free'[0] == p;
    }
  }

  lemma Popped(lo: nat, mem: seq<Page>, head: Word32, free: seq<nat>, owner: map<nat, Owner>)
    requires Pool(lo, mem, head, free, owner) && free != []
    ensures head == KERNBASE + free[0] * PGSIZE
    ensures Pool(lo, mem, mem[free[0]][0], free[1..], owner[free[0] := Held])
  {
    PoppedChain(mem, head, free);
    PoppedPartition(lo, free, owner);
  }

  lemma PoppedChain(mem: seq<Page>, head: Word32, free: seq<nat>)
    requires Chain(mem, head, free) && free != []
    ensures Chain(mem, mem[free[0]][0], free[1..])
  {
    var free' := free[1..];
    forall i: nat | i <= |free'| ensures Link(free', i) == Link(free, i + 1) {
    }
    forall i | 0 <= i < |free'| ensures mem[free'[i]][0] == Link(free', i + 1) {
      assert free'[i] == free[i + 1];
    }
  }

  lemma PoppedPartition(lo: nat, free: seq<nat>, owner: map<nat, Owner>)
    requires Partition(lo, free, owner) && free != []
    ensures Partition(lo, free[1..], owner[free[0] := Held])
  {
    var free', owner' := free[1..], owner[free[0] := Held];
    forall q | q in free' ensures q != free[0] && q in free {
      var i :| 0 <= i < |free'| && free'[i] == q;
      assert q == free[i + 1];
    }
    forall q | lo <= q < NPAGES ensures q in owner' || q in free' {
      if q in free {
        assert q == free[0] || q in free';
      }
    }
    assert free[0] in free;
  }
}
