/**
 * bio.c over memide.c's disk.  Buffers are numbered 0..h-1; h is also the number of the list head.
 * Each method is one critical section or one action of the process that holds the buffer's sleep
 * lock, so the calls of any number of processes interleave.
 */
module Bio {
  import opened Wrappers
  import opened Blocks
  import opened BufRing

  const DISKDEV: nat := 1

  /** struct buf; valid and dirty are B_VALID and B_DIRTY, locked the sleep lock. */
  datatype Buf = Buf(dev: nat, blockno: nat, refcnt: nat, valid: bool, dirty: bool, locked: bool, data: Block)

  predicate Holds(b: Buf, dv: nat, bn: nat) { b.dev == dv && b.blockno == bn }

  /** Flags, lock and references fit; a clean unlocked buffer agrees with the disk. */
  ghost predicate BufOk(b: Buf, disk: Disk) {
    && (b.locked ==> b.refcnt > 0)
    && (b.dirty ==> b.valid)
    && (b.valid ==> b.dev == DISKDEV && b.blockno < |disk|)
    && (b.valid && !b.dirty && !b.locked ==> b.data == disk[b.blockno])
  }

  /** A clean buffer agrees with the disk even if it is locked: its holder has nothing left to log or write. */
  ghost predicate Settled(b: Buf, disk: Disk) {
    b.valid && !b.dirty ==> b.blockno < |disk| && b.data == disk[b.blockno]
  }

  /** At most one buffer for a block of a real device. */
  ghost predicate OneBufferEach(bufs: seq<Buf>) {
    forall i, j | 0 <= i < j < |bufs| && bufs[i].dev != 0 :: !Holds(bufs[j], bufs[i].dev, bufs[i].blockno)
  }

  ghost predicate CacheOk(bufs: seq<Buf>, disk: Disk) {
    OneBufferEach(bufs) && forall i | 0 <= i < |bufs| :: BufOk(bufs[i], disk)
  }

  /** The number of the valid buffer for disk block b, or -1. */
  ghost function Holder(bufs: seq<Buf>, b: nat): (i: int)
    ensures i < |bufs| && (i >= 0 ==> bufs[i].valid && bufs[i].blockno == b)
    ensures i < 0 ==> forall j | 0 <= j < |bufs| :: !(bufs[j].valid && bufs[j].blockno == b)
  {
    if bufs == [] then -1
    else if bufs[|bufs| - 1].valid && bufs[|bufs| - 1].blockno == b then |bufs| - 1
    else Holder(bufs[..|bufs| - 1], b)
  }

  /** The map that the cache stands for: the buffer that holds the block, else the disk. */
  ghost function Current(bufs: seq<Buf>, disk: Disk, b: nat): Block
    requires b < |disk|
  {
    var i := Holder(bufs, b);
    if i >= 0 then bufs[i].data else disk[b]
  }

  ghost predicate SameContents(bufs: seq<Buf>, disk: Disk, bufs': seq<Buf>, disk': Disk) {
    |disk'| == |disk| && forall b: nat | b < |disk| :: Current(bufs', disk', b) == Current(bufs, disk, b)
  }

  lemma TheHolder(bufs: seq<Buf>, disk: Disk, i: nat)
    requires CacheOk(bufs, disk) && i < |bufs| && bufs[i].valid
    ensures Holder(bufs, bufs[i].blockno) == i
  {
    var j := Holder(bufs, bufs[i].blockno);
    assert BufOk(bufs[i], disk);
    assert j >= 0 ==> BufOk(bufs[j], disk);
  }

  /** A buffer changes but neither its block, its validity, nor its data. */
  lemma SameHolder(bufs: seq<Buf>, disk: Disk, i: nat, x: Buf)
    requires i < |bufs| && x.valid == bufs[i].valid && x.blockno == bufs[i].blockno && x.data == bufs[i].data
    requires CacheOk(bufs, disk) && x.dev == bufs[i].dev && BufOk(x, disk)
    ensures CacheOk(bufs[i := x], disk) && SameContents(bufs, disk, bufs[i := x], disk)
  {
    var bufs' := bufs[i := x];
    forall j, k | 0 <= j < k < |bufs'| && bufs'[j].dev != 0 ensures !Holds(bufs'[k], bufs'[j].dev, bufs'[j].blockno) {
      assert !Holds(bufs[k], bufs[j].dev, bufs[j].blockno);
    }
    forall b: nat | b < |disk| ensures Current(bufs', disk, b) == Current(bufs, disk, b) {
      var j, k := Holder(bufs, b), Holder(bufs', b);
      if j >= 0 { assert bufs'[j].valid && bufs'[j].blockno == b; TheHolder(bufs, disk, j); TheHolder(bufs', disk, j); }
      if k >= 0 { assert bufs[k].valid && bufs[k].blockno == b; }
    }
  }

  /** Recycling a free buffer for a block that is not cached is invisible. */
  lemma Recycled(bufs: seq<Buf>, disk: Disk, i: nat, dv: nat, bn: nat)
    requires CacheOk(bufs, disk) && i < |bufs| && bufs[i].refcnt == 0 && !bufs[i].dirty
    requires forall j | 0 <= j < |bufs| :: !Holds(bufs[j], dv, bn)
    ensures var bufs' := bufs[i := Buf(dv, bn, 1, false, false, bufs[i].locked, bufs[i].data)];
            CacheOk(bufs', disk) && SameContents(bufs, disk, bufs', disk)
  {
    var bufs' := bufs[i := Buf(dv, bn, 1, false, false, bufs[i].locked, bufs[i].data)];
    forall j, k | 0 <= j < k < |bufs'| && bufs'[j].dev != 0 ensures !Holds(bufs'[k], bufs'[j].dev, bufs'[j].blockno) {
      assert !Holds(bufs[j], dv, bn) && !Holds(bufs[k], dv, bn);
      assert bufs[j].dev != 0 ==> !Holds(bufs[k], bufs[j].dev, bufs[j].blockno);
    }
    forall b: nat | b < |disk| ensures Current(bufs', disk, b) == Current(bufs, disk, b) {
      var j, k := Holder(bufs, b), Holder(bufs', b);
      assert BufOk(bufs[i], disk) && (0 <= j != i ==> bufs'[j] == bufs[j]);
      if k >= 0 {
        assert bufs[k].valid && bufs[k].blockno == b;
        TheHolder(bufs, disk, k);
      }
    }
  }

  /** The holder of the lock changes the data: that block of the map changes and no other. */
  lemma Modified(bufs: seq<Buf>, disk: Disk, i: nat, d: Block)
    requires CacheOk(bufs, disk) && i < |bufs| && bufs[i].valid && bufs[i].locked
    ensures var bufs' := bufs[i := bufs[i].(data := d)];
            && CacheOk(bufs', disk)
            && forall b: nat | b < |disk| ::
                 Current(bufs', disk, b) == if b == bufs[i].blockno then d else Current(bufs, disk, b)
  {
    var bufs' := bufs[i := bufs[i].(data := d)];
    assert BufOk(bufs[i], disk);
    forall j, k | 0 <= j < k < |bufs'| && bufs'[j].dev != 0 ensures !Holds(bufs'[k], bufs'[j].dev, bufs'[j].blockno) {
      assert !Holds(bufs[k], bufs[j].dev, bufs[j].blockno);
    }
    TheHolder(bufs, disk, i);
    TheHolder(bufs', disk, i);
    forall b: nat | b < |disk| && b != bufs[i].blockno ensures Current(bufs', disk, b) == Current(bufs, disk, b) {
      OtherHolder(bufs, bufs', disk, i, b);
    }
  }

  /** Changing buffer i leaves the holder of a block it does not hold alone. */
  lemma OtherHolder(bufs: seq<Buf>, bufs': seq<Buf>, disk: Disk, i: nat, b: nat)
    requires CacheOk(bufs, disk) && i < |bufs| == |bufs'| && bufs' == bufs[i := bufs'[i]]
    requires !(bufs[i].valid && bufs[i].blockno == b) && !(bufs'[i].valid && bufs'[i].blockno == b)
    ensures Holder(bufs', b) == Holder(bufs, b) != i
  {
    var j, k := Holder(bufs, b), Holder(bufs', b);
    if j >= 0 { assert bufs'[j].valid && bufs'[j].blockno == b; }
    if k >= 0 { assert bufs[k].valid && bufs[k].blockno == b; TheHolder(bufs, disk, k); }
  }

  /** While an invalid buffer is reserved for a block, no valid buffer holds it. */
  lemma NoHolder(bufs: seq<Buf>, disk: Disk, i: nat)
    requires CacheOk(bufs, disk) && i < |bufs| && !bufs[i].valid && bufs[i].dev == DISKDEV
    ensures Holder(bufs, bufs[i].blockno) < 0
  {
    forall j | 0 <= j < |bufs| ensures !(bufs[j].valid && bufs[j].blockno == bufs[i].blockno) {
      assert BufOk(bufs[j], disk);
    }
  }

  /** Reading an invalid buffer in from the disk is invisible. */
  lemma ReadIn(bufs: seq<Buf>, disk: Disk, i: nat)
    requires CacheOk(bufs, disk) && i < |bufs| && !bufs[i].valid && bufs[i].locked
    requires bufs[i].dev == DISKDEV && bufs[i].blockno < |disk|
    ensures var bufs' := bufs[i := bufs[i].(valid := true, data := disk[bufs[i].blockno])];
            CacheOk(bufs', disk) && SameContents(bufs, disk, bufs', disk)
  {
    MadeValid(bufs, disk, i, disk[bufs[i].blockno]);
    NoHolder(bufs, disk, i);
  }

  /** An invalid buffer that becomes valid shows its data for its block, and changes no other. */
  lemma MadeValid(bufs: seq<Buf>, disk: Disk, i: nat, x: Block)
    requires CacheOk(bufs, disk) && i < |bufs| && !bufs[i].valid && bufs[i].locked
    requires bufs[i].dev == DISKDEV && bufs[i].blockno < |disk|
    ensures var bufs' := bufs[i := bufs[i].(valid := true, data := x)];
            && CacheOk(bufs', disk)
            && forall b: nat | b < |disk| ::
                 Current(bufs', disk, b) == if b == bufs[i].blockno then x else Current(bufs, disk, b)
  {
    var bufs' := bufs[i := bufs[i].(valid := true, data := x)];
    assert BufOk(bufs[i], disk);
    forall j, k | 0 <= j < k < |bufs'| && bufs'[j].dev != 0 ensures !Holds(bufs'[k], bufs'[j].dev, bufs'[j].blockno) {
      assert !Holds(bufs[k], bufs[j].dev, bufs[j].blockno);
    }
    TheHolder(bufs', disk, i);
    NoHolder(bufs, disk, i);
    forall b: nat | b < |disk| && b != bufs[i].blockno ensures Current(bufs', disk, b) == Current(bufs, disk, b) {
      OtherHolder(bufs, bufs', disk, i, b);
    }
  }

  /** Writing a valid locked buffer to its disk block is invisible, and cleans it. */
  lemma WrittenBack(bufs: seq<Buf>, disk: Disk, i: nat)
    requires CacheOk(bufs, disk) && i < |bufs| && bufs[i].valid && bufs[i].locked
    ensures bufs[i].blockno < |disk|
    ensures var bufs' := bufs[i := bufs[i].(dirty := false)];
            var disk' := disk[bufs[i].blockno := bufs[i].data];
            CacheOk(bufs', disk') && SameContents(bufs, disk, bufs', disk')
  {
    assert BufOk(bufs[i], disk);
    var bufs' := bufs[i := bufs[i].(dirty := false)];
    var disk' := disk[bufs[i].blockno := bufs[i].data];
    SameHolder(bufs, disk, i, bufs[i].(dirty := false));
    forall j | 0 <= j < |bufs'| ensures BufOk(bufs'[j], disk') {
      assert BufOk(bufs'[j], disk) && BufOk(bufs[j], disk);
      if j < i { assert bufs[j].dev != 0 ==> !Holds(bufs[i], bufs[j].dev, bufs[j].blockno); }
      if j > i { assert !Holds(bufs[j], bufs[i].dev, bufs[i].blockno); }
    }
    TheHolder(bufs', disk, i);
    forall b: nat | b < |disk| ensures Current(bufs', disk', b) == Current(bufs', disk, b) {}
  }

  /** The same of any locked buffer: it is valid and clean, and its block of the map is what it held. */
  lemma WrittenOut(bufs: seq<Buf>, disk: Disk, i: nat)
    requires CacheOk(bufs, disk) && i < |bufs| && bufs[i].locked && bufs[i].dev == DISKDEV && bufs[i].blockno < |disk|
    ensures var bufs' := bufs[i := bufs[i].(dirty := false, valid := true)];
            var disk' := disk[bufs[i].blockno := bufs[i].data];
            && CacheOk(bufs', disk')
            && (forall b: nat | b < |disk| :: Current(bufs', disk', b) ==
                  if b == bufs[i].blockno then bufs[i].data else Current(bufs, disk, b))
            && (bufs[i].valid ==> SameContents(bufs, disk, bufs', disk'))
  {
    hide OneBufferEach, Current;
    assert BufOk(bufs[i], disk);
    if bufs[i].valid {
      WrittenBack(bufs, disk, i);
      ShowsItsData(bufs, disk, i);
      assert bufs[i].(dirty := false) == bufs[i].(dirty := false, valid := true);
    } else {
      MadeValid(bufs, disk, i, bufs[i].data);
      var bufs1 := bufs[i := bufs[i].(valid := true, data := bufs[i].data)];
      WrittenBack(bufs1, disk, i);
      assert bufs1[i := bufs1[i].(dirty := false)] == bufs[i := bufs[i].(dirty := false, valid := true)];
    }
  }

  lemma ShowsItsData(bufs: seq<Buf>, disk: Disk, i: nat)
    requires CacheOk(bufs, disk) && i < |bufs| && bufs[i].valid
    ensures bufs[i].blockno < |disk| && Current(bufs, disk, bufs[i].blockno) == bufs[i].data
  {
    assert BufOk(bufs[i], disk);
    TheHolder(bufs, disk, i);
  }

  /** Every buffer is on the list, and those nearer the front have newer stamps. */
  ghost predicate Aged(order: seq<nat>, stamp: seq<nat>, clock: nat, h: nat) {
    && |order| == |stamp| == h && (forall p | 0 <= p < h :: order[p] < h)
    && (forall i | 0 <= i < h :: i in order)
    && (forall i | 0 <= i < h :: stamp[i] < clock)
    && (forall p, q | 0 <= p < q < h :: stamp[order[p]] > stamp[order[q]])
  }

  class BufCache {
    const h: nat
    var next: seq<nat>
    var prev: seq<nat>
    var bufs: seq<Buf>
    var disk: Disk
    ghost var order: seq<nat>   // the list, most recently used first
    ghost var stamp: seq<nat>   // when each buffer last moved to the front
    ghost var clock: nat

    /** The list holds every buffer once, most recently moved to the front first. */
    ghost predicate ListOk()
      reads this
    {
      |bufs| == |stamp| == |order| == h && Ring(next, prev, order, h) && Aged(order, stamp, clock, h)
    }

    ghost predicate Valid()
      reads this
    {
      ListOk() && CacheOk(bufs, disk)
    }

    /** binit(): every buffer in the list, none in use. */
    constructor (n: nat, d: Disk)
      ensures h == n && disk == d && Valid()
      ensures bufs == seq(n, _ => Buf(0, 0, 0, false, false, false, ZeroBlock()))
    {
      h, disk := n, d;
      bufs := seq(n, _ => Buf(0, 0, 0, false, false, false, ZeroBlock()));
      next, prev := seq(n + 1, _ => n), seq(n + 1, _ => n);
      order, stamp, clock := [], seq(n, i => i), n;
      new;
      assert Joined(next, prev, order, 0, h);
      var b := 0;
      while b < h
        modifies this`next, this`prev, this`order
        invariant b <= h && Ring(next, prev, order, h) && |order| == b
        invariant forall p | 0 <= p < b :: order[p] == b - 1 - p
      {
        PushFront(next, prev, order, h, b);
        next, prev := next[b := next[h]], prev[b := h];
        prev := prev[next[h] := b];
        next := next[h := b];
        order := [b] + order;
        b := b + 1;
      }
      forall i | 0 <= i < h ensures i in order {
        assert order[h - 1 - i] == i;
      }
    }

    /** bget()'s search for a cached block, from the front of the list. */
    method FindCached(dv: nat, bn: nat) returns (r: Option<nat>)
      requires ListOk()
      ensures r.Some? ==> r.value < h && bufs[r.value].dev == dv && bufs[r.value].blockno == bn
      ensures r.None? ==> forall i | 0 <= i < h :: !(bufs[i].dev == dv && bufs[i].blockno == bn)
    {
      ghost var p: nat := 0;
      assert Joined(next, prev, order, 0, h);
      var b := next[h];
      while b != h
        invariant p <= h && b == At(order, p, h)
        invariant forall q | 0 <= q < p :: !(bufs[order[q]].dev == dv && bufs[order[q]].blockno == bn)
        decreases h - p
      {
        if bufs[b].dev == dv && bufs[b].blockno == bn {
          return Some(b);
        }
        assert Joined(next, prev, order, p + 1, h);
        b, p := next[b], p + 1;
      }
      forall i | 0 <= i < h ensures !(bufs[i].dev == dv && bufs[i].blockno == bn) {
        assert i in order;
      }
      r := None;
    }

    /** bget()'s search for a buffer to recycle, from the back of the list: the oldest free one. */
    method FindFree() returns (r: Option<nat>)
      requires ListOk()
      ensures r.Some? ==>
                && r.value < h && bufs[r.value].refcnt == 0 && !bufs[r.value].dirty
                && forall j | 0 <= j < h && bufs[j].refcnt == 0 && !bufs[j].dirty :: stamp[r.value] <= stamp[j]
      ensures r.None? ==> forall i | 0 <= i < h :: bufs[i].refcnt > 0 || bufs[i].dirty
    {
      ghost var p: int := h - 1;
      assert Joined(next, prev, order, h, h);
      var b := prev[h];
      while b != h
        invariant -1 <= p < h && b == At(order, p, h)
        invariant forall q | p < q < h :: bufs[order[q]].refcnt > 0 || bufs[order[q]].dirty
        decreases p + 1
      {
        if bufs[b].refcnt == 0 && !bufs[b].dirty {
          LastIsOldest(bufs, stamp, order, p);
          return Some(b);
        }
        assert Joined(next, prev, order, p, h);
        b, p := prev[b], p - 1;
      }
      forall i | 0 <= i < h ensures bufs[i].refcnt > 0 || bufs[i].dirty {
        assert i in order;
      }
      r := None;
    }

    /** bget(): the buffer for a block, recycling the oldest free buffer if the block is not cached. */
    method Bget(dv: nat, bn: nat) returns (r: Option<nat>)
      requires Valid()
      modifies this`bufs
      ensures r.None? <==> forall i | 0 <= i < h ::
                && !(old(bufs)[i].dev == dv && old(bufs)[i].blockno == bn)
                && (old(bufs)[i].refcnt > 0 || old(bufs)[i].dirty)
      ensures r.None? ==> bufs == old(bufs)
      ensures r.Some? ==>
                && r.value < h && Valid() && SameContents(old(bufs), disk, bufs, disk)
                && (var b := old(bufs)[r.value];
                    if b.dev == dv && b.blockno == bn then
                      bufs == old(bufs)[r.value := b.(refcnt := b.refcnt + 1)]
                    else
                      && (forall i | 0 <= i < h :: !(old(bufs)[i].dev == dv && old(bufs)[i].blockno == bn))
                      && b.refcnt == 0 && !b.dirty
                      && (forall j | 0 <= j < h && old(bufs)[j].refcnt == 0 && !old(bufs)[j].dirty ::
                            stamp[r.value] <= stamp[j])
                      && bufs == old(bufs)[r.value := Buf(dv, bn, 1, false, false, b.locked, b.data)])
    {
      hide CacheOk, SameContents;
      var c := FindCached(dv, bn);
      if c.Some? {
        var b := bufs[c.value];
        Rereferenced(bufs, disk, c.value);
        bufs := bufs[c.value := b.(refcnt := b.refcnt + 1)];
        return c;
      }
      var f := FindFree();
      if f.None? { return None; }
      var b := bufs[f.value];
      Recycled(bufs, disk, f.value, dv, bn);
      bufs := bufs[f.value := Buf(dv, bn, 1, false, false, b.locked, b.data)];
      r := f;
    }

    /** acquiresleep(&b->lock) by a process that has a reference, once the lock is free. */
    method Lock(i: nat)
      requires Valid() && i < h && bufs[i].refcnt > 0 && !bufs[i].locked
      modifies this`bufs
      ensures Valid() && SameContents(old(bufs), disk, bufs, disk)
      ensures bufs == old(bufs)[i := old(bufs)[i].(locked := true)]
    {
      hide SameContents;
      assert BufOk(bufs[i], disk);
      SameHolder(bufs, disk, i, bufs[i].(locked := true));
      bufs := bufs[i := bufs[i].(locked := true)];
    }

    /** memide.c's iderw() on a locked buffer; false where it panics. */
    method Iderw(i: nat) returns (ok: bool)
      requires i < |bufs|
      modifies this`bufs, this`disk
      ensures ok <==> var b := old(bufs)[i];
                      b.locked && !(b.valid && !b.dirty) && b.dev == 1 && b.blockno < |old(disk)|
      ensures !ok ==> bufs == old(bufs) && disk == old(disk)
      ensures ok && old(bufs)[i].dirty ==>
                && bufs == old(bufs)[i := old(bufs)[i].(dirty := false, valid := true)]
                && disk == old(disk)[old(bufs)[i].blockno := old(bufs)[i].data]
      ensures ok && !old(bufs)[i].dirty ==>
                && disk == old(disk) && old(bufs)[i].blockno < |disk|
                && bufs == old(bufs)[i := old(bufs)[i].(valid := true, data := disk[old(bufs)[i].blockno])]
    {
      var b := bufs[i];
      if !b.locked { return false; }
      if b.valid && !b.dirty { return false; }
      if b.dev != DISKDEV { return false; }
      if b.blockno >= |disk| { return false; }
      if b.dirty {
        disk := disk[b.blockno := b.data];
        bufs := bufs[i := b.(dirty := false, valid := true)];
      } else {
        bufs := bufs[i := b.(data := disk[b.blockno], valid := true)];
      }
      ok := true;
    }

    /** The end of bread(): the locked buffer is read in if need be and shows the current contents. */
    method Fill(i: nat) returns (ok: bool)
      requires Valid() && i < h && bufs[i].locked
      modifies this`bufs, this`disk
      ensures ok <==> old(bufs)[i].valid || (old(bufs)[i].dev == DISKDEV && old(bufs)[i].blockno < |old(disk)|)
      ensures Valid() && disk == old(disk) && SameContents(old(bufs), disk, bufs, disk)
      ensures ok ==>
                && bufs == old(bufs)[i := old(bufs)[i].(valid := true, data := bufs[i].data)]
                && bufs[i].blockno < |disk| && bufs[i].data == Current(old(bufs), disk, bufs[i].blockno)
    {
      hide OneBufferEach, SameContents;
      assert BufOk(bufs[i], disk);
      SameRefl(bufs, disk);
      if bufs[i].valid {
        ok := true;
        TheHolder(bufs, disk, i);
        return;
      }
      if bufs[i].dev == DISKDEV && bufs[i].blockno < |disk| {
        ReadIn(bufs, disk, i);
        ReadShows(bufs, disk, i);
      }
      ok := Iderw(i);
    }

    /** A process that holds the lock changes the data. */
    method Modify(i: nat, d: Block)
      requires Valid() && i < h && bufs[i].locked && bufs[i].valid
      modifies this`bufs
      ensures Valid() && bufs == old(bufs)[i := old(bufs)[i].(data := d)]
      ensures forall b: nat | b < |disk| ::
                Current(bufs, disk, b) == if b == bufs[i].blockno then d else Current(old(bufs), disk, b)
    {
      Modified(bufs, disk, i, d);
      bufs := bufs[i := bufs[i].(data := d)];
    }

    /** log_write()'s `b->flags |= B_DIRTY`: from now on the buffer is not recycled. */
    method Pin(i: nat)
      requires Valid() && i < h && bufs[i].locked && bufs[i].valid
      modifies this`bufs
      ensures Valid() && SameContents(old(bufs), disk, bufs, disk)
      ensures bufs == old(bufs)[i := old(bufs)[i].(dirty := true)]
    {
      hide SameContents;
      assert BufOk(bufs[i], disk);
      SameHolder(bufs, disk, i, bufs[i].(dirty := true));
      bufs := bufs[i := bufs[i].(dirty := true)];
    }

    /**
     * bwrite(); false where it panics, in itself or in iderw().  A buffer that was read shows what it showed;
     * one that was not read puts what is in it in the place of its block.
     */
    method Bwrite(i: nat) returns (ok: bool)
      requires Valid() && i < h
      modifies this`bufs, this`disk
      ensures ok <==> var b := old(bufs)[i]; b.locked && b.dev == DISKDEV && b.blockno < |old(disk)|
      ensures old(bufs)[i].valid ==> (ok <==> old(bufs)[i].locked)
      ensures ok ==>
                && Valid()
                && bufs == old(bufs)[i := old(bufs)[i].(dirty := false, valid := true)]
                && disk == old(disk)[old(bufs)[i].blockno := old(bufs)[i].data]
                && forall b: nat | b < |disk| ::
                     Current(bufs, disk, b) ==
                     if b == old(bufs)[i].blockno then old(bufs)[i].data else Current(old(bufs), old(disk), b)
      ensures ok && old(bufs)[i].valid ==> SameContents(old(bufs), old(disk), bufs, disk)
    {
      hide Current, OneBufferEach;
      if !bufs[i].locked { return false; }
      assert BufOk(bufs[i], disk);
      if bufs[i].dev == DISKDEV && bufs[i].blockno < |disk| {
        WrittenOut(bufs, disk, i);
      }
      bufs := bufs[i := bufs[i].(dirty := true)];
      ok := Iderw(i);
      assert ok ==> bufs == old(bufs)[i := old(bufs)[i].(dirty := false, valid := true)];
    }

    /**
     * brelse(); false where it panics.  The last reference moves the buffer to the front of the list.  The
     * cache stays as it should if and only if the holder has logged or written what it changed.
     */
    method Brelse(i: nat) returns (ok: bool)
      requires Valid() && i < h
      modifies this`bufs, this`next, this`prev, this`order, this`stamp, this`clock
      ensures ok <==> old(bufs)[i].locked
      ensures ListOk()
      ensures ok ==> (Valid() <==> Settled(old(bufs)[i], disk))
      ensures Valid() ==> SameContents(old(bufs), disk, bufs, disk)
      ensures !ok ==> bufs == old(bufs) && order == old(order) && stamp == old(stamp)
      ensures ok ==>
                && old(bufs)[i].refcnt > 0
                && bufs == old(bufs)[i := old(bufs)[i].(locked := false, refcnt := old(bufs)[i].refcnt - 1)]
                && (if bufs[i].refcnt == 0 then
                      stamp == old(stamp)[i := old(clock)] && exists p: nat | p < h ::
                        old(order)[p] == i && order == [i] + Without(old(order), p)
                    else stamp == old(stamp) && order == old(order))
    {
      hide SameContents, OneBufferEach;
      SameRefl(bufs, disk);
      if !bufs[i].locked { return false; }
      var b := bufs[i];
      assert BufOk(bufs[i], disk);
      if Settled(b, disk) {
        SameHolder(bufs, disk, i, b.(locked := false, refcnt := b.refcnt - 1));
      }
      bufs := bufs[i := b.(locked := false, refcnt := b.refcnt - 1)];
      assert Settled(b, disk) <==> BufOk(bufs[i], disk);
      if bufs[i].refcnt == 0 {
        ToFront(i);
      }
      ok := true;
    }

    /** brelse()'s move to the head of the list. */
    method ToFront(b: nat)
      requires ListOk() && b < h
      modifies this`next, this`prev, this`order, this`stamp, this`clock
      ensures ListOk() && stamp == old(stamp)[b := old(clock)]
      ensures exists p: nat | p < h :: old(order)[p] == b && order == [b] + Without(old(order), p)
    {
      hide Ring, Without, Aged;
      ghost var p := PositionOf(order, stamp, clock, h, b);
      AgeKept(next, prev, order, stamp, clock, p, h);
      RingShape(next, prev, order, h);
      Unlink(next, prev, order, h, p);
      prev := prev[next[b] := prev[b]];
      next := next[prev[b] := next[b]];
      ghost var rest := Without(order, p);
      PushFront(next, prev, rest, h, b);
      next, prev := next[b := next[h]], prev[b := h];
      prev := prev[next[h] := b];
      next := next[h := b];
      order, stamp, clock := [b] + rest, stamp[b := clock], clock + 1;
    }
  }

  lemma LastIsOldest(bufs: seq<Buf>, stamp: seq<nat>, order: seq<nat>, p: nat)
    requires |bufs| == |stamp| == |order| && p < |order|
    requires (forall q | 0 <= q < |order| :: order[q] < |bufs|) && (forall i | 0 <= i < |bufs| :: i in order)
    requires forall q, s | 0 <= q < s < |order| :: stamp[order[q]] > stamp[order[s]]
    requires forall q | p < q < |order| :: bufs[order[q]].refcnt > 0 || bufs[order[q]].dirty
    ensures forall j | 0 <= j < |bufs| && bufs[j].refcnt == 0 && !bufs[j].dirty :: stamp[order[p]] <= stamp[j]
  {
    forall j | 0 <= j < |bufs| && bufs[j].refcnt == 0 && !bufs[j].dirty ensures stamp[order[p]] <= stamp[j] {
      assert j in order;
      var q :| 0 <= q < |order| && order[q] == j;
    }
  }

  lemma Rereferenced(bufs: seq<Buf>, disk: Disk, i: nat)
    requires CacheOk(bufs, disk) && i < |bufs|
    ensures var bufs' := bufs[i := bufs[i].(refcnt := bufs[i].refcnt + 1)];
            CacheOk(bufs', disk) && SameContents(bufs, disk, bufs', disk)
  {
    assert BufOk(bufs[i], disk);
    SameHolder(bufs, disk, i, bufs[i].(refcnt := bufs[i].refcnt + 1));
  }

  lemma RingShape(next: seq<nat>, prev: seq<nat>, order: seq<nat>, h: nat)
    requires Ring(next, prev, order, h)
    ensures |next| == |prev| == h + 1
  {
  }

  lemma SameRefl(bufs: seq<Buf>, disk: Disk)
    ensures SameContents(bufs, disk, bufs, disk)
  {
  }

  lemma ReadShows(bufs: seq<Buf>, disk: Disk, i: nat)
    requires CacheOk(bufs, disk) && i < |bufs| && !bufs[i].valid && bufs[i].dev == DISKDEV && bufs[i].blockno < |disk|
    ensures Current(bufs, disk, bufs[i].blockno) == disk[bufs[i].blockno]
  {
    NoHolder(bufs, disk, i);
  }

  /** Moving one buffer to the front with the newest stamp keeps the list in order of age and complete. */
  lemma AgeKept(next: seq<nat>, prev: seq<nat>, order: seq<nat>, stamp: seq<nat>, clock: nat, p: nat, h: nat)
    requires Ring(next, prev, order, h) && |order| == |stamp| == h && p < h && Aged(order, stamp, clock, h)
    ensures order[p] < h && |Without(order, p)| == h - 1
    ensures Aged([order[p]] + Without(order, p), stamp[order[p] := clock], clock + 1, h)
  {
    hide Joined;
    var order', stamp' := [order[p]] + Without(order, p), stamp[order[p] := clock];
    assert forall q | 0 < q < h :: order'[q] == order[if q <= p then q - 1 else q];
    forall i | 0 <= i < h ensures i in order' {
      assert i in order;
      var q :| 0 <= q < h && order[q] == i;
      if q < p { assert order'[q + 1] == i; } else if q > p { assert order'[q] == i; } else { assert order'[0] == i; }
    }
  }

  lemma PositionOf(order: seq<nat>, stamp: seq<nat>, clock: nat, h: nat, b: nat) returns (p: nat)
    requires |order| == |stamp| == h && b < h && Aged(order, stamp, clock, h)
    ensures p < h && order[p] == b
  {
    assert b in order;
    p :| p < |order| && order[p] == b;
  }

  /** bget() on the cache that binit() leaves never panics: it has a buffer for every block. */
  method FirstGet(n: nat, d: Disk, dv: nat, bn: nat) returns (c: BufCache, i: nat)
    requires n > 0
    ensures fresh(c) && c.Valid() && i < n == c.h
    ensures c.bufs == seq(n, _ => Buf(0, 0, 0, false, false, false, ZeroBlock()))[
                        i := Buf(dv, bn, 1, false, false, false, ZeroBlock())]
  {
    c := new BufCache(n, d);
    assert c.bufs[0].refcnt == 0 && !c.bufs[0].dirty;
    var r := c.Bget(dv, bn);
    i := r.value;
  }
}
