/**
 * The buffer cache under the log: the disk and the map of dirty buffers that log.c works on are what
 * bio.c's buffers and memide.c's disk stand for, and bread(), log_write() and bwrite() change them as the
 * log takes it.  A process here is alone in the cache from bread() to brelse().
 */
module LogCache {
  import opened Wrappers
  import opened Blocks
  import opened Bio
  import opened CrashMachine
  import RedoLog
  import LogProgram

  /** The dirty buffers are those that the log has pinned, and hold what it put there. */
  ghost predicate Pins(bufs: seq<Buf>, cache: map<nat, Block>) {
    && (forall i | 0 <= i < |bufs| && bufs[i].dirty ::
          bufs[i].blockno in cache && cache[bufs[i].blockno] == bufs[i].data)
    && (forall b | b in cache :: exists i | 0 <= i < |bufs| :: bufs[i].dirty && bufs[i].blockno == b)
  }

  /** Nobody is between changing a buffer and logging or writing it. */
  ghost predicate AllSettled(bufs: seq<Buf>, disk: Disk) { forall i | 0 <= i < |bufs| :: Settled(bufs[i], disk) }

  /** No buffer but i is locked. */
  ghost predicate OnlyLocked(bufs: seq<Buf>, i: int) { forall j | 0 <= j < |bufs| && bufs[j].locked :: j == i }

  /** The cache and the disk stand for this map of dirty buffers and this disk. */
  ghost predicate StandsFor(bufs: seq<Buf>, disk: Disk, cache: map<nat, Block>) {
    CacheOk(bufs, disk) && Pins(bufs, cache) && AllSettled(bufs, disk)
  }

  /** No buffer holds disk block b, and every buffer is in use or pinned: bget() panics. */
  ghost predicate NoneFor(bufs: seq<Buf>, b: nat) {
    forall i | 0 <= i < |bufs| ::
      !(bufs[i].dev == DISKDEV && bufs[i].blockno == b) && (bufs[i].refcnt > 0 || bufs[i].dirty)
  }

  /** What the cache shows is what the log's bread() shows. */
  lemma ShowsView(bufs: seq<Buf>, disk: Disk, cache: map<nat, Block>, b: nat)
    requires StandsFor(bufs, disk, cache) && b < |disk|
    ensures Current(bufs, disk, b) == View(disk, cache)[b]
  {
    hide OneBufferEach;
    var i := Holder(bufs, b);
    if i >= 0 {
      assert BufOk(bufs[i], disk) && Settled(bufs[i], disk);
      if b in cache {
        var j :| 0 <= j < |bufs| && bufs[j].dirty && bufs[j].blockno == b;
        assert BufOk(bufs[j], disk);
        TheHolder(bufs, disk, j);
      }
    }
  }

  // ---- one buffer changes ----

  /** A change that keeps the dirty bit, and block and data of a dirty buffer, pins the same blocks. */
  lemma PinsKept(bufs: seq<Buf>, cache: map<nat, Block>, i: nat, x: Buf)
    requires Pins(bufs, cache) && i < |bufs| && x.dirty == bufs[i].dirty
    requires x.dirty ==> x.blockno == bufs[i].blockno && x.data == bufs[i].data
    ensures Pins(bufs[i := x], cache)
  {
    var bufs' := bufs[i := x];
    forall b | b in cache ensures exists j | 0 <= j < |bufs'| :: bufs'[j].dirty && bufs'[j].blockno == b {
      var j :| 0 <= j < |bufs| && bufs[j].dirty && bufs[j].blockno == b;
      assert bufs'[j].dirty && bufs'[j].blockno == b;
    }
  }

  /** Another dirty buffer does not hold the block of valid buffer i. */
  lemma OtherBlock(bufs: seq<Buf>, disk: Disk, i: nat, j: nat)
    requires CacheOk(bufs, disk) && i < |bufs| && j < |bufs| && i != j && bufs[i].valid && bufs[j].dirty
    ensures bufs[j].blockno != bufs[i].blockno
  {
    assert BufOk(bufs[i], disk) && BufOk(bufs[j], disk);
    if i < j {
      assert !Holds(bufs[j], bufs[i].dev, bufs[i].blockno);
    } else {
      assert !Holds(bufs[i], bufs[j].dev, bufs[j].blockno);
    }
  }

  lemma PinsMore(bufs: seq<Buf>, disk: Disk, cache: map<nat, Block>, i: nat, x: Buf)
    requires CacheOk(bufs, disk) && Pins(bufs, cache) && i < |bufs| && bufs[i].valid
    requires x.dirty && x.blockno == bufs[i].blockno
    ensures Pins(bufs[i := x], cache[x.blockno := x.data])
  {
    hide CacheOk;
    var bufs', cache' := bufs[i := x], cache[x.blockno := x.data];
    forall j | 0 <= j < |bufs'| && bufs'[j].dirty
      ensures bufs'[j].blockno in cache' && cache'[bufs'[j].blockno] == bufs'[j].data
    {
      if j != i {
        OtherBlock(bufs, disk, i, j);
      }
    }
    forall b | b in cache' ensures exists j | 0 <= j < |bufs'| :: bufs'[j].dirty && bufs'[j].blockno == b {
      if b == x.blockno {
        assert bufs'[i].dirty;
      } else {
        var j :| 0 <= j < |bufs| && bufs[j].dirty && bufs[j].blockno == b;
        assert j != i && bufs'[j].dirty && bufs'[j].blockno == b;
      }
    }
  }

  lemma PinsLess(bufs: seq<Buf>, disk: Disk, cache: map<nat, Block>, i: nat, x: Buf)
    requires CacheOk(bufs, disk) && Pins(bufs, cache) && i < |bufs| && bufs[i].valid
    requires !x.dirty && x.blockno == bufs[i].blockno
    ensures Pins(bufs[i := x], cache - {x.blockno})
  {
    hide CacheOk;
    var bufs', cache' := bufs[i := x], cache - {x.blockno};
    forall j | 0 <= j < |bufs'| && bufs'[j].dirty
      ensures bufs'[j].blockno in cache' && cache'[bufs'[j].blockno] == bufs'[j].data
    {
      OtherBlock(bufs, disk, i, j);
    }
    forall b | b in cache' ensures exists j | 0 <= j < |bufs'| :: bufs'[j].dirty && bufs'[j].blockno == b {
      var j :| 0 <= j < |bufs| && bufs[j].dirty && bufs[j].blockno == b;
      assert j != i && bufs'[j].dirty && bufs'[j].blockno == b;
    }
  }

  // ---- the three ways log.c uses a buffer ----

  /** bread(): the buffer of block b, locked; None where bget() panics because every buffer is in use. */
  method Bread(c: BufCache, b: nat, ghost cache: map<nat, Block>) returns (r: Option<nat>)
    requires c.Valid() && StandsFor(c.bufs, c.disk, cache) && OnlyLocked(c.bufs, -1) && b < |c.disk|
    modifies c`bufs, c`disk
    ensures r.None? <==> NoneFor(old(c.bufs), b)
    ensures r.None? ==> c.bufs == old(c.bufs)
    ensures c.Valid() && c.disk == old(c.disk) && StandsFor(c.bufs, c.disk, cache)
    ensures r.Some? ==>
              && r.value < c.h && OnlyLocked(c.bufs, r.value)
              && (var x := c.bufs[r.value];
                  x.locked && x.valid && x.dev == DISKDEV && x.blockno == b && x.data == View(c.disk, cache)[b])
  {
    hide CacheOk, SameContents, View, Current, Pins, AllSettled;
    ShowsView(c.bufs, c.disk, cache, b);
    r := c.Bget(DISKDEV, b);
    if r.None? {
      return;
    }
    var i := r.value;
    Referenced(old(c.bufs), c.bufs, c.disk, cache, i);
    ghost var bufs1 := c.bufs;
    c.Lock(i);
    LockedOne(bufs1, c.bufs, c.disk, cache, i);
    ghost var bufs2 := c.bufs;
    var ok := c.Fill(i);
    FilledOne(bufs2, c.bufs, c.disk, cache, i);
    SameAt(old(c.bufs), bufs1, bufs2, c.disk, b);
  }

  /** A block that is read and released: the log's Bread. */
  method ReadBlock(c: BufCache, b: nat, ghost cache: map<nat, Block>) returns (r: Option<Block>)
    requires c.Valid() && StandsFor(c.bufs, c.disk, cache) && OnlyLocked(c.bufs, -1) && b < |c.disk|
    modifies c
    ensures c.disk == old(c.disk)
    ensures c.Valid() && StandsFor(c.bufs, c.disk, cache) && OnlyLocked(c.bufs, -1)
    ensures r.None? <==> NoneFor(old(c.bufs), b)
    ensures r.Some? ==> r.value == View(c.disk, cache)[b]
  {
    hide CacheOk, SameContents, View, Pins, AllSettled, NoneFor;
    var i := Bread(c, b, cache);
    if i.None? {
      return None;
    }
    r := Some(c.bufs[i.value].data);
    Release(c, i.value, cache);
  }

  /** brelse() of a settled buffer changes nothing the log can see. */
  method Release(c: BufCache, i: nat, ghost cache: map<nat, Block>)
    requires c.Valid() && StandsFor(c.bufs, c.disk, cache) && i < c.h && OnlyLocked(c.bufs, i) && c.bufs[i].locked
    modifies c
    ensures c.disk == old(c.disk)
    ensures c.Valid() && StandsFor(c.bufs, c.disk, cache) && OnlyLocked(c.bufs, -1)
  {
    hide CacheOk, SameContents, Pins;
    var _ := c.Brelse(i);
    PinsKept(old(c.bufs), cache, i, c.bufs[i]);
  }

  /** bread(), a change, log_write(), brelse(): the block is pinned with its new contents. */
  method LogBlock(c: BufCache, b: nat, data: Block, ghost cache: map<nat, Block>) returns (ok: bool)
    requires c.Valid() && StandsFor(c.bufs, c.disk, cache) && OnlyLocked(c.bufs, -1) && b < |c.disk|
    modifies c
    ensures c.Valid() && OnlyLocked(c.bufs, -1) && c.disk == old(c.disk)
    ensures StandsFor(c.bufs, c.disk, if ok then cache[b := data] else cache)
    ensures !ok <==> NoneFor(old(c.bufs), b)
  {
    hide CacheOk, SameContents, View, Pins, NoneFor;
    var i := Bread(c, b, cache);
    if i.None? {
      return false;
    }
    ghost var bufs := c.bufs;
    PinsMore(bufs, c.disk, cache, i.value, bufs[i.value].(data := data, dirty := true));
    c.Modify(i.value, data);
    c.Pin(i.value);
    assert c.bufs == bufs[i.value := bufs[i.value].(data := data, dirty := true)];
    Release(c, i.value, cache[b := data]);
    ok := true;
  }

  /** bread(), a change, bwrite(), brelse(): the block is on the disk and its buffer is clean. */
  method WriteBlock(c: BufCache, b: nat, data: Block, ghost cache: map<nat, Block>) returns (ok: bool)
    requires c.Valid() && StandsFor(c.bufs, c.disk, cache) && OnlyLocked(c.bufs, -1) && b < |c.disk|
    modifies c
    ensures c.Valid() && OnlyLocked(c.bufs, -1)
    ensures ok ==> c.disk == old(c.disk)[b := data] && StandsFor(c.bufs, c.disk, cache - {b})
    ensures !ok ==> c.disk == old(c.disk) && StandsFor(c.bufs, c.disk, cache)
    ensures !ok <==> NoneFor(old(c.bufs), b)
  {
    hide CacheOk, SameContents, View, Pins, Current, NoneFor;
    var i := Bread(c, b, cache);
    if i.None? {
      return false;
    }
    ghost var bufs := c.bufs;
    ghost var x := bufs[i.value].(data := data, dirty := false);
    PinsLess(bufs, c.disk, cache, i.value, x);
    c.Modify(i.value, data);
    ok := c.Bwrite(i.value);
    assert c.bufs == bufs[i.value := x];
    WroteSettled(bufs, old(c.disk), i.value, x);
    Release(c, i.value, cache - {b});
  }

  // ---- bread() step by step ----

  lemma Referenced(bufs: seq<Buf>, bufs': seq<Buf>, disk: Disk, cache: map<nat, Block>, i: nat)
    requires StandsFor(bufs, disk, cache) && OnlyLocked(bufs, -1) && i < |bufs| == |bufs'| && CacheOk(bufs', disk)
    requires var x, y := bufs[i], bufs'[i];
             && bufs' == bufs[i := y] && y.locked == x.locked
             && (y == x.(refcnt := x.refcnt + 1) || (x.refcnt == 0 && !x.dirty && !y.valid && !y.dirty))
    ensures StandsFor(bufs', disk, cache) && OnlyLocked(bufs', -1)
  {
    hide CacheOk, Pins;
    PinsKept(bufs, cache, i, bufs'[i]);
  }

  lemma LockedOne(bufs: seq<Buf>, bufs': seq<Buf>, disk: Disk, cache: map<nat, Block>, i: nat)
    requires StandsFor(bufs, disk, cache) && OnlyLocked(bufs, -1) && i < |bufs| && CacheOk(bufs', disk)
    requires bufs' == bufs[i := bufs[i].(locked := true)]
    ensures StandsFor(bufs', disk, cache) && OnlyLocked(bufs', i)
  {
    hide CacheOk, Pins;
    PinsKept(bufs, cache, i, bufs'[i]);
  }

  lemma FilledOne(bufs: seq<Buf>, bufs': seq<Buf>, disk: Disk, cache: map<nat, Block>, i: nat)
    requires StandsFor(bufs, disk, cache) && OnlyLocked(bufs, i) && i < |bufs| == |bufs'| && CacheOk(bufs', disk)
    requires bufs' == bufs[i := bufs[i].(valid := true, data := bufs'[i].data)] && bufs[i].blockno < |disk|
    requires bufs'[i].data == Current(bufs, disk, bufs[i].blockno)
    ensures StandsFor(bufs', disk, cache) && OnlyLocked(bufs', i)
  {
    hide OneBufferEach, Pins;
    assert BufOk(bufs[i], disk);
    if bufs[i].valid {
      TheHolder(bufs, disk, i);
    } else {
      assert BufOk(bufs'[i], disk);
      NoHolder(bufs, disk, i);
    }
    PinsKept(bufs, cache, i, bufs'[i]);
  }

  lemma SameAt(bufs: seq<Buf>, bufs1: seq<Buf>, bufs2: seq<Buf>, disk: Disk, b: nat)
    requires SameContents(bufs, disk, bufs1, disk) && SameContents(bufs1, disk, bufs2, disk) && b < |disk|
    ensures Current(bufs2, disk, b) == Current(bufs, disk, b)
  {
  }

  lemma WroteSettled(bufs: seq<Buf>, disk: Disk, i: nat, x: Buf)
    requires CacheOk(bufs, disk) && AllSettled(bufs, disk) && i < |bufs| && bufs[i].valid && bufs[i].blockno < |disk|
    requires x.valid && x.blockno == bufs[i].blockno
    ensures AllSettled(bufs[i := x], disk[x.blockno := x.data])
  {
    forall j | 0 <= j < |bufs| && j != i ensures Settled(bufs[j], disk[x.blockno := x.data]) {
      assert Settled(bufs[j], disk) && BufOk(bufs[i], disk) && BufOk(bufs[j], disk);
      if i < j {
        assert !Holds(bufs[j], bufs[i].dev, bufs[i].blockno);
      } else {
        assert bufs[j].dev != 0 ==> !Holds(bufs[i], bufs[j].dev, bufs[j].blockno);
      }
    }
  }

  // ---- log.c on bio.c ----

  /** The log's disk and dirty buffers are those of the cache, and nobody holds a buffer. */
  ghost predicate Coupled(log: LogProgram.Log, c: BufCache)
    reads log, c
  {
    c.Valid() && c.disk == log.disk && StandsFor(c.bufs, c.disk, log.cache) && OnlyLocked(c.bufs, -1)
  }

  /** bread() of the log, from the cache. */
  method CoupledRead(log: LogProgram.Log, c: BufCache, b: nat) returns (r: Option<Block>)
    requires Coupled(log, c) && b < |log.disk|
    modifies c
    ensures Coupled(log, c) && (r.Some? ==> r.value == log.Bread(b))
    ensures r.None? <==> NoneFor(old(c.bufs), b)
  {
    hide StandsFor, OnlyLocked, NoneFor;
    r := ReadBlock(c, b, log.cache);
  }

  /** bwrite() of the log, through the cache; without a buffer neither happens. */
  method CoupledBwrite(log: LogProgram.Log, c: BufCache, b: nat, data: Block) returns (ok: bool)
    requires Coupled(log, c) && b < |log.disk|
    modifies log`disk, log`cache, log`writes, c
    ensures Coupled(log, c)
    ensures ok ==> log.disk == old(log.disk)[b := data] && log.writes == old(log.writes) + [log.disk]
    ensures !ok ==> log.disk == old(log.disk) && log.cache == old(log.cache) && log.writes == old(log.writes)
    ensures !ok <==> NoneFor(old(c.bufs), b)
  {
    hide StandsFor, OnlyLocked, NoneFor;
    ok := WriteBlock(c, b, data, log.cache);
    if ok {
      log.Bwrite(b, data);
    }
  }

  /** log_write() of the log where it does not panic, with the buffer changed and pinned in the cache. */
  method CoupledLogWrite(log: LogProgram.Log, c: BufCache, ghost op: OpId, b: nat, data: Block) returns (ok: bool)
    requires Coupled(log, c) && log.Valid() && RedoLog.Home(log.c, b) && b < |log.disk|
    requires log.outstanding >= 1 && op in log.st.ops && |log.lh| < RedoLog.LOGSIZE && |log.lh| < log.c.size - 1
    modifies log`lh, log`cache, log`st, c
    ensures Coupled(log, c) && log.disk == old(log.disk)
    ensures log.cache == if ok then old(log.cache)[b := data] else old(log.cache)
    ensures !ok <==> NoneFor(old(c.bufs), b)
  {
    hide StandsFor, OnlyLocked, Inv, NextStep, NoneFor;
    ok := LogBlock(c, b, data, log.cache);
    if ok {
      var _ := log.LogWrite(op, b, data);
    }
  }

  // ---- when the cache runs out of buffers ----

  ghost function DirtyBlocks(bufs: seq<Buf>): set<nat> {
    if bufs == [] then {}
    else
      var x := bufs[|bufs| - 1];
      DirtyBlocks(bufs[..|bufs| - 1]) + if x.dirty then {x.blockno} else {}
  }

  lemma {:induction false} DirtyBlocksAre(bufs: seq<Buf>, b: nat)
    ensures b in DirtyBlocks(bufs) <==> exists i | 0 <= i < |bufs| :: bufs[i].dirty && bufs[i].blockno == b
  {
    if bufs != [] {
      var front := bufs[..|bufs| - 1];
      DirtyBlocksAre(front, b);
      assert forall i | 0 <= i < |front| :: front[i] == bufs[i];
      if i :| 0 <= i < |bufs| && bufs[i].dirty && bufs[i].blockno == b {
        assert i < |front| ==> front[i].dirty && front[i].blockno == b;
      }
    }
  }

  /** There are as many dirty blocks as buffers exactly if every buffer is dirty. */
  lemma {:induction false} DirtyCount(bufs: seq<Buf>)
    requires forall i, j | 0 <= i < j < |bufs| && bufs[i].dirty && bufs[j].dirty :: bufs[i].blockno != bufs[j].blockno
    ensures |DirtyBlocks(bufs)| <= |bufs|
    ensures |DirtyBlocks(bufs)| == |bufs| <==> forall i | 0 <= i < |bufs| :: bufs[i].dirty
  {
    if bufs != [] {
      var front, x := bufs[..|bufs| - 1], bufs[|bufs| - 1];
      DirtyCount(front);
      assert forall i | 0 <= i < |front| :: front[i] == bufs[i];
      if x.dirty {
        DirtyBlocksAre(front, x.blockno);
      }
    }
  }

  /**
   * While no process holds a buffer, bread() of a block panics if and only if the log has pinned every buffer
   * and the block is none of them.
   */
  lemma AllPinned(bufs: seq<Buf>, disk: Disk, cache: map<nat, Block>, b: nat)
    requires StandsFor(bufs, disk, cache) && forall i | 0 <= i < |bufs| :: bufs[i].refcnt == 0
    ensures NoneFor(bufs, b) <==> |cache| == |bufs| && b !in cache
  {
    hide OneBufferEach, AllSettled;
    assert forall i | 0 <= i < |bufs| :: BufOk(bufs[i], disk);
    forall i, j | 0 <= i < j < |bufs| && bufs[i].dirty && bufs[j].dirty ensures bufs[i].blockno != bufs[j].blockno {
      OtherBlock(bufs, disk, i, j);
    }
    DirtyCount(bufs);
    forall x: nat ensures x in cache <==> x in DirtyBlocks(bufs) {
      DirtyBlocksAre(bufs, x);
    }
    assert cache.Keys == DirtyBlocks(bufs);
    assert |cache| == |cache.Keys|;
  }
}
