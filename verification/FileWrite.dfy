/**
 * Consequences for files: reading back what was written, files without holes, the inode table as a
 * write-through copy, and the transactions of filewrite() and what they log.
 */
module FileWrite {
  import opened Blocks
  import opened FsLayout
  import opened FsOwnership
  import opened LogCalls
  import opened Ranges
  import opened FsProgram
  import opened RedoLog

  // ---- files without holes ----

  /** writei() leaves no hole in any file that had none. */
  lemma WrittenHoleFree(sb: Super, d0: Disk, inodes0: Inodes, logged0: set<nat>, d: Disk, inodes: Inodes,
                        logged: set<nat>, f: Footprint, i: nat, off: nat, src: seq<Byte>, j: nat)
    requires Written(sb, d0, inodes0, logged0, d, inodes, logged, f, i, off, src)
    requires off <= inodes0[i].size && off + |src| <= MAXFILE * BSIZE
    requires j in inodes0 && HoleFree(d0, inodes0[j])
    ensures j in inodes && HoleFree(d, inodes[j])
  {
    hide Addr, Wrote, DIno, Within, ByteAt;
    forall bn: nat | bn * BSIZE < inodes[j].size && bn < MAXFILE
      ensures Addr(d, inodes[j], DataSlot(bn)) != 0
    {
      if bn * BSIZE < inodes0[j].size {
        KeptSlot(d0, inodes0, d, inodes, j, DataSlot(bn));
      }
    }
  }

  // ---- the inode table is a write-through copy ----

  /** bmap() will have to store a new pointer in the inode itself for some block of lo..hi-1. */
  ghost predicate InodeHole(ino: Ino, lo: nat, hi: nat)
    requires |ino.addrs| == NDIRECT + 1
  {
    || (exists bn: nat | lo <= bn < hi && bn < NDIRECT :: ino.addrs[bn] == 0)
    || (hi > NDIRECT && lo < hi && ino.addrs[NDIRECT] == 0)
  }

  lemma AddrsUntouched(ino: Ino, jno: Ino, lo: nat, hi: nat)
    requires OnlyTouched(ino, jno, lo, hi) && lo <= hi <= MAXFILE && !InodeHole(ino, lo, hi)
    requires forall k: nat | k <= NDIRECT && ino.addrs[k] != 0 :: jno.addrs[k] == ino.addrs[k]
    ensures jno.addrs == ino.addrs
  {
    forall k: nat | k <= NDIRECT ensures jno.addrs[k] == ino.addrs[k] {}
  }

  lemma AddrsTouched(d: Disk, ino: Ino, jno: Ino, lo: nat, hi: nat)
    requires Filled(d, jno, lo, hi) && lo <= hi <= MAXFILE && |ino.addrs| == NDIRECT + 1 && InodeHole(ino, lo, hi)
    ensures jno.addrs != ino.addrs
  {
    if bn: nat :| lo <= bn < hi && bn < NDIRECT && ino.addrs[bn] == 0 {
      assert Addr(d, jno, DataSlot(bn)) != 0;
    } else {
      var bn := if lo < NDIRECT then NDIRECT else lo;
      assert Addr(d, jno, DataSlot(bn)) != 0;
    }
  }

  /**
   * writei() writes the inode back only when the file grew.  So if the inode table held the in-core
   * inode before, it still does exactly when the file grew or no pointer of the inode was missing.
   */
  lemma WriteThrough(sb: Super, d0: Disk, inodes0: Inodes, logged0: set<nat>, d: Disk, inodes: Inodes,
                     logged: set<nat>, f: Footprint, i: nat, off: nat, src: seq<Byte>)
    requires Written(sb, d0, inodes0, logged0, d, inodes, logged, f, i, off, src)
    requires DIno(sb, d0, i) == inodes0[i]
    ensures DIno(sb, d, i) == inodes[i] <==>
              || Grown(inodes0[i].size, off, |src|) > inodes0[i].size
              || !InodeHole(inodes0[i], off / BSIZE, off / BSIZE + Touched(off, |src|))
  {
    hide Addr, Wrote, DIno, Within, ByteAt, OnlyTouched, Filled;
    var lo, hi := off / BSIZE, off / BSIZE + Touched(off, |src|);
    if InodeHole(inodes0[i], lo, hi) {
      AddrsTouched(d, inodes0[i], inodes[i], lo, hi);
    } else {
      forall k: nat | k <= NDIRECT && inodes0[i].addrs[k] != 0
        ensures inodes[i].addrs[k] == inodes0[i].addrs[k]
      {
        KeptAddr(d0, inodes0, d, inodes, i, k);
      }
      AddrsUntouched(inodes0[i], inodes[i], lo, hi);
    }
  }

  lemma KeptAddr(d: Disk, inodes: Inodes, e: Disk, jnodes: Inodes, i: nat, k: nat)
    requires PointersKept(d, inodes, e, jnodes) && i in inodes && k <= NDIRECT && inodes[i].addrs[k] != 0
    ensures jnodes[i].addrs[k] == inodes[i].addrs[k]
  {
    assert Addr(d, inodes[i], k) == inodes[i].addrs[k];
  }

  /** A file without holes is always written through. */
  lemma HoleFreeWriteThrough(sb: Super, d0: Disk, inodes0: Inodes, logged0: set<nat>, d: Disk, inodes: Inodes,
                             logged: set<nat>, f: Footprint, i: nat, off: nat, src: seq<Byte>)
    requires Written(sb, d0, inodes0, logged0, d, inodes, logged, f, i, off, src)
    requires DIno(sb, d0, i) == inodes0[i] && HoleFree(d0, inodes0[i])
    requires off <= inodes0[i].size && off + |src| <= MAXFILE * BSIZE
    ensures DIno(sb, d, i) == inodes[i]
  {
    hide Wrote, DIno, Within, ByteAt, OnlyTouched, Filled, PointersKept;
    var lo, hi := off / BSIZE, off / BSIZE + Touched(off, |src|);
    WriteThrough(sb, d0, inodes0, logged0, d, inodes, logged, f, i, off, src);
    if Grown(inodes0[i].size, off, |src|) == inodes0[i].size {
      NoInodeHole(d0, inodes0[i], off, |src|);
    }
  }

  lemma NoInodeHole(d: Disk, ino: Ino, off: nat, n: nat)
    requires HoleFree(d, ino) && (n == 0 || off + n <= ino.size)
    ensures !InodeHole(ino, off / BSIZE, off / BSIZE + Touched(off, n))
  {
    var lo, hi := off / BSIZE, off / BSIZE + Touched(off, n);
    forall bn: nat | lo <= bn < hi ensures Addr(d, ino, DataSlot(bn)) != 0 {
      assert bn * BSIZE < ino.size;
    }
    if lo < hi && hi > NDIRECT {
      assert Addr(d, ino, DataSlot(hi - 1)) != 0;
    }
    forall bn: nat | lo <= bn < hi && bn < NDIRECT ensures ino.addrs[bn] != 0 {
      assert Addr(d, ino, DataSlot(bn)) != 0;
    }
  }

  /** An inode with a hole: one block long, and no block behind any of its pointers. */
  const HOLE := Ino(2, 0x1_0000, 512, [0, 0, 0, 0, 0, 0, 0, 0, 0, 0, 0, 0, 0])

  /** A disk with one inode, HOLE, and one free data block. */
  function HoleDisk(sb: Super): (d: Disk)
    requires sb == Super(4, 1, 1, 2)
    ensures |d| == 4 && d[2] == ZeroBlock()[0 := 7] && DIno(sb, d, 0) == HOLE
  {
    var empty: Disk := [ZeroBlock(), ZeroBlock(), ZeroBlock()[0 := 7], ZeroBlock()];
    WithInoTable(sb, empty, 0, HOLE);
    WithIno(sb, empty, 0, HOLE)
  }

  lemma HoleDiskValid(sb: Super)
    requires sb == Super(4, 1, 1, 2)
    ensures FsInv(sb, HoleDisk(sb), map[0 := HOLE], map[])
  {
    hide HoleDisk;
    var d := HoleDisk(sb);
    forall b: nat | b < 4 ensures Bit(sb, d, b) <==> b < DataStart(sb) {
      assert BBlock(sb, b) == 2 && b % BPB / 8 == 0 && b % BPB % 8 == b;
      SevenBits(b);
    }
    forall k: nat | k < SLOTS ensures Addr(d, HOLE, k) == 0 {
    }
  }

  lemma SevenBits(b: nat)
    requires b < 4
    ensures BitOf(7, b) <==> b < 3
  {
    assert BitOf(7, 0) && BitOf(7, 1) == BitOf(3, 0) && BitOf(7, 2) == BitOf(3, 1) == BitOf(1, 0);
    assert BitOf(7, 3) == BitOf(3, 2) == BitOf(1, 1) == BitOf(0, 0);
  }

  lemma HoleNeeds(sb: Super, d: Disk)
    requires sb == Super(4, 1, 1, 2) && FsInv(sb, d, map[0 := HOLE], map[])
    ensures !NoRoom(sb, d, HOLE, 0, 1)
    ensures InodeHole(HOLE, 0, Touched(0, 1))
  {
    RoomLeft(sb, d, map[0 := HOLE], map[]);
    assert Absent(d, HOLE, 0, 0) == 0 && Touched(0, 1) == 1;
    assert HOLE.addrs[0] == 0;
  }

  /**
   * Where the inode table is not a write-through copy: one byte into the hole fills in a pointer of the
   * inode and does not grow the file, so writei() does not write the inode back.
   */
  method HoleNotWrittenThrough() returns (fs: Fs, r: IoResult)
    ensures fs.Valid() && r == Count(1) && 0 in fs.inodes && 0 < fs.sb.ninodes
    ensures |fs.start| == |fs.d| && DIno(fs.sb, fs.start, 0) == HOLE && DIno(fs.sb, fs.d, 0) == HOLE != fs.inodes[0]
  {
    hide FsInv, Written, DIno, HoleDisk, NoRoom, InodeHole, Traced, Inside;
    var sb := Super(4, 1, 1, 2);
    var d := HoleDisk(sb);
    HoleDiskValid(sb);
    HoleNeeds(sb, d);
    fs := new Fs(sb, d, map[0 := HOLE], map[]);
    ghost var f;
    r, f := fs.Writei(0, [1], 0);
    WriteThrough(sb, d, map[0 := HOLE], {}, fs.d, fs.inodes, fs.logged, f, 0, 0, [1]);
    WrittenTableEntry(sb, d, map[0 := HOLE], {}, fs.d, fs.inodes, fs.logged, f, 0, 0, [1]);
  }

  lemma WrittenTableEntry(sb: Super, d0: Disk, inodes0: Inodes, logged0: set<nat>, d: Disk, inodes: Inodes,
                          logged: set<nat>, f: Footprint, i: nat, off: nat, src: seq<Byte>)
    requires Written(sb, d0, inodes0, logged0, d, inodes, logged, f, i, off, src)
    requires Grown(inodes0[i].size, off, |src|) == inodes0[i].size
    ensures ValidDisk(sb, d0) && ValidDisk(sb, d) && i < sb.ninodes && i in inodes && DIno(sb, d, i) == DIno(sb, d0, i)
  {
    hide DIno;
  }

  // ---- what one filewrite() transaction logs ----

  /** ((MAXOPBLOCKS-1-1-2) / 2) * 512 */
  const MAXWRITE: nat := ((MAXOPBLOCKS - 1 - 1 - 2) / 2) * 512

  lemma {:induction false} AbsentBound(d: Disk, ino: Ino, lo: nat, hi: nat)
    requires lo <= hi <= MAXFILE && |ino.addrs| == NDIRECT + 1
    ensures Absent(d, ino, lo, hi) <= hi - lo
    ensures lo < hi && Addr(d, ino, DataSlot(lo)) != 0 ==> Absent(d, ino, lo, hi) <= hi - lo - 1
  {
    hide Addr;
    if lo < hi { AbsentBound(d, ino, lo, hi - 1); }
  }

  /**
   * A file without holes: at most 4 data blocks, 4 bitmap blocks, the indirect block and the inode
   * block, 10 in all.  An unaligned first block exists already because off <= size.
   */
  lemma TransactionFits(sb: Super, d0: Disk, inodes0: Inodes, logged0: set<nat>, d: Disk, inodes: Inodes,
                        logged: set<nat>, f: Footprint, i: nat, off: nat, src: seq<Byte>)
    requires Written(sb, d0, inodes0, logged0, d, inodes, logged, f, i, off, src)
    requires HoleFree(d0, inodes0[i]) && off <= inodes0[i].size && |src| <= MAXWRITE
    ensures |f.data| <= 4 && |f.maps| <= 4 && |f.inds| <= 1 && |f.inos| <= 1
    ensures |All(f)| <= MAXOPBLOCKS && logged == logged0 + All(f)
  {
    hide Wrote, DIno, ByteAt, OnlyTouched, Filled, PointersKept, Addr;
    var lo, hi := off / BSIZE, off / BSIZE + Touched(off, |src|);
    AbsentBound(d0, inodes0[i], lo, hi);
    assert Touched(off, |src|) <= 4 && (off % BSIZE == 0 ==> Touched(off, |src|) <= 3);
    if lo < hi && off % BSIZE != 0 {
      assert lo * BSIZE < inodes0[i].size;
      assert Addr(d0, inodes0[i], DataSlot(lo)) != 0;
    }
    assert Absent(d0, inodes0[i], lo, hi) <= 3;
    UnionCard(f.data, f.maps);
    UnionCard(f.data + f.maps, f.inds);
    UnionCard(f.data + f.maps + f.inds, f.inos);
  }

  /** Any file: the four blocks of an unaligned write may all be absent, and the indirect block with them. */
  lemma TransactionBound(sb: Super, d0: Disk, inodes0: Inodes, logged0: set<nat>, d: Disk, inodes: Inodes,
                         logged: set<nat>, f: Footprint, i: nat, off: nat, src: seq<Byte>)
    requires Written(sb, d0, inodes0, logged0, d, inodes, logged, f, i, off, src) && |src| <= MAXWRITE
    ensures |f.data| <= 4 && |f.maps| <= 5 && |f.inds| <= 1 && |f.inos| <= 1
    ensures |All(f)| <= MAXOPBLOCKS + 1 && logged == logged0 + All(f)
  {
    hide Wrote, DIno, ByteAt, OnlyTouched, Filled, PointersKept, Addr;
    AbsentBound(d0, inodes0[i], off / BSIZE, off / BSIZE + Touched(off, |src|));
    UnionCard(f.data, f.maps);
    UnionCard(f.data + f.maps, f.inds);
    UnionCard(f.data + f.maps + f.inds, f.inos);
  }

  /** What itrunc() may log fits in a transaction when the bitmap has at most 9 blocks. */
  lemma TruncFits(sb: Super, i: nat, logged: set<nat>)
    requires ValidSuper(sb) && i < sb.ninodes && logged <= {IBlock(sb, i)} + MapBlocks(sb)
    ensures |logged| <= sb.size / BPB + 2
    ensures sb.size < 9 * BPB ==> |logged| <= MAXOPBLOCKS
  {
    RangeCard(sb.bmapstart, DataStart(sb));
    var most := {IBlock(sb, i)} + MapBlocks(sb);
    assert IBlock(sb, i) !in MapBlocks(sb);
    assert most == logged + (most - logged);
  }

  // ---- programs over the file system ----

  lemma WrittenInode(sb: Super, d0: Disk, inodes0: Inodes, logged0: set<nat>, d: Disk, inodes: Inodes,
                     logged: set<nat>, f: Footprint, i: nat, off: nat, src: seq<Byte>)
    requires Written(sb, d0, inodes0, logged0, d, inodes, logged, f, i, off, src) && off <= inodes0[i].size
    ensures i in inodes && inodes[i].typeMajor == inodes0[i].typeMajor
    ensures off + |src| <= inodes[i].size == Grown(inodes0[i].size, off, |src|)
    ensures Wrote(d0, inodes0, d, inodes, i, off, src)
  {
  }

  lemma ReadBack(d0: Disk, inodes0: Inodes, d: Disk, inodes: Inodes, i: nat, off: nat, src: seq<Byte>, dst: seq<Byte>)
    requires Wrote(d0, inodes0, d, inodes, i, off, src) && i in inodes && |dst| == |src|
    requires forall k: nat | k < |dst| :: off + k < MAXFILE * BSIZE && dst[k] == ByteAt(d, inodes[i], off + k)
    ensures dst == src
  {
    hide ByteAt;
    forall k: nat | k < |dst| ensures dst[k] == src[k] {
      var o, x := off + k, dst[k];
      assert x == ByteAt(d, inodes[i], o);
      assert ByteAt(d, inodes[i], o) == src[o - off];
    }
  }

  /** A readi() of the same range after a writei() returns what was written. */
  method WriteThenRead(fs: Fs, inum: nat, src: seq<Byte>, off: nat) returns (w: IoResult, r: IoResult, dst: seq<Byte>)
    requires fs.Valid() && inum in fs.inodes && off < WORD_LIMIT && |src| < WORD_LIMIT
    modifies fs
    ensures w.Count? && r.Count? ==> dst == src
    ensures w.Count? && HoleFree(old(fs.d), old(fs.inodes)[inum]) ==> r == Count(|src|)
  {
    hide FsInv, Written, Wrote, HoleFree, ByteAt, SameFiles;
    ghost var d0, inodes0, logged0 := fs.d, fs.inodes, fs.logged;
    ghost var f;
    r, dst := Panic, [];
    w, f := fs.Writei(inum, src, off);
    if !w.Count? { return; }
    WrittenInode(fs.sb, d0, inodes0, logged0, fs.d, fs.inodes, fs.logged, f, inum, off, src);
    if HoleFree(d0, inodes0[inum]) {
      WrittenHoleFree(fs.sb, d0, inodes0, logged0, fs.d, fs.inodes, fs.logged, f, inum, off, src, inum);
    }
    ghost var d1, inodes1 := fs.d, fs.inodes;
    r, dst := fs.Readi(inum, off, |src|);
    if r.Count? {
      ReadBack(d0, inodes0, d1, inodes1, inum, off, src, dst);
    }
  }

  /** src has been written to file i at off, the file has grown if need be, and holes have not appeared in it. */
  ghost predicate FileWritten(d0: Disk, inodes0: Inodes, d: Disk, inodes: Inodes, i: nat, off: nat, src: seq<Byte>) {
    && Wrote(d0, inodes0, d, inodes, i, off, src) && i in inodes0
    && inodes[i].typeMajor == inodes0[i].typeMajor
    && inodes[i].size == Grown(inodes0[i].size, off, |src|)
    && (HoleFree(d0, inodes0[i]) ==> HoleFree(d, inodes[i]))
  }

  /** The blocks that one transaction on the file may log. */
  ghost function TxnBudget(d: Disk, ino: Ino): nat { if HoleFree(d, ino) then MAXOPBLOCKS else MAXOPBLOCKS + 1 }

  /** An empty write changes nothing. */
  lemma WroteNothing(d: Disk, inodes: Inodes, i: nat, off: nat, src: seq<Byte>)
    requires WellShaped(inodes) && i in inodes
    ensures FileWritten(d, inodes, d, inodes, i, off, src[..0])
  {
  }

  lemma FileWrittenParts(d0: Disk, inodes0: Inodes, d: Disk, inodes: Inodes, i: nat, off: nat, src: seq<Byte>)
    requires FileWritten(d0, inodes0, d, inodes, i, off, src)
    ensures i in inodes && inodes[i].typeMajor == inodes0[i].typeMajor
    ensures inodes[i].size == Grown(inodes0[i].size, off, |src|)
    ensures TxnBudget(d, inodes[i]) <= TxnBudget(d0, inodes0[i])
  {
  }

  lemma BudgetIs(d: Disk, ino: Ino)
    ensures TxnBudget(d, ino) == if HoleFree(d, ino) then 10 else 11
  {
  }

  lemma WroteAppend(d0: Disk, inodes0: Inodes, d1: Disk, inodes1: Inodes, d2: Disk, inodes2: Inodes, i: nat, off: nat,
                    addr: seq<Byte>, tot: nat, m: nat)
    requires tot + m <= |addr| && off + tot + m <= MAXFILE * BSIZE
    requires Wrote(d0, inodes0, d1, inodes1, i, off, addr[..tot])
    requires Wrote(d1, inodes1, d2, inodes2, i, off + tot, addr[tot..tot + m])
    ensures Wrote(d0, inodes0, d2, inodes2, i, off, addr[..tot + m])
  {
    hide Wrote;
    var src := addr[..tot + m];
    assert src[..tot] == addr[..tot] && src[tot..tot + m] == addr[tot..tot + m] && src[..tot + m] == src;
    WroteMore(d0, inodes0, d1, inodes1, d2, inodes2, i, off, src, tot, m);
  }

  lemma LoggedOnly(start: Disk, calls: seq<LogCall>, d: Disk, logged: set<nat>)
    requires Traced(start, calls, d, logged)
    ensures OnlyIn(start, d, logged)
  {
    hide OnlyIn;
    ReplayOnlyIn(start, calls);
  }

  /** begin_op(); ilock(ip); writei(); iunlock(ip); end_op(): what the transaction logs fits its budget. */
  method Transaction(fs: Fs, inum: nat, chunk: seq<Byte>, off: nat) returns (w: IoResult)
    requires fs.Valid() && inum in fs.inodes && off < WORD_LIMIT && |chunk| <= MAXWRITE
    modifies fs
    ensures w == Count(|chunk|) || w == Fail || w == Device || w == Panic
    ensures w == Device <==> old(fs.IsDevice(inum))
    ensures w == Fail <==>
              !old(fs.IsDevice(inum)) && (off > old(fs.inodes)[inum].size || off + |chunk| > MAXFILE * BSIZE)
    ensures w == Panic <==> !old(fs.IsDevice(inum)) && NoRoom(fs.sb, old(fs.d), old(fs.inodes)[inum], off, |chunk|)
    ensures w == Panic ==> DiskFull(fs.sb, fs.d)
    ensures w == Fail || w == Device ==>
              && fs.Valid() && fs.d == old(fs.d) && fs.inodes == old(fs.inodes) && fs.owner == old(fs.owner)
              && fs.logged == {}
    ensures w.Count? ==> fs.Valid() && FileWritten(old(fs.d), old(fs.inodes), fs.d, fs.inodes, inum, off, chunk)
    ensures w.Count? ==> |fs.logged| <= TxnBudget(old(fs.d), old(fs.inodes)[inum])
    ensures w.Count? ==> OnlyIn(old(fs.d), fs.d, fs.logged)
  {
    hide FsInv, Written, Wrote, HoleFree, DiskFull, NoRoom, Traced, Inside, OnlyIn;
    fs.Begin();
    ghost var d1, inodes1 := fs.d, fs.inodes;
    ghost var f;
    w, f := fs.Writei(inum, chunk, off);
    if w.Count? {
      LoggedOnly(fs.start, fs.calls, fs.d, fs.logged);
      assert {} + All(f) == All(f);
      WrittenInode(fs.sb, d1, inodes1, {}, fs.d, fs.inodes, fs.logged, f, inum, off, chunk);
      TransactionBound(fs.sb, d1, inodes1, {}, fs.d, fs.inodes, fs.logged, f, inum, off, chunk);
      if HoleFree(d1, inodes1[inum]) {
        TransactionFits(fs.sb, d1, inodes1, {}, fs.d, fs.inodes, fs.logged, f, inum, off, chunk);
        WrittenHoleFree(fs.sb, d1, inodes1, {}, fs.d, fs.inodes, fs.logged, f, inum, off, chunk, inum);
      }
    }
  }

  lemma WrittenMore(d0: Disk, inodes0: Inodes, d1: Disk, inodes1: Inodes, d2: Disk, inodes2: Inodes, i: nat, off: nat,
                    addr: seq<Byte>, tot: nat, m: nat)
    requires tot + m <= |addr| && off + tot + m <= MAXFILE * BSIZE
    requires FileWritten(d0, inodes0, d1, inodes1, i, off, addr[..tot])
    requires FileWritten(d1, inodes1, d2, inodes2, i, off + tot, addr[tot..tot + m])
    ensures FileWritten(d0, inodes0, d2, inodes2, i, off, addr[..tot + m])
  {
    hide Wrote, HoleFree;
    WroteAppend(d0, inodes0, d1, inodes1, d2, inodes2, i, off, addr, tot, m);
  }

  /** filewrite() has written i of n bytes: whole chunks, or everything. */
  predicate Chunked(i: nat, n: nat) { i == n || i % MAXWRITE == 0 }

  /** The chunk after the first i of n bytes is one that writei() refuses, on a file of this size. */
  predicate Refused(size: nat, off: nat, n: nat, i: nat) {
    && i < n && i % MAXWRITE == 0
    && (off > size || off + i + (if n - i > MAXWRITE then MAXWRITE else n - i) > MAXFILE * BSIZE)
  }

  lemma ChunksStart(n: nat)
    ensures Chunked(0, n) && Chunks(0) == 0
  {
  }

  /** The number of chunks in n bytes. */
  function Chunks(n: nat): (k: nat)
    ensures k == (n + 1535) / 1536
  {
    (n + MAXWRITE - 1) / MAXWRITE
  }

  lemma ChunksMore(i: nat, n: nat, m: nat)
    requires i < n && Chunked(i, n) && m == if n - i > MAXWRITE then MAXWRITE else n - i
    ensures Chunks(i + m) == Chunks(i) + 1
  {
    assert MAXWRITE == 1536;
  }

  ghost function Union(sets: seq<set<nat>>): set<nat> {
    if sets == [] then {} else Union(sets[..|sets| - 1]) + sets[|sets| - 1]
  }

  lemma NothingIn(d: Disk)
    ensures OnlyIn(d, d, Union([]))
  {
  }

  lemma OneMore(d0: Disk, d1: Disk, d2: Disk, txns: seq<set<nat>>, t: set<nat>)
    requires OnlyIn(d0, d1, Union(txns)) && OnlyIn(d1, d2, t)
    ensures OnlyIn(d0, d2, Union(txns + [t]))
  {
    assert (txns + [t])[..|txns|] == txns;
  }

  lemma ChunkStep(size: nat, off: nat, n: nat, i: nat, m: nat)
    requires i < n && Chunked(i, n) && m == if n - i > MAXWRITE then MAXWRITE else n - i
    ensures Chunked(i + m, n)
    ensures Grown(size, off, i) < off + i || off + i + m > MAXFILE * BSIZE ==> Refused(size, off, n, i)
  {
    assert MAXWRITE == 1536;
    NextMultiple(i);
  }

  lemma NextMultiple(i: nat)
    ensures i % 1536 == 0 ==> (i + 1536) % 1536 == 0
  {
  }

  /**
   * filewrite() on an inode, from file offset off0, alone on that file.  Returns how far it got, the
   * new f->off, and the blocks each transaction logged.  A device's own result ends it.
   */
  method Filewrite(fs: Fs, inum: nat, addr: seq<Byte>, off0: nat)
      returns (r: IoResult, off: nat, ghost txns: seq<set<nat>>)
    requires fs.Valid() && inum in fs.inodes && off0 < WORD_LIMIT && |addr| < 0x8000_0000
    modifies fs
    ensures forall t | t in txns :: |t| <= if HoleFree(old(fs.d), old(fs.inodes)[inum]) then 10 else 11
    ensures r != Panic ==>
              && fs.Valid() && off0 <= off <= off0 + |addr|
              && FileWritten(old(fs.d), old(fs.inodes), fs.d, fs.inodes, inum, off0, addr[..off - off0])
    ensures r != Panic ==> |txns| == (off - off0 + 1535) / 1536 && OnlyIn(old(fs.d), fs.d, Union(txns))
    ensures r == Count(|addr|) || r == Fail || r == Device || r == Panic
    ensures r == Device <==> old(fs.IsDevice(inum)) && |addr| > 0
    ensures r == Device ==> off == off0 && fs.d == old(fs.d) && fs.inodes == old(fs.inodes)
    ensures r == Panic ==> DiskFull(fs.sb, fs.d)
    ensures r.Count? ==> off == off0 + |addr|
    ensures r == Fail ==> off < off0 + |addr| && Refused(old(fs.inodes)[inum].size, off0, |addr|, off - off0)
  {
    hide FsInv, FileWritten, TxnBudget, HoleFree, DiskFull, NoRoom, Traced, Inside, Chunked, Refused, Chunks, OnlyIn,
         Union;
    ChunksStart(|addr|);
    NothingIn(fs.d);
    ghost var d0, inodes0, budget := fs.d, fs.inodes, TxnBudget(fs.d, fs.inodes[inum]);
    BudgetIs(d0, inodes0[inum]);
    InvShape(fs.sb, d0, inodes0, fs.owner);
    WroteNothing(d0, inodes0, inum, off0, addr);
    off, txns := off0, [];
    var n, i := |addr|, 0;
    while i < n
      invariant 0 <= i <= n && off == off0 + i && Chunked(i, n)
      invariant fs.Valid() && FileWritten(d0, inodes0, fs.d, fs.inodes, inum, off0, addr[..i])
      invariant i > 0 ==> off <= MAXFILE * BSIZE && off0 <= inodes0[inum].size && !old(fs.IsDevice(inum))
      invariant i == 0 ==> fs.d == d0 && fs.inodes == inodes0
      invariant forall t | t in txns :: |t| <= budget
      invariant |txns| == Chunks(i) && OnlyIn(d0, fs.d, Union(txns))
    {
      var n1 := if n - i > MAXWRITE then MAXWRITE else n - i;
      ghost var d1, inodes1 := fs.d, fs.inodes;
      FileWrittenParts(d0, inodes0, d1, inodes1, inum, off0, addr[..i]);
      var w := Transaction(fs, inum, addr[i..i + n1], off);
      ChunkStep(inodes0[inum].size, off0, n, i, n1);
      if !w.Count? { return w, off, txns; }
      WrittenMore(d0, inodes0, d1, inodes1, fs.d, fs.inodes, inum, off0, addr, i, n1);
      OneMore(d0, d1, fs.d, txns, fs.logged);
      ChunksMore(i, n, n1);
      txns := txns + [fs.logged];
      off := off + n1;
      i := i + n1;
    }
    r := Count(n);
  }
}
