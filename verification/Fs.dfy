/**
 * fs.c as a program over the blocks that bread() shows inside a transaction.  A panic is a halt:
 * the method then returns None and promises nothing about the state.
 */
module FsProgram {
  import opened Wrappers
  import opened Blocks
  import opened FsLayout
  import opened FsBytes
  import opened FsOwnership
  import opened LogCalls
  import opened Ranges

  /** The count that readi() and writei() return, their -1, a device's own result, or a panic below them. */
  datatype IoResult = Count(n: nat) | Fail | Device | Panic

  const T_DEV: nat := 3

  /** The blocks after balloc() has taken b. */
  function Allocated(sb: Super, d: Disk, b: nat): (e: Disk)
    requires ValidDisk(sb, d) && b < sb.size
    ensures |e| == |d|
  {
    Marked(sb, d, b, true)[b := ZeroBlock()]
  }

  /** No block is left for balloc(). */
  ghost predicate DiskFull(sb: Super, d: Disk) {
    ValidDisk(sb, d) && forall x: nat | x < sb.size :: Bit(sb, d, x)
  }

  lemma AllocatedBits(sb: Super, d: Disk, b: nat)
    requires ValidDisk(sb, d) && DataStart(sb) <= b < sb.size
    ensures forall x: nat | x < sb.size :: Bit(sb, Allocated(sb, d, b), x) == (x == b || Bit(sb, d, x))
  {
    hide BitOf, MarkedBlock;
    MarkedBits(sb, d, b, true);
    forall x: nat | x < sb.size ensures Bit(sb, Allocated(sb, d, b), x) == Bit(sb, Marked(sb, d, b, true), x) {
      assert BBlock(sb, x) < DataStart(sb);
    }
  }

  /** balloc() never hands out a metadata block or a block in use, and disturbs no file. */
  lemma BallocKeeps(sb: Super, d: Disk, inodes: Inodes, owner: map<nat, Owner>, b: nat)
    requires FsInv(sb, d, inodes, owner) && b < sb.size && !Bit(sb, d, b)
    ensures DataStart(sb) <= b && b !in owner
    ensures var e := Allocated(sb, d, b);
            && Owns(sb, e, inodes, owner) && SameFiles(d, inodes, e, inodes) && SameAddrs(d, e, inodes)
            && Marks(sb, e, owner.Keys + {b}) && SameTable(sb, d, e)
            && e[b] == ZeroBlock()
  {
    hide SameFiles, SameAddrs, PointersRecorded, Bit, ZeroBlock, MarkedBlock;
    AllocatedBits(sb, d, b);
    assert forall x | x in owner :: x != BBlock(sb, b) && x != b;
    ChangeUnowned(sb, d, inodes, owner, Allocated(sb, d, b));
  }

  /** Pointer k is b now; the other pointers are as before. */
  ghost predicate OneSlot(d: Disk, ino: Ino, e: Disk, jno: Ino, k: nat, b: nat) {
    && |ino.addrs| == |jno.addrs| == NDIRECT + 1
    && forall l: nat | l < SLOTS :: Addr(e, jno, l) == if l == k then b else Addr(d, ino, l)
  }

  /** balloc(), then storing the address in a pointer of the inode. */
  lemma AllocIntoInode(sb: Super, d: Disk, inodes: Inodes, owner: map<nat, Owner>, i: nat, k: nat, b: nat)
    requires FsInv(sb, d, inodes, owner) && b < sb.size && !Bit(sb, d, b)
    requires i in inodes && k <= NDIRECT && Addr(d, inodes[i], k) == 0
    ensures var e := Allocated(sb, d, b);
            var jnodes := inodes[i := inodes[i].(addrs := inodes[i].addrs[k := b])];
            && DataStart(sb) <= b && b !in owner
            && FsInv(sb, e, jnodes, owner[b := Owner(i, k)])
            && SameFiles(d, inodes, e, jnodes) && PointersKept(d, inodes, e, jnodes) && SameTable(sb, d, e)
            && OneSlot(d, inodes[i], e, jnodes[i], k, b)
            && (k == NDIRECT ==> forall l: nat | NDIRECT < l < SLOTS :: Addr(e, jnodes[i], l) == 0)
  {
    hide ByteAt, PointersRecorded, RecordsTrue, Bit, ZeroBlock, MarkedBlock, Word, Allocated;
    var e := Allocated(sb, d, b);
    var jnodes := inodes[i := inodes[i].(addrs := inodes[i].addrs[k := b])];
    BallocKeeps(sb, d, inodes, owner, b);
    LinkInInode(sb, e, inodes, owner, i, k, b);
    LinkAddrs(e, inodes[i], jnodes[i], k, b);
    assert (owner[b := Owner(i, k)]).Keys == owner.Keys + {b};
    if k == NDIRECT {
      forall l: nat | NDIRECT < l < SLOTS ensures Addr(e, jnodes[i], l) == 0 {
        ZeroBlockWords(l - NDIRECT - 1);
      }
    }
  }

  /** balloc(), then storing the address in the indirect block. */
  lemma AllocIntoIndirect(sb: Super, d: Disk, inodes: Inodes, owner: map<nat, Owner>, i: nat, k: nat, b: nat)
    requires FsInv(sb, d, inodes, owner) && b < sb.size && !Bit(sb, d, b)
    requires i in inodes && NDIRECT < k < SLOTS && Addr(d, inodes[i], k) == 0 && inodes[i].addrs[NDIRECT] != 0
    ensures var e := Allocated(sb, d, b);
            var ind := inodes[i].addrs[NDIRECT];
            var f := e[ind := SetWord(e[ind], k - NDIRECT - 1, b)];
            && DataStart(sb) <= b && b !in owner && DataStart(sb) <= ind < sb.size && e[ind] == d[ind]
            && FsInv(sb, f, inodes, owner[b := Owner(i, k)])
            && SameFiles(d, inodes, f, inodes) && PointersKept(d, inodes, f, inodes) && SameTable(sb, d, f)
            && OneSlot(d, inodes[i], f, inodes[i], k, b)
  {
    hide Owns, Marks, Bit, Addr, ZeroBlock, MarkedBlock, Word, SetWord, Allocated, SameFiles, PointersKept, SameAddrs,
         SameTable;
    InvShape(sb, d, inodes, owner);
    BallocKeeps(sb, d, inodes, owner, b);
    IndirectShape(sb, d, inodes, owner, i, k, b);
    var e := Allocated(sb, d, b);
    var ind := inodes[i].addrs[NDIRECT];
    var f := e[ind := SetWord(e[ind], k - NDIRECT - 1, b)];
    LinkInIndirect(sb, e, inodes, owner, i, k, b);
    IndirectEntry(sb, e, inodes, owner, i, k, b);
    assert (owner[b := Owner(i, k)]).Keys == owner.Keys + {b};
    IndirectBitmap(sb, d, e, ind, f[ind], owner.Keys + {b});
    AllocatedThen(d, inodes, e, f);
    IndirectSlot(d, e, f, inodes, i, k, b);
  }

  lemma IndirectSlot(d: Disk, e: Disk, f: Disk, inodes: Inodes, i: nat, k: nat, b: nat)
    requires SameAddrs(d, e, inodes) && i in inodes && k < SLOTS && Addr(f, inodes[i], k) == b
    requires forall j, l: nat | j in inodes && l < SLOTS && !(j == i && l == k) ::
               Addr(f, inodes[j], l) == Addr(e, inodes[j], l)
    ensures OneSlot(d, inodes[i], f, inodes[i], k, b)
  {
    hide Addr;
  }

  lemma IndirectShape(sb: Super, d: Disk, inodes: Inodes, owner: map<nat, Owner>, i: nat, k: nat, b: nat)
    requires FsInv(sb, d, inodes, owner) && DataStart(sb) <= b < sb.size && b !in owner
    requires i in inodes && NDIRECT < k < SLOTS && inodes[i].addrs[NDIRECT] != 0
    ensures var e, ind := Allocated(sb, d, b), inodes[i].addrs[NDIRECT];
            && |e| == |d| && DataStart(sb) <= ind < sb.size <= |d| && e[ind] == d[ind] && 0 < b
            && (SameAddrs(d, e, inodes) ==> Addr(e, inodes[i], k) == Addr(d, inodes[i], k))
  {
    hide Word, MarkedBlock, Marks;
    assert Addr(d, inodes[i], NDIRECT) == inodes[i].addrs[NDIRECT];
  }

  lemma IndirectBitmap(sb: Super, d: Disk, e: Disk, ind: nat, x: Block, used: set<nat>)
    requires ValidDisk(sb, e) && Marks(sb, e, used) && SameTable(sb, d, e) && DataStart(sb) <= ind < |e|
    ensures Marks(sb, e[ind := x], used) && SameTable(sb, d, e[ind := x])
  {
    hide Marks, Bit;
    SameBitmap(sb, e, e[ind := x], used);
  }

  lemma AllocatedThen(d: Disk, inodes: Inodes, e: Disk, f: Disk)
    requires SameFiles(d, inodes, e, inodes) && SameAddrs(d, e, inodes)
    requires SameFiles(e, inodes, f, inodes) && PointersKept(e, inodes, f, inodes)
    ensures SameFiles(d, inodes, f, inodes) && PointersKept(d, inodes, f, inodes)
  {
    hide Addr, ByteAt;
  }

  lemma PointerInRange(sb: Super, d: Disk, inodes: Inodes, owner: map<nat, Owner>, i: nat, k: nat)
    requires FsInv(sb, d, inodes, owner) && i in inodes && k < SLOTS && Addr(d, inodes[i], k) != 0
    ensures DataStart(sb) <= Addr(d, inodes[i], k) < sb.size
    ensures SameFiles(d, inodes, d, inodes) && PointersKept(d, inodes, d, inodes)
  {
  }

  /** The bytes [off, off + |bytes|) of file i have been replaced, and nothing else. */
  ghost predicate Wrote(d: Disk, inodes: Inodes, e: Disk, jnodes: Inodes, i: nat, off: nat, bytes: seq<Byte>) {
    && WellShaped(inodes) && WellShaped(jnodes) && inodes.Keys == jnodes.Keys
    && forall j, o: nat {:trigger ByteAt(e, jnodes[j], o)} | j in inodes && o < MAXFILE * BSIZE ::
         ByteAt(e, jnodes[j], o) ==
           if j == i && off <= o < off + |bytes| then bytes[o - off] else ByteAt(d, inodes[j], o)
  }

  lemma DataBlockAddrs(sb: Super, d: Disk, inodes: Inodes, owner: map<nat, Owner>, i: nat, k: nat, data: Block)
    requires Owns(sb, d, inodes, owner) && i in inodes && k < SLOTS && k != NDIRECT && Addr(d, inodes[i], k) != 0
    ensures DataStart(sb) <= Addr(d, inodes[i], k) < sb.size
    ensures var e := d[Addr(d, inodes[i], k) := data];
            SameAddrs(d, e, inodes) && Owns(sb, e, inodes, owner)
  {
    var a := Addr(d, inodes[i], k);
    var e := d[a := data];
    assert owner[a] == Owner(i, k);
    forall j, l: nat | j in inodes && l < SLOTS
      ensures Addr(e, inodes[j], l) == Addr(d, inodes[j], l)
    {
      assert Addr(d, inodes[j], NDIRECT) == inodes[j].addrs[NDIRECT];
      AddrFrame(d, e, inodes[j], l);
    }
  }

  /** The bytes of block bn of file i are now data; all other bytes of all files are as before. */
  ghost predicate BlockReplaced(d: Disk, e: Disk, inodes: Inodes, i: nat, bn: nat, data: Block) {
    && WellShaped(inodes)
    && forall j, o: nat {:trigger ByteAt(e, inodes[j], o)} | j in inodes && o < MAXFILE * BSIZE ::
         ByteAt(e, inodes[j], o) == if j == i && o / BSIZE == bn then data[o % BSIZE] else ByteAt(d, inodes[j], o)
  }

  /** Overwriting the block behind a data pointer changes the bytes of that file block only. */
  lemma WriteDataBlock(sb: Super, d: Disk, inodes: Inodes, owner: map<nat, Owner>, i: nat, bn: nat, data: Block)
    requires FsInv(sb, d, inodes, owner) && i in inodes && bn < MAXFILE
    requires Addr(d, inodes[i], DataSlot(bn)) != 0
    ensures DataStart(sb) <= Addr(d, inodes[i], DataSlot(bn)) < sb.size
    ensures var e := d[Addr(d, inodes[i], DataSlot(bn)) := data];
            && FsInv(sb, e, inodes, owner) && SameAddrs(d, e, inodes) && SameTable(sb, d, e)
            && BlockReplaced(d, e, inodes, i, bn, data)
  {
    hide Addr, PointersRecorded, RecordsTrue, Marks;
    DataBlockAddrs(sb, d, inodes, owner, i, DataSlot(bn), data);
    var a := Addr(d, inodes[i], DataSlot(bn));
    var e := d[a := data];
    SameBitmap(sb, d, e, owner.Keys);
    forall j, o: nat {:trigger ByteAt(e, inodes[j], o)} | j in inodes && o < MAXFILE * BSIZE
      ensures ByteAt(e, inodes[j], o) == if j == i && o / BSIZE == bn then data[o % BSIZE] else ByteAt(d, inodes[j], o)
    {
      var s := DataSlot(o / BSIZE);
      assert Addr(e, inodes[j], s) == Addr(d, inodes[j], s);
      if Addr(d, inodes[j], s) == a {
        UniqueOwner(sb, d, inodes, owner, i, DataSlot(bn), j, s);
      }
    }
  }

  /** memmove(b + at, s, |s|) */
  function Splice(b: Block, at: nat, s: seq<Byte>): (r: Block)
    requires at + |s| <= BSIZE
    ensures forall k | 0 <= k < BSIZE :: r[k] == if at <= k < at + |s| then s[k - at] else b[k]
  {
    b[..at] + s + b[at + |s|..]
  }

  /** bmap() and then the copy into the block: exactly the bytes of the chunk are replaced. */
  lemma WroteBlock(d1: Disk, inodes1: Inodes, d2: Disk, inodes2: Inodes, e: Disk, i: nat, off: nat, chunk: seq<Byte>)
    requires 0 < |chunk| && off % BSIZE + |chunk| <= BSIZE && off + |chunk| <= MAXFILE * BSIZE && i in inodes1
    requires SameFiles(d1, inodes1, d2, inodes2)
    requires 0 < Addr(d2, inodes2[i], DataSlot(off / BSIZE)) < |d2|
    requires BlockReplaced(d2, e, inodes2, i, off / BSIZE,
                           Splice(d2[Addr(d2, inodes2[i], DataSlot(off / BSIZE))], off % BSIZE, chunk))
    ensures Wrote(d1, inodes1, e, inodes2, i, off, chunk)
  {
    hide Addr, Splice;
    forall j, o: nat {:trigger ByteAt(e, inodes2[j], o)} | j in inodes1 && o < MAXFILE * BSIZE
      ensures ByteAt(e, inodes2[j], o) ==
                if j == i && off <= o < off + |chunk| then chunk[o - off] else ByteAt(d1, inodes1[j], o)
    {
      assert ByteAt(d2, inodes2[j], o) == ByteAt(d1, inodes1[j], o);
      if j == i && o / BSIZE == off / BSIZE {
        assert o - off == o % BSIZE - off % BSIZE;
        assert ByteAt(d2, inodes2[j], o) == d2[Addr(d2, inodes2[i], DataSlot(off / BSIZE))][o % BSIZE];
      }
    }
  }

  /** Consecutive writes add up. */
  lemma WroteMore(d0: Disk, inodes0: Inodes, d1: Disk, inodes1: Inodes, d2: Disk, inodes2: Inodes, i: nat, off: nat,
                  src: seq<Byte>, tot: nat, m: nat)
    requires tot + m <= |src| && off + |src| <= MAXFILE * BSIZE
    requires Wrote(d0, inodes0, d1, inodes1, i, off, src[..tot])
    requires Wrote(d1, inodes1, d2, inodes2, i, off + tot, src[tot..tot + m])
    ensures Wrote(d0, inodes0, d2, inodes2, i, off, src[..tot + m])
  {
    hide ByteAt;
    forall j, o: nat {:trigger ByteAt(d2, inodes2[j], o)} | j in inodes0 && o < MAXFILE * BSIZE
      ensures ByteAt(d2, inodes2[j], o) ==
                if j == i && off <= o < off + tot + m then src[..tot + m][o - off] else ByteAt(d0, inodes0[j], o)
    {
      assert ByteAt(d1, inodes1[j], o) ==
               if j == i && off <= o < off + tot then src[..tot][o - off] else ByteAt(d0, inodes0[j], o);
    }
  }

  /** Number of blocks the byte range [off, off + n) touches. */
  function Touched(off: nat, n: nat): nat { if n == 0 then 0 else (off + n - 1) / BSIZE - off / BSIZE + 1 }

  /** Number of blocks lo..hi-1 of the file that are not allocated. */
  ghost function Absent(d: Disk, ino: Ino, lo: nat, hi: nat): nat
    requires lo <= hi <= MAXFILE && |ino.addrs| == NDIRECT + 1
  {
    if lo == hi then 0
    else Absent(d, ino, lo, hi - 1) + if Addr(d, ino, DataSlot(hi - 1)) == 0 then 1 else 0
  }

  /** The blocks that bmap() takes for block bn: none, the block, or the indirect block and the block. */
  ghost function BmapNeeds(d: Disk, ino: Ino, bn: nat): nat
    requires bn < MAXFILE && |ino.addrs| == NDIRECT + 1
  {
    if Addr(d, ino, DataSlot(bn)) != 0 then 0 else if bn < NDIRECT || ino.addrs[NDIRECT] != 0 then 1 else 2
  }

  /** The blocks that writing blocks lo..hi-1 takes: those absent, and the indirect block if need be. */
  ghost function Needs(d: Disk, ino: Ino, lo: nat, hi: nat): nat
    requires lo <= hi <= MAXFILE && |ino.addrs| == NDIRECT + 1
  {
    Absent(d, ino, lo, hi) + if lo < hi && hi > NDIRECT && ino.addrs[NDIRECT] == 0 then 1 else 0
  }

  lemma {:induction false} NeedsMore(d: Disk, ino: Ino, lo: nat, mid: nat, hi: nat)
    requires lo <= mid <= hi <= MAXFILE && |ino.addrs| == NDIRECT + 1
    ensures Needs(d, ino, lo, mid) <= Needs(d, ino, lo, hi)
  {
    hide Addr;
    if mid < hi {
      NeedsMore(d, ino, lo, mid, hi - 1);
    }
  }

  /** The blocks that the bitmap shows as free. */
  ghost function FreeBlocks(sb: Super, d: Disk): set<nat>
    requires ValidDisk(sb, d)
  {
    set b: nat | b < sb.size && !Bit(sb, d, b) :: b
  }

  /** Data blocks are free or owned. */
  lemma RoomLeft(sb: Super, d: Disk, inodes: Inodes, owner: map<nat, Owner>)
    requires FsInv(sb, d, inodes, owner)
    ensures |FreeBlocks(sb, d)| + |owner| == sb.size - DataStart(sb)
    ensures DiskFull(sb, d) ==> FreeBlocks(sb, d) == {}
  {
    hide Addr, PointersRecorded, Bit;
    assert forall b | b in owner.Keys :: DataStart(sb) <= b < sb.size;
    FreeOrUsed(sb, d, owner.Keys);
    assert |owner| == |owner.Keys|;
  }

  lemma FreeOrUsed(sb: Super, d: Disk, used: set<nat>)
    requires ValidDisk(sb, d) && Marks(sb, d, used) && forall b | b in used :: DataStart(sb) <= b < sb.size
    ensures |FreeBlocks(sb, d)| + |used| == sb.size - DataStart(sb)
  {
    hide Bit, Range;
    RangeCard(DataStart(sb), sb.size);
    assert FreeBlocks(sb, d) + used == Range(DataStart(sb), sb.size);
    assert FreeBlocks(sb, d) !! used;
  }

  /** The pointers of blocks bn and up are as before. */
  ghost predicate LaterSlots(d: Disk, ino: Ino, e: Disk, jno: Ino, bn: nat) {
    && |ino.addrs| == |jno.addrs| == NDIRECT + 1
    && forall n: nat | bn <= n < MAXFILE :: Addr(e, jno, DataSlot(n)) == Addr(d, ino, DataSlot(n))
  }

  /** One more round of writei()'s loop: bmap() takes what the count says. */
  lemma NeedsStep(d0: Disk, ino0: Ino, d: Disk, ino: Ino, lo: nat, bn: nat)
    requires lo <= bn < MAXFILE && LaterSlots(d0, ino0, d, ino, bn)
    requires Filled(d, ino, lo, bn) && OnlyTouched(ino0, ino, lo, bn)
    requires ino0.addrs[NDIRECT] != 0 ==> ino.addrs[NDIRECT] != 0
    ensures Needs(d0, ino0, lo, bn + 1) == Needs(d0, ino0, lo, bn) + BmapNeeds(d, ino, bn)
  {
    if lo < bn && bn > NDIRECT {
      assert Addr(d, ino, DataSlot(bn - 1)) != 0;
    }
  }

  /** bmap() of a direct block has set that pointer only. */
  lemma DirectDone(d: Disk, ino: Ino, e: Disk, jno: Ino, bn: nat, b: nat)
    requires bn < NDIRECT && OneSlot(d, ino, e, jno, bn, b)
    ensures LaterSlots(d, ino, e, jno, bn + 1) && OnlyTouched(ino, jno, bn, bn + 1)
    ensures jno.addrs[NDIRECT] == ino.addrs[NDIRECT] && Addr(e, jno, DataSlot(bn)) == b
    ensures BmapNeeds(d, ino, bn) == if ino.addrs[bn] == 0 then 1 else 0
    ensures Addr(d, ino, DataSlot(bn)) == ino.addrs[bn]
  {
    forall k: nat | k <= NDIRECT && k != bn ensures jno.addrs[k] == ino.addrs[k] {
      assert Addr(e, jno, k) == Addr(d, ino, k);
    }
  }

  /** bmap() through the indirect block has set the pointer to that block and then an entry of it. */
  lemma IndirectDone(d: Disk, ino: Ino, d1: Disk, ino1: Ino, e: Disk, jno: Ino, bn: nat, ind: nat, b: nat)
    requires NDIRECT <= bn < MAXFILE
    requires OneSlot(d, ino, d1, ino1, NDIRECT, ind) && OneSlot(d1, ino1, e, jno, bn + 1, b)
    ensures LaterSlots(d, ino, e, jno, bn + 1) && OnlyTouched(ino, jno, bn, bn + 1)
    ensures jno.addrs[NDIRECT] == ind && Addr(e, jno, DataSlot(bn)) == b
  {
    forall k: nat | k < NDIRECT ensures jno.addrs[k] == ino.addrs[k] {
      assert Addr(e, jno, k) == Addr(d1, ino1, k) == Addr(d, ino, k);
    }
    assert Addr(e, jno, NDIRECT) == Addr(d1, ino1, NDIRECT) == ind;
    forall n: nat | bn + 1 <= n < MAXFILE ensures Addr(e, jno, DataSlot(n)) == Addr(d, ino, DataSlot(n)) {
      assert Addr(e, jno, n + 1) == Addr(d1, ino1, n + 1) == Addr(d, ino, n + 1);
    }
  }

  lemma IndirectNeeds(d: Disk, ino: Ino, d1: Disk, ino1: Ino, bn: nat, ind: nat)
    requires NDIRECT <= bn < MAXFILE && OneSlot(d, ino, d1, ino1, NDIRECT, ind)
    ensures ino1.addrs[NDIRECT] == ind && Addr(d1, ino1, bn + 1) == Addr(d, ino, DataSlot(bn))
    ensures ino.addrs[NDIRECT] == 0 ==> Addr(d, ino, DataSlot(bn)) == 0
    ensures BmapNeeds(d, ino, bn) ==
            (if ino.addrs[NDIRECT] == 0 then 1 else 0) + if Addr(d1, ino1, bn + 1) == 0 then 1 else 0
  {
    assert Addr(d1, ino1, NDIRECT) == ind;
    assert Addr(d1, ino1, bn + 1) == Addr(d, ino, bn + 1);
  }

  lemma IndirectWord(d: Disk, ino: Ino, n: nat)
    requires |ino.addrs| == NDIRECT + 1 && 0 < ino.addrs[NDIRECT] < |d| && n < NINDIRECT
    ensures Word(d[ino.addrs[NDIRECT]], n) == Addr(d, ino, n + NDIRECT + 1)
  {
  }

  lemma IndirectInRange(sb: Super, d: Disk, inodes: Inodes, owner: map<nat, Owner>, i: nat)
    requires FsInv(sb, d, inodes, owner) && i in inodes && inodes[i].addrs[NDIRECT] != 0
    ensures DataStart(sb) <= inodes[i].addrs[NDIRECT] < sb.size
  {
    PointerInRange(sb, d, inodes, owner, i, NDIRECT);
  }

  lemma SameSlots(d: Disk, ino: Ino, k: nat)
    requires |ino.addrs| == NDIRECT + 1 && k < SLOTS
    ensures OneSlot(d, ino, d, ino, k, Addr(d, ino, k)) && (k <= NDIRECT ==> Addr(d, ino, k) == ino.addrs[k])
  {
  }

  /** Writing a data block moves no pointer. */
  lemma SameAddrsKept(d0: Disk, inodes0: Inodes, d: Disk, inodes: Inodes, e: Disk, i: nat, bn: nat)
    requires SameAddrs(d, e, inodes) && PointersKept(d0, inodes0, d, inodes) && i in inodes && bn < MAXFILE
    requires LaterSlots(d0, inodes0[i], d, inodes[i], bn + 1)
    ensures PointersKept(d0, inodes0, e, inodes) && LaterSlots(d0, inodes0[i], e, inodes[i], bn + 1)
    ensures Addr(e, inodes[i], DataSlot(bn)) == Addr(d, inodes[i], DataSlot(bn))
  {
    hide Addr;
  }

  lemma LaterMore(d0: Disk, ino0: Ino, d: Disk, ino: Ino, e: Disk, jno: Ino, bn: nat)
    requires LaterSlots(d0, ino0, d, ino, bn) && LaterSlots(d, ino, e, jno, bn + 1)
    ensures LaterSlots(d0, ino0, e, jno, bn + 1)
  {
    hide Addr;
  }

  /** Every block below the file's size is allocated. */
  ghost predicate HoleFree(d: Disk, ino: Ino) {
    && |ino.addrs| == NDIRECT + 1 && ino.size <= MAXFILE * BSIZE
    && forall bn: nat | bn * BSIZE < ino.size && bn < MAXFILE :: Addr(d, ino, DataSlot(bn)) != 0
  }

  lemma UnionCard<T>(a: set<T>, b: set<T>)
    ensures |a + b| <= |a| + |b|
  {
    assert a + b == a + (b - a);
    assert b == (b - a) + (b * a);
  }

  /** Who a transaction logs: data blocks, bitmap blocks, at most one indirect block, at most one inode block. */
  datatype Footprint = Footprint(data: set<nat>, maps: set<nat>, inds: set<nat>, inos: set<nat>)

  ghost function All(f: Footprint): set<nat> { f.data + f.maps + f.inds + f.inos }

  /**
   * What writing blocks lo..hi-1 may log when the file was (d0, ino0) at first and has its indirect
   * block at ind now: each block once, a bitmap block for each block that was absent and for the
   * indirect block if it was absent, and the indirect block.
   */
  ghost predicate Within(f: Footprint, d0: Disk, ino0: Ino, ind: nat, lo: nat, hi: nat)
    requires lo <= hi <= MAXFILE && |ino0.addrs| == NDIRECT + 1
  {
    && |f.data| <= hi - lo
    && |f.maps| <= Absent(d0, ino0, lo, hi) + (if ino0.addrs[NDIRECT] == 0 && ind != 0 then 1 else 0)
    && (f.inds == {} || (f.inds == {ind} && ind != 0))
    && f.inos == {}
  }

  /** What bmap() logs when it finds no block for bn: the block, the indirect block, the bitmap blocks. */
  ghost function BmapLogged(sb: Super, wasInd: nat, ind: nat, bn: nat, b: nat): set<nat> {
    {b, BBlock(sb, b)} + if bn < NDIRECT then {} else if wasInd != 0 then {ind} else {ind, BBlock(sb, ind)}
  }

  /** Blocks lo..hi-1 of the file are allocated. */
  ghost predicate Filled(d: Disk, ino: Ino, lo: nat, hi: nat) {
    |ino.addrs| == NDIRECT + 1 && forall bn: nat | lo <= bn < hi && bn < MAXFILE :: Addr(d, ino, DataSlot(bn)) != 0
  }

  /** Of the pointers in the inode only those for blocks lo..hi-1 may differ. */
  ghost predicate OnlyTouched(ino: Ino, jno: Ino, lo: nat, hi: nat) {
    && |ino.addrs| == |jno.addrs| == NDIRECT + 1
    && (forall k: nat | k < NDIRECT && !(lo <= k < hi) :: jno.addrs[k] == ino.addrs[k])
    && (hi <= NDIRECT || hi <= lo ==> jno.addrs[NDIRECT] == ino.addrs[NDIRECT])
  }

  /** The effect of one round of writei()'s loop, with b the block it wrote. */
  ghost predicate BlockWritten(sb: Super, d: Disk, inodes: Inodes, logged: set<nat>, e: Disk, jnodes: Inodes,
                               logged': set<nat>, i: nat, off: nat, chunk: seq<Byte>, b: nat)
    requires off / BSIZE < MAXFILE
  {
    var bn := off / BSIZE;
    && i in inodes && i in jnodes && WellShaped(inodes) && WellShaped(jnodes)
    && jnodes == inodes[i := inodes[i].(addrs := jnodes[i].addrs)]
    && PointersKept(d, inodes, e, jnodes) && SameTable(sb, d, e)
    && Wrote(d, inodes, e, jnodes, i, off, chunk)
    && OnlyTouched(inodes[i], jnodes[i], bn, bn + 1)
    && Addr(e, jnodes[i], DataSlot(bn)) == b && b != 0
    && (var wasInd, ind := inodes[i].addrs[NDIRECT], jnodes[i].addrs[NDIRECT];
        if Addr(d, inodes[i], DataSlot(bn)) != 0 then
          logged' == logged + {b} && jnodes == inodes
        else
          && logged' == logged + {b} + BmapLogged(sb, wasInd, ind, bn, b)
          && (bn < NDIRECT ==> ind == wasInd) && (bn >= NDIRECT ==> ind != 0))
  }

  /** Where writei()'s loop stands after tot bytes. */
  ghost predicate Progress(sb: Super, d0: Disk, inodes0: Inodes, logged0: set<nat>, d: Disk, inodes: Inodes,
                           logged: set<nat>, f: Footprint, i: nat, off0: nat, src: seq<Byte>, tot: nat)
  {
    && tot <= |src| && off0 + |src| <= MAXFILE * BSIZE
    && i in inodes0 && i in inodes && WellShaped(inodes0) && WellShaped(inodes)
    && inodes == inodes0[i := inodes0[i].(addrs := inodes[i].addrs)]
    && Wrote(d0, inodes0, d, inodes, i, off0, src[..tot])
    && PointersKept(d0, inodes0, d, inodes) && SameTable(sb, d0, d)
    && (var lo, hi := off0 / BSIZE, off0 / BSIZE + Touched(off0, tot);
        && lo <= hi <= MAXFILE
        && Filled(d, inodes[i], lo, hi) && OnlyTouched(inodes0[i], inodes[i], lo, hi)
        && logged == logged0 + All(f)
        && Within(f, d0, inodes0[i], inodes[i].addrs[NDIRECT], lo, hi))
  }

  lemma InvShape(sb: Super, d: Disk, inodes: Inodes, owner: map<nat, Owner>)
    requires FsInv(sb, d, inodes, owner)
    ensures WellShaped(inodes) && ValidDisk(sb, d)
  {
  }

  lemma ProgressStart(sb: Super, d0: Disk, inodes0: Inodes, logged0: set<nat>, i: nat, off0: nat, src: seq<Byte>)
    requires WellShaped(inodes0) && i in inodes0 && off0 + |src| <= MAXFILE * BSIZE
    ensures Progress(sb, d0, inodes0, logged0, d0, inodes0, logged0, Footprint({}, {}, {}, {}), i, off0, src, 0)
  {
  }

  function StepFootprint(sb: Super, f: Footprint, wasInd: nat, ind: nat, bn: nat, b: nat, absent: bool): Footprint {
    var more := if !absent then {}
                else if bn < NDIRECT then {BBlock(sb, b)}
                else if wasInd != 0 then {BBlock(sb, b)}
                else {BBlock(sb, b), BBlock(sb, ind)};
    var inds := if absent && bn >= NDIRECT then {ind} else {};
    Footprint(f.data + {b}, f.maps + more, f.inds + inds, {})
  }

  /** One more block: present, absent below the direct limit, or absent behind the indirect block. */
  lemma WithinMore(sb: Super, f: Footprint, d0: Disk, ino0: Ino, wasInd: nat, ind: nat, lo: nat, bn: nat, b: nat,
                   absent: bool)
    requires lo <= bn < MAXFILE && |ino0.addrs| == NDIRECT + 1
    requires Within(f, d0, ino0, wasInd, lo, bn)
    requires absent ==> Addr(d0, ino0, DataSlot(bn)) == 0
    requires wasInd != 0 ==> ind == wasInd
    requires !absent || bn < NDIRECT ==> ind == wasInd
    requires absent && bn >= NDIRECT ==> ind != 0
    requires wasInd == 0 ==> ino0.addrs[NDIRECT] == 0
    ensures Within(StepFootprint(sb, f, wasInd, ind, bn, b, absent), d0, ino0, ind, lo, bn + 1)
  {
    hide Addr, BBlock;
    AddCard(f.data, b, b);
    AddCard(f.maps, BBlock(sb, b), BBlock(sb, ind));
    assert f.maps + {} == f.maps && f.inds + {} == f.inds;
  }

  lemma AddCard(s: set<nat>, x: nat, y: nat)
    ensures |s + {x}| <= |s| + 1 && |s + {x, y}| <= |s| + 2
  {
    UnionCard(s, {x});
    UnionCard(s + {x}, {y});
    assert s + {x, y} == s + {x} + {y};
  }

  lemma StepLogged(sb: Super, f: Footprint, wasInd: nat, ind: nat, bn: nat, b: nat, absent: bool)
    requires f.inos == {}
    ensures All(StepFootprint(sb, f, wasInd, ind, bn, b, absent))
            == All(f) + {b} + if absent then BmapLogged(sb, wasInd, ind, bn, b) else {}
  {
  }

  lemma FilledMore(d: Disk, inodes: Inodes, e: Disk, jnodes: Inodes, i: nat, lo: nat, bn: nat)
    requires PointersKept(d, inodes, e, jnodes) && i in inodes && lo <= bn < MAXFILE
    requires Filled(d, inodes[i], lo, bn) && Addr(e, jnodes[i], DataSlot(bn)) != 0
    ensures Filled(e, jnodes[i], lo, bn + 1)
  {
    hide Addr;
  }

  /** Each round of the loop starts at a new block: the previous one ended at a block boundary. */
  lemma TouchedStep(off0: nat, tot: nat, m: nat)
    requires 0 < m && (off0 + tot) % BSIZE + m <= BSIZE
    requires tot == 0 || (off0 + tot) % BSIZE == 0
    ensures off0 / BSIZE + Touched(off0, tot) == (off0 + tot) / BSIZE
    ensures Touched(off0, tot + m) == Touched(off0, tot) + 1
  {
  }

  lemma ProgressStep(sb: Super, d0: Disk, inodes0: Inodes, logged0: set<nat>, f: Footprint, d: Disk, inodes: Inodes,
                     logged: set<nat>, e: Disk, jnodes: Inodes, logged': set<nat>, i: nat, off0: nat, src: seq<Byte>,
                     tot: nat, m: nat, b: nat)
    requires Progress(sb, d0, inodes0, logged0, d, inodes, logged, f, i, off0, src, tot)
    requires 0 < m && tot + m <= |src| && (off0 + tot) % BSIZE + m <= BSIZE
    requires tot == 0 || (off0 + tot) % BSIZE == 0
    requires BlockWritten(sb, d, inodes, logged, e, jnodes, logged', i, off0 + tot, src[tot..tot + m], b)
    ensures var bn := (off0 + tot) / BSIZE;
            var g := StepFootprint(sb, f, inodes[i].addrs[NDIRECT], jnodes[i].addrs[NDIRECT], bn, b,
                                   Addr(d, inodes[i], DataSlot(bn)) == 0);
            Progress(sb, d0, inodes0, logged0, e, jnodes, logged', g, i, off0, src, tot + m)
  {
    hide ByteAt, Wrote, Addr, PointersKept, Filled, Within, All, StepFootprint, BmapLogged;
    var bn := (off0 + tot) / BSIZE;
    var wasInd, ind := inodes[i].addrs[NDIRECT], jnodes[i].addrs[NDIRECT];
    var absent := Addr(d, inodes[i], DataSlot(bn)) == 0;
    TouchedStep(off0, tot, m);
    WroteMore(d0, inodes0, d, inodes, e, jnodes, i, off0, src, tot, m);
    PointersKeptTrans(d0, inodes0, d, inodes, e, jnodes);
    FilledMore(d, inodes, e, jnodes, i, off0 / BSIZE, bn);
    KeptSlot(d0, inodes0, d, inodes, i, DataSlot(bn));
    KeptSlot(d0, inodes0, d, inodes, i, NDIRECT);
    KeptSlot(d, inodes, e, jnodes, i, NDIRECT);
    WithinMore(sb, f, d0, inodes0[i], wasInd, ind, off0 / BSIZE, bn, b, absent);
    assert f.inos == {} by { NoInos(f, d0, inodes0[i], wasInd, off0 / BSIZE, bn); }
    StepLogged(sb, f, wasInd, ind, bn, b, absent);
    var x := if absent then BmapLogged(sb, wasInd, ind, bn, b) else {};
    assert logged' == logged0 + All(f) + {b} + x == logged0 + (All(f) + {b} + x);
    assert jnodes == inodes0[i := inodes0[i].(addrs := jnodes[i].addrs)];
  }

  lemma NoInos(f: Footprint, d0: Disk, ino0: Ino, ind: nat, lo: nat, hi: nat)
    requires lo <= hi <= MAXFILE && |ino0.addrs| == NDIRECT + 1 && Within(f, d0, ino0, ind, lo, hi)
    ensures f.inos == {}
  {
  }

  lemma KeptSlot(d: Disk, inodes: Inodes, e: Disk, jnodes: Inodes, i: nat, k: nat)
    requires PointersKept(d, inodes, e, jnodes) && i in inodes && k < SLOTS
    ensures Addr(d, inodes[i], k) != 0 ==> Addr(e, jnodes[i], k) == Addr(d, inodes[i], k)
    ensures Addr(d, inodes[i], NDIRECT) == inodes[i].addrs[NDIRECT]
    ensures Addr(e, jnodes[i], NDIRECT) == jnodes[i].addrs[NDIRECT]
  {
  }

  /** The blocks that writing n bytes at off takes. */
  ghost function WriteNeeds(d: Disk, ino: Ino, off: nat, n: nat): nat
    requires off + n <= MAXFILE * BSIZE && |ino.addrs| == NDIRECT + 1
  {
    Needs(d, ino, off / BSIZE, off / BSIZE + Touched(off, n))
  }

  /** The write is within bounds, but there are not enough free blocks for it. */
  ghost predicate NoRoom(sb: Super, d: Disk, ino: Ino, off: nat, n: nat) {
    && ValidDisk(sb, d) && |ino.addrs| == NDIRECT + 1
    && off <= ino.size && off + n <= MAXFILE * BSIZE
    && WriteNeeds(d, ino, off, n) > |FreeBlocks(sb, d)|
  }

  lemma NeedsNothing(d: Disk, ino: Ino, off: nat)
    requires off <= MAXFILE * BSIZE && |ino.addrs| == NDIRECT + 1
    ensures WriteNeeds(d, ino, off, 0) == 0 && LaterSlots(d, ino, d, ino, off / BSIZE + Touched(off, 0))
  {
  }

  /** What the next round of writei()'s loop takes. */
  lemma RoundNeeds(sb: Super, d0: Disk, inodes0: Inodes, logged0: set<nat>, d: Disk, inodes: Inodes, logged: set<nat>,
                   f: Footprint, i: nat, off0: nat, src: seq<Byte>, tot: nat, m: nat)
    requires Progress(sb, d0, inodes0, logged0, d, inodes, logged, f, i, off0, src, tot)
    requires 0 < m && tot + m <= |src| && (off0 + tot) % BSIZE + m <= BSIZE
    requires tot == 0 || (off0 + tot) % BSIZE == 0
    requires LaterSlots(d0, inodes0[i], d, inodes[i], off0 / BSIZE + Touched(off0, tot))
    ensures var bn := (off0 + tot) / BSIZE;
            && off0 / BSIZE + Touched(off0, tot) == bn && off0 / BSIZE + Touched(off0, tot + m) == bn + 1
            && bn + 1 <= off0 / BSIZE + Touched(off0, |src|) <= MAXFILE
            && WriteNeeds(d0, inodes0[i], off0, tot + m)
               == WriteNeeds(d0, inodes0[i], off0, tot) + BmapNeeds(d, inodes[i], bn)
            && WriteNeeds(d0, inodes0[i], off0, tot + m) <= WriteNeeds(d0, inodes0[i], off0, |src|)
  {
    hide ByteAt, Wrote, Addr, PointersKept, Filled, Within, All, LaterSlots, OnlyTouched, Needs, BmapNeeds;
    TouchedStep(off0, tot, m);
    KeptSlot(d0, inodes0, d, inodes, i, NDIRECT);
    NeedsStep(d0, inodes0[i], d, inodes[i], off0 / BSIZE, (off0 + tot) / BSIZE);
    NeedsMore(d0, inodes0[i], off0 / BSIZE, (off0 + tot) / BSIZE + 1, off0 / BSIZE + Touched(off0, |src|));
  }

  /** Changing the size of a file moves no pointer. */
  lemma Resized(sb: Super, d: Disk, inodes: Inodes, owner: map<nat, Owner>, i: nat, size: Word32)
    requires FsInv(sb, d, inodes, owner) && i in inodes
    ensures var jnodes := inodes[i := inodes[i].(size := size)];
            && FsInv(sb, d, jnodes, owner)
            && SameFiles(d, inodes, d, jnodes) && PointersKept(d, inodes, d, jnodes)
  {
    hide Marks;
    var jnodes := inodes[i := inodes[i].(size := size)];
    assert forall j, k: nat | j in inodes && k < SLOTS :: Addr(d, jnodes[j], k) == Addr(d, inodes[j], k);
    forall j, o: nat | j in inodes && o < MAXFILE * BSIZE
      ensures ByteAt(d, jnodes[j], o) == ByteAt(d, inodes[j], o)
    {
      assert Addr(d, jnodes[j], DataSlot(o / BSIZE)) == Addr(d, inodes[j], DataSlot(o / BSIZE));
    }
  }

  /** ip->size after a write of n bytes at off. */
  function Grown(size: nat, off: nat, n: nat): nat { if n > 0 && off + n > size then off + n else size }

  /**
   * What a completed writei() has done: the file's bytes and size, every other file as before, pointers
   * only filled in, the range allocated, the inode table changed only if the file grew, and what was logged.
   */
  ghost predicate Written(sb: Super, d0: Disk, inodes0: Inodes, logged0: set<nat>, d: Disk, inodes: Inodes,
                          logged: set<nat>, f: Footprint, i: nat, off: nat, src: seq<Byte>)
  {
    && ValidDisk(sb, d0) && ValidDisk(sb, d) && i < sb.ninodes
    && i in inodes0 && i in inodes && WellShaped(inodes0) && WellShaped(inodes)
    && (var size := Grown(inodes0[i].size, off, |src|);
        var lo, hi := off / BSIZE, off / BSIZE + Touched(off, |src|);
        && lo <= hi <= MAXFILE
        && inodes.Keys == inodes0.Keys && (forall j | j in inodes && j != i :: inodes[j] == inodes0[j])
        && inodes[i].size == size
        && inodes[i] == inodes0[i].(addrs := inodes[i].addrs, size := inodes[i].size)
        && Wrote(d0, inodes0, d, inodes, i, off, src)
        && PointersKept(d0, inodes0, d, inodes)
        && Filled(d, inodes[i], lo, hi) && OnlyTouched(inodes0[i], inodes[i], lo, hi)
        && (forall j: nat | j < sb.ninodes && j != i :: DIno(sb, d, j) == DIno(sb, d0, j))
        && DIno(sb, d, i) == (if size > inodes0[i].size then inodes[i] else DIno(sb, d0, i))
        && logged == logged0 + All(f)
        && f.inos == (if size > inodes0[i].size then {IBlock(sb, i)} else {})
        && Within(f.(inos := {}), d0, inodes0[i], inodes[i].addrs[NDIRECT], lo, hi))
  }

  lemma ProgressKeepsSize(sb: Super, d0: Disk, inodes0: Inodes, logged0: set<nat>, d: Disk, inodes: Inodes,
                          logged: set<nat>, f: Footprint, i: nat, off: nat, src: seq<Byte>, n: nat)
    requires n == |src| && Progress(sb, d0, inodes0, logged0, d, inodes, logged, f, i, off, src, n)
    ensures i in inodes0 && i in inodes && inodes[i].size == inodes0[i].size
  {
  }

  lemma SameTableTrans(sb: Super, d: Disk, e: Disk, f: Disk)
    requires SameTable(sb, d, e) && SameTable(sb, e, f)
    ensures SameTable(sb, d, f)
  {
  }

  lemma SameTableInodes(sb: Super, d: Disk, e: Disk)
    requires ValidDisk(sb, d) && SameTable(sb, d, e)
    ensures forall j: nat | j < sb.ninodes :: DIno(sb, e, j) == DIno(sb, d, j)
  {
    hide InoAt;
  }

  lemma WrittenInside(sb: Super, d0: Disk, inodes0: Inodes, logged0: set<nat>, d: Disk, inodes: Inodes,
                      logged: set<nat>, f: Footprint, i: nat, off: nat, src: seq<Byte>)
    requires ValidDisk(sb, d0) && i < sb.ninodes
    requires Progress(sb, d0, inodes0, logged0, d, inodes, logged, f, i, off, src, |src|)
    requires !(|src| > 0 && off + |src| > inodes[i].size)
    ensures Written(sb, d0, inodes0, logged0, d, inodes, logged, f, i, off, src)
  {
    hide Wrote, PointersKept, Filled, DIno, Within;
    SameTableInodes(sb, d0, d);
    NoInos(f, d0, inodes0[i], inodes[i].addrs[NDIRECT], off / BSIZE, off / BSIZE + Touched(off, |src|));
    assert src[..|src|] == src && f.(inos := {}) == f;
  }

  /** The loop is done; the size is set and iupdate() turned d1 into d. */
  lemma WrittenGrown(sb: Super, d0: Disk, inodes0: Inodes, logged0: set<nat>, d1: Disk, inodes1: Inodes,
                     logged1: set<nat>, f: Footprint, d: Disk, owner: map<nat, Owner>, i: nat, off: nat,
                     src: seq<Byte>)
    requires ValidDisk(sb, d0) && ValidDisk(sb, d) && i < sb.ninodes
    requires Progress(sb, d0, inodes0, logged0, d1, inodes1, logged1, f, i, off, src, |src|)
    requires FsInv(sb, d1, inodes1, owner) && |src| > 0 && off + |src| > inodes1[i].size
    requires var inodes := inodes1[i := inodes1[i].(size := off + |src|)];
             && SameFiles(d1, inodes, d, inodes) && PointersKept(d1, inodes, d, inodes)
             && DIno(sb, d, i) == inodes[i]
             && forall j: nat | j < sb.ninodes && j != i :: DIno(sb, d, j) == DIno(sb, d1, j)
    ensures var inodes := inodes1[i := inodes1[i].(size := off + |src|)];
            Written(sb, d0, inodes0, logged0, d, inodes, logged1 + {IBlock(sb, i)}, f.(inos := {IBlock(sb, i)}),
                    i, off, src)
  {
    hide ByteAt, Addr, DIno, Within, PointersRecorded, RecordsTrue, Marks;
    var inodes := inodes1[i := inodes1[i].(size := off + |src|)];
    Resized(sb, d1, inodes1, owner, i, off + |src|);
    SameFilesTrans(d1, inodes1, d1, inodes, d, inodes);
    PointersKeptTrans(d1, inodes1, d1, inodes, d, inodes);
    SameTableInodes(sb, d0, d1);
    NoInos(f, d0, inodes0[i], inodes1[i].addrs[NDIRECT], off / BSIZE, off / BSIZE + Touched(off, |src|));
    assert src[..|src|] == src && f.(inos := {}) == f;
    PointersKeptTrans(d0, inodes0, d1, inodes1, d, inodes);
  }

  lemma SameFilesRefl(sb: Super, d: Disk, inodes: Inodes, owner: map<nat, Owner>)
    requires FsInv(sb, d, inodes, owner)
    ensures SameFiles(d, inodes, d, inodes)
  {
  }

  /** dst holds the file's bytes from off on. */
  ghost predicate BytesFrom(d: Disk, ino: Ino, off: nat, dst: seq<Byte>) {
    && |ino.addrs| == NDIRECT + 1
    && forall k: nat | k < |dst| :: off + k < MAXFILE * BSIZE && dst[k] == ByteAt(d, ino, off + k)
  }

  lemma ReadMore(d: Disk, ino: Ino, off: nat, dst: seq<Byte>, chunk: seq<Byte>)
    requires BytesFrom(d, ino, off, dst) && BytesFrom(d, ino, off + |dst|, chunk)
    ensures BytesFrom(d, ino, off, dst + chunk)
  {
    hide ByteAt;
    forall k: nat | |dst| <= k < |dst + chunk|
      ensures off + k < MAXFILE * BSIZE && (dst + chunk)[k] == ByteAt(d, ino, off + k)
    {
      assert (dst + chunk)[k] == chunk[k - |dst|] && off + |dst| + (k - |dst|) == off + k;
    }
  }

  lemma ReadNothing(d: Disk, ino: Ino, off: nat)
    requires |ino.addrs| == NDIRECT + 1
    ensures BytesFrom(d, ino, off, [])
  {
  }

  lemma NoHoleAt(d: Disk, ino: Ino, o: nat)
    requires HoleFree(d, ino) && o < ino.size
    ensures |ino.addrs| == NDIRECT + 1 && o / BSIZE < MAXFILE && Addr(d, ino, DataSlot(o / BSIZE)) != 0
    ensures BmapNeeds(d, ino, o / BSIZE) == 0
  {
    hide Addr;
    assert o / BSIZE * BSIZE <= o;
  }

  lemma ReadChunk(d0: Disk, inodes0: Inodes, d: Disk, inodes: Inodes, i: nat, off: nat, m: nat, chunk: seq<Byte>)
    requires SameFiles(d0, inodes0, d, inodes) && i in inodes
    requires off / BSIZE < MAXFILE && off % BSIZE + m <= BSIZE
    requires var a := Addr(d, inodes[i], DataSlot(off / BSIZE));
             0 < a < |d| && chunk == d[a][off % BSIZE..off % BSIZE + m]
    ensures off + m <= MAXFILE * BSIZE && BytesFrom(d0, inodes0[i], off, chunk)
  {
    hide Addr;
    forall k: nat | k < m ensures chunk[k] == ByteAt(d0, inodes0[i], off + k) {
      assert (off + k) / BSIZE == off / BSIZE && (off + k) % BSIZE == off % BSIZE + k;
      assert ByteAt(d, inodes[i], off + k) == ByteAt(d0, inodes0[i], off + k);
    }
  }

  /** All files but i have the same bytes. */
  ghost predicate OthersSame(d: Disk, inodes: Inodes, e: Disk, jnodes: Inodes, i: nat) {
    && WellShaped(inodes) && WellShaped(jnodes) && inodes.Keys == jnodes.Keys
    && forall j, o: nat | j in inodes && j != i && o < MAXFILE * BSIZE ::
         ByteAt(e, jnodes[j], o) == ByteAt(d, inodes[j], o)
  }

  lemma OthersSameTrans(d: Disk, inodes: Inodes, e: Disk, jnodes: Inodes, f: Disk, knodes: Inodes, i: nat)
    requires OthersSame(d, inodes, e, jnodes, i) && OthersSame(e, jnodes, f, knodes, i)
    ensures OthersSame(d, inodes, f, knodes, i)
  {
  }

  /** Dropping pointer k of inode i, when no further pointer hangs off it. */
  lemma DropPointer(sb: Super, d: Disk, inodes: Inodes, owner: map<nat, Owner>, i: nat, k: nat)
    requires Owns(sb, d, inodes, owner) && i in inodes && k < NDIRECT && inodes[i].addrs[k] != 0
    ensures var a := inodes[i].addrs[k];
            var jnodes := inodes[i := inodes[i].(addrs := inodes[i].addrs[k := 0])];
            && a in owner && owner[a] == Owner(i, k)
            && Owns(sb, d, jnodes, owner - {a})
            && OthersSame(d, inodes, d, jnodes, i)
  {
    hide PointersRecorded, RecordsTrue, ByteAt, Word;
    var a := inodes[i].addrs[k];
    var jnodes := inodes[i := inodes[i].(addrs := inodes[i].addrs[k := 0])];
    assert Dropped(d, inodes, jnodes, i, k, k + 1);
    OwnsDropped(sb, d, inodes, jnodes, owner, i, k, k + 1);
    OwnerOf(sb, d, inodes, owner, i, k, a);
    assert Without(owner, i, k, k + 1) == owner - {a};
  }

  lemma OwnerOf(sb: Super, d: Disk, inodes: Inodes, owner: map<nat, Owner>, i: nat, k: nat, a: nat)
    requires Owns(sb, d, inodes, owner) && i in inodes && k < SLOTS && Addr(d, inodes[i], k) == a != 0
    ensures a in owner && owner[a] == Owner(i, k)
    ensures forall b | b in owner && owner[b].inum == i && k <= owner[b].slot < k + 1 :: b == a
  {
    hide Addr;
  }

  /** Exactly the pointers lo..hi-1 of inode i have become 0. */
  ghost predicate Dropped(d: Disk, inodes: Inodes, jnodes: Inodes, i: nat, lo: nat, hi: nat) {
    && WellShaped(inodes) && WellShaped(jnodes) && jnodes.Keys == inodes.Keys
    && forall j, l: nat | j in inodes && l < SLOTS ::
         Addr(d, jnodes[j], l) == if j == i && lo <= l < hi then 0 else Addr(d, inodes[j], l)
  }

  lemma OwnsDropped(sb: Super, d: Disk, inodes: Inodes, jnodes: Inodes, owner: map<nat, Owner>, i: nat, lo: nat,
                    hi: nat)
    requires Owns(sb, d, inodes, owner) && GoodInodes(sb, jnodes) && Dropped(d, inodes, jnodes, i, lo, hi)
    ensures Owns(sb, d, jnodes, Without(owner, i, lo, hi))
  {
    hide Addr;
  }

  /** bfree() of an owned block succeeds and touches no file. */
  lemma FreeMarks(sb: Super, d: Disk, inodes: Inodes, owner: map<nat, Owner>, used: set<nat>, a: nat)
    requires Owns(sb, d, inodes, owner) && Marks(sb, d, used) && a in used && a in owner
    ensures DataStart(sb) <= a < sb.size && Bit(sb, d, a)
    ensures var e := Marked(sb, d, a, false);
            && Owns(sb, e, inodes, owner) && Marks(sb, e, used - {a})
            && SameFiles(d, inodes, e, inodes) && SameTable(sb, d, e)
  {
    hide PointersRecorded, BitOf, SameFiles, Addr, MarkedBlock;
    MarkedBits(sb, d, a, false);
    ChangeUnowned(sb, d, inodes, owner, Marked(sb, d, a, false));
  }

  /** owner without the pointers lo..hi-1 of inode i. */
  ghost function Without(owner: map<nat, Owner>, i: nat, lo: nat, hi: nat): map<nat, Owner> {
    map b | b in owner && !(owner[b].inum == i && lo <= owner[b].slot < hi) :: owner[b]
  }

  /** At most one block is owned through slot k: the one whose address is stored there. */
  lemma WithoutStep(sb: Super, d: Disk, inodes: Inodes, owner0: map<nat, Owner>, i: nat, lo: nat, k: nat)
    requires lo <= k < SLOTS && Owns(sb, d, inodes, Without(owner0, i, lo, k)) && i in inodes
    ensures var a := Addr(d, inodes[i], k);
            var w := Without(owner0, i, lo, k);
            Without(owner0, i, lo, k + 1) == if a == 0 then w else w - {a}
  {
    hide Addr;
    var w := Without(owner0, i, lo, k);
    var a := Addr(d, inodes[i], k);
    forall b | b in w && w[b] == Owner(i, k) ensures b == a != 0 {}
  }

  /** Dropping the indirect pointer drops its entries with it. */
  lemma DropIndirect(sb: Super, d: Disk, inodes: Inodes, owner: map<nat, Owner>, i: nat)
    requires Owns(sb, d, inodes, owner) && i in inodes
    ensures var jnodes := inodes[i := inodes[i].(addrs := inodes[i].addrs[NDIRECT := 0])];
            && Owns(sb, d, jnodes, Without(owner, i, NDIRECT, SLOTS))
            && OthersSame(d, inodes, d, jnodes, i)
  {
    hide PointersRecorded, RecordsTrue, ByteAt, Word;
    var jnodes := inodes[i := inodes[i].(addrs := inodes[i].addrs[NDIRECT := 0])];
    assert Dropped(d, inodes, jnodes, i, NDIRECT, SLOTS);
    OwnsDropped(sb, d, inodes, jnodes, owner, i, NDIRECT, SLOTS);
  }

  /** The entries 0..j-1 of inode i's indirect block. */
  ghost function Entries(owner: map<nat, Owner>, i: nat, j: nat): set<nat> {
    set b | b in owner && owner[b].inum == i && NDIRECT < owner[b].slot <= NDIRECT + j
  }

  lemma EntriesStep(sb: Super, d: Disk, inodes: Inodes, owner: map<nat, Owner>, i: nat, j: nat)
    requires Owns(sb, d, inodes, owner) && i in inodes && j < NINDIRECT
    ensures var a := Addr(d, inodes[i], j + NDIRECT + 1);
            && Entries(owner, i, j + 1) == (if a == 0 then Entries(owner, i, j) else Entries(owner, i, j) + {a})
            && (a != 0 ==> a in owner && a !in Entries(owner, i, j))
  {
    hide Addr;
    var k := j + NDIRECT + 1;
    var a := Addr(d, inodes[i], k);
    forall b | b in owner && owner[b] == Owner(i, k) ensures b == a != 0 {}
    if a != 0 { assert owner[a] == Owner(i, k); }
    assert forall b | b in Entries(owner, i, j + 1) :: b in Entries(owner, i, j) || owner[b] == Owner(i, k);
  }

  lemma OthersFromSame(d: Disk, inodes: Inodes, e: Disk, jnodes: Inodes, i: nat)
    requires SameFiles(d, inodes, e, jnodes)
    ensures OthersSame(d, inodes, e, jnodes, i)
  {
  }

  lemma OthersRefl(sb: Super, d: Disk, inodes: Inodes, owner: map<nat, Owner>, i: nat)
    requires FsInv(sb, d, inodes, owner)
    ensures OthersSame(d, inodes, d, inodes, i)
  {
  }

  lemma PointerOwned(sb: Super, d: Disk, inodes: Inodes, owner: map<nat, Owner>, i: nat, k: nat)
    requires Owns(sb, d, inodes, owner) && i in inodes && k < SLOTS && Addr(d, inodes[i], k) != 0
    ensures var a := Addr(d, inodes[i], k);
            a in owner && owner[a] == Owner(i, k) && DataStart(sb) <= a < sb.size
  {
  }

  /** Changing a bit leaves the data blocks alone. */
  lemma MarkedKeeps(sb: Super, d: Disk, b: nat, x: nat)
    requires ValidDisk(sb, d) && b < sb.size && DataStart(sb) <= x < sb.size
    ensures Marked(sb, d, b, false)[x] == d[x]
  {
  }

  lemma WithoutIndirect(sb: Super, d: Disk, inodes: Inodes, owner: map<nat, Owner>, i: nat, ind: nat)
    requires Owns(sb, d, inodes, owner) && i in inodes && inodes[i].addrs[NDIRECT] == ind != 0
    ensures Without(owner, i, NDIRECT, SLOTS).Keys == owner.Keys - Entries(owner, i, NINDIRECT) - {ind}
  {
    assert Addr(d, inodes[i], NDIRECT) == ind;
    assert forall b | b in owner && owner[b] == Owner(i, NDIRECT) :: b == ind;
  }

  lemma NoIndirect(sb: Super, d: Disk, inodes: Inodes, owner: map<nat, Owner>, i: nat)
    requires Owns(sb, d, inodes, owner) && i in inodes && inodes[i].addrs[NDIRECT] == 0
    ensures Without(owner, i, NDIRECT, SLOTS) == owner
  {
    forall b | b in owner && owner[b].inum == i ensures owner[b].slot < NDIRECT {
      assert Addr(d, inodes[i], owner[b].slot) == b;
    }
  }

  lemma WithoutBoth(sb: Super, d: Disk, inodes: Inodes, owner: map<nat, Owner>, i: nat)
    requires FsInv(sb, d, inodes, owner)
    ensures Without(Without(owner, i, 0, NDIRECT), i, NDIRECT, SLOTS)
            == map b | b in owner && owner[b].inum != i :: owner[b]
  {
    hide PointersRecorded, Marks, Addr;
    assert forall b | b in owner :: owner[b].slot < SLOTS;
  }

  /** From the freed inode (d2, inodes2) to the one with its size reset and stored (d, inodes). */
  lemma TruncDone(sb: Super, d0: Disk, inodes0: Inodes, d2: Disk, inodes2: Inodes, owner: map<nat, Owner>, d: Disk,
                  inodes: Inodes, i: nat)
    requires FsInv(sb, d2, inodes2, owner) && i in inodes2 && OthersSame(d0, inodes0, d2, inodes2, i)
    requires inodes == inodes2[i := inodes2[i].(size := 0)] && SameFiles(d2, inodes, d, inodes)
    ensures OthersSame(d0, inodes0, d, inodes, i)
  {
    hide PointersRecorded, RecordsTrue, Marks, ByteAt;
    Resized(sb, d2, inodes2, owner, i, 0);
  }

  /** The blocks of the bitmap. */
  ghost function MapBlocks(sb: Super): set<nat> { Range(sb.bmapstart, DataStart(sb)) }

  /** Blocks of the bitmap are never log blocks. */
  lemma MapsInside(sb: Super, logged: set<nat>, logged': set<nat>)
    requires ValidSuper(sb) && Inside(sb, logged) && logged' <= logged + MapBlocks(sb)
    ensures Inside(sb, logged')
  {
  }

  lemma MapLogged(sb: Super, logged: set<nat>, logged': set<nat>, a: nat)
    requires logged <= logged' <= logged + MapBlocks(sb) && a < sb.size
    ensures logged <= logged' + {BBlock(sb, a)} <= logged + MapBlocks(sb)
  {
    assert BBlock(sb, a) in MapBlocks(sb);
  }

  class Fs {
    const sb: Super
    var d: Disk                       // block contents as bread() returns them
    var inodes: Inodes                // in-core inodes
    var calls: seq<LogCall>           // the calls of log_write() in this transaction
    ghost var start: Disk             // block contents at the start of the transaction
    ghost var logged: set<nat>        // blocks passed to log_write() in this transaction
    ghost var owner: map<nat, Owner>

    /** The calls of log_write() account for every change of a block. */
    ghost predicate Recorded()
      reads this
    {
      Traced(start, calls, d, logged)
    }

    ghost predicate Valid()
      reads this
    {
      FsInv(sb, d, inodes, owner) && Recorded() && Inside(sb, logged)
    }

    /** Blocks d with the inodes in core and no transaction yet. */
    constructor (sb: Super, d: Disk, inodes: Inodes, ghost owner: map<nat, Owner>)
      requires FsInv(sb, d, inodes, owner)
      ensures Valid() && this.sb == sb && this.d == start == d && this.inodes == inodes && this.owner == owner
      ensures calls == [] && logged == {}
    {
      this.sb, this.d, this.inodes, calls := sb, d, inodes, [];
      start, logged, this.owner := d, {}, owner;
    }

    /** A new transaction begins. */
    method Begin()
      requires Valid()
      modifies this`calls, this`start, this`logged
      ensures Valid() && start == d && calls == [] && logged == {}
    {
      calls, start, logged := [], d, {};
    }

    /** modify the buffer of block b, log_write() it */
    method LogWrite(b: nat, data: Block)
      requires b < |d| && Recorded()
      modifies this`d, this`logged, this`calls
      ensures d == old(d)[b := data] && logged == old(logged) + {b} && Recorded()
    {
      TracedMore(start, calls, d, logged, LogCall(b, data));
      calls := calls + [LogCall(b, data)];
      d := d[b := data];
      logged := logged + {b};
    }

    method Bzero(b: nat)
      requires b < |d| && Recorded()
      modifies this`d, this`logged, this`calls
      ensures d == old(d)[b := ZeroBlock()] && logged == old(logged) + {b} && Recorded()
    {
      LogWrite(b, ZeroBlock());
    }

    /** First-fit allocation of a zeroed block. */
    method Balloc() returns (r: Option<nat>)
      requires ValidDisk(sb, d) && Recorded()
      modifies this`d, this`logged, this`calls
      ensures Recorded()
      ensures r.None? ==> d == old(d) && logged == old(logged) && DiskFull(sb, d)
      ensures r.Some? ==>
                && r.value < sb.size && !Bit(sb, old(d), r.value)
                && (forall x: nat | x < r.value :: Bit(sb, old(d), x))
                && d == Allocated(sb, old(d), r.value)
                && logged == old(logged) + {BBlock(sb, r.value), r.value}
    {
      hide Traced;
      var b := 0;
      while b < sb.size
        invariant b % BPB == 0 && Recorded()
        invariant d == old(d) && logged == old(logged)
        invariant forall x: nat | x < b && x < sb.size :: Bit(sb, d, x)
      {
        var bp := d[BBlock(sb, b)];
        var bi := 0;
        while bi < BPB && b + bi < sb.size
          invariant bi <= BPB && Recorded()
          invariant d == old(d) && logged == old(logged)
          invariant forall x: nat | x < b + bi && x < sb.size :: Bit(sb, d, x)
        {
          assert (b + bi) % BPB == bi && (b + bi) / BPB == b / BPB;
          if !BitOf(bp[bi / 8], bi % 8) {
            LogWrite(BBlock(sb, b), MarkedBlock(bp, b + bi, true));
            Bzero(b + bi);
            return Some(b + bi);
          }
          bi := bi + 1;
        }
        b := b + BPB;
      }
      r := None;
    }

    /** Clears b's bit; returns false where the source panics with "freeing free block". */
    method Bfree(b: nat) returns (ok: bool)
      requires ValidDisk(sb, d) && b < sb.size && Recorded()
      modifies this`d, this`logged, this`calls
      ensures Recorded()
      ensures ok <==> Bit(sb, old(d), b)
      ensures ok ==> d == Marked(sb, old(d), b, false)
                     && logged == old(logged) + {BBlock(sb, b)}
      ensures !ok ==> d == old(d) && logged == old(logged)
    {
      hide Traced;
      var bp := d[BBlock(sb, b)];
      var bi := b % BPB;
      if !BitOf(bp[bi / 8], bi % 8) {
        return false;
      }
      LogWrite(BBlock(sb, b), MarkedBlock(bp, b, false));
      ok := true;
    }

    /** Copies an in-core inode to the inode table. */
    method Iupdate(inum: nat)
      requires Valid() && inum in inodes
      modifies this`d, this`logged, this`calls
      ensures Valid() && SameFiles(old(d), inodes, d, inodes) && PointersKept(old(d), inodes, d, inodes)
      ensures DIno(sb, d, inum) == inodes[inum]
      ensures HasDinode(d[sb.inodestart + inum / 8], inum % 8, inodes[inum])
      ensures var x := sb.inodestart + inum / 8;
              && |d| == |old(d)| && (forall b | 0 <= b < |d| && b != x :: d[b] == old(d)[b])
              && forall k | 0 <= k < 512 && k / 64 != inum % 8 :: d[x][k] == old(d)[x][k]
      ensures forall j: nat | j < sb.ninodes && j != inum :: DIno(sb, d, j) == DIno(sb, old(d), j)
      ensures forall b | DataStart(sb) <= b < sb.size :: d[b] == old(d)[b]
      ensures logged == old(logged) + {IBlock(sb, inum)}
    {
      hide Traced, Inside, MapBlocks, PointersRecorded, RecordsTrue, Marks, SameFiles, DIno, PutWords, HasDinode;
      LogWrite(IBlock(sb, inum), PutWords(d[IBlock(sb, inum)], 16 * (inum % IPB), InoWords(inodes[inum])));
      WithInoTable(sb, old(d), inum, inodes[inum]);
      DInoBytes(sb, d, inum, inodes[inum]);
      ChangeInodeTable(sb, old(d), inodes, owner, d);
      InsideMore(sb, old(logged), {IBlock(sb, inum)});
    }

    /** A pointer in the inode itself, allocated if it is zero. */
    method InodeBlock(inum: nat, k: nat) returns (r: Option<nat>)
      requires Valid() && inum in inodes && k <= NDIRECT
      modifies this`d, this`inodes, this`owner, this`logged, this`calls
      ensures r.None? ==>
                && old(inodes)[inum].addrs[k] == 0
                && DiskFull(sb, d) && FreeBlocks(sb, old(d)) == {}
      ensures r.Some? ==>
                && Valid() && 0 < r.value < sb.size
                && inodes == old(inodes)[inum := old(inodes)[inum].(addrs := old(inodes)[inum].addrs[k := r.value])]
                && OneSlot(old(d), old(inodes)[inum], d, inodes[inum], k, r.value)
                && SameFiles(old(d), old(inodes), d, inodes) && PointersKept(old(d), old(inodes), d, inodes)
                && SameTable(sb, old(d), d)
      ensures r.Some? && old(inodes)[inum].addrs[k] != 0 ==>
                d == old(d) && inodes == old(inodes) && owner == old(owner) && logged == old(logged)
      ensures r.Some? && old(inodes)[inum].addrs[k] == 0 ==>
                && logged == old(logged) + {r.value, BBlock(sb, r.value)} && |owner| == |old(owner)| + 1
                && (k == NDIRECT ==> forall l: nat | NDIRECT < l < SLOTS :: Addr(d, inodes[inum], l) == 0)
    {
      hide Traced, Inside, FsInv, SameFiles, PointersKept, Allocated, DiskFull, OneSlot, FreeBlocks, Word;
      InvShape(sb, d, inodes, owner);
      var ino := inodes[inum];
      var addr := ino.addrs[k];
      if addr == 0 {
        RoomLeft(sb, d, inodes, owner);
        var got := Balloc();
        if got.None? { return None; }
        AllocIntoInode(sb, old(d), inodes, owner, inum, k, got.value);
        InsideMore(sb, old(logged), {BBlock(sb, got.value), got.value});
        inodes := inodes[inum := ino.(addrs := ino.addrs[k := got.value])];
        owner := owner[got.value := Owner(inum, k)];
        addr := got.value;
      } else {
        PointerInRange(sb, d, inodes, owner, inum, k);
        SameSlots(d, ino, k);
        assert ino.addrs[k := addr] == ino.addrs && inodes[inum := ino] == inodes;
      }
      r := Some(addr);
    }

    /** Entry n of the indirect block, allocated if it is zero. */
    method IndirectBlock(inum: nat, ind: nat, n: nat) returns (r: Option<nat>)
      requires Valid() && inum in inodes && ind == inodes[inum].addrs[NDIRECT] != 0 && n < NINDIRECT
      modifies this`d, this`owner, this`logged, this`calls
      ensures var k := n + NDIRECT + 1;
              && (r.None? ==>
                    && Addr(old(d), inodes[inum], k) == 0
                    && DiskFull(sb, d) && FreeBlocks(sb, old(d)) == {})
              && (r.Some? ==>
                    && Valid() && 0 < r.value < sb.size
                    && OneSlot(old(d), inodes[inum], d, inodes[inum], k, r.value)
                    && SameFiles(old(d), inodes, d, inodes) && PointersKept(old(d), inodes, d, inodes)
                    && SameTable(sb, old(d), d))
              && (r.Some? && Addr(old(d), inodes[inum], k) != 0 ==>
                    d == old(d) && owner == old(owner) && logged == old(logged))
              && (r.Some? && Addr(old(d), inodes[inum], k) == 0 ==>
                    && logged == old(logged) + {r.value, BBlock(sb, r.value), ind} && |owner| == |old(owner)| + 1)
    {
      hide Traced, Inside, FsInv, SameFiles, PointersKept, SetWord, Word, Addr, Allocated, DiskFull, OneSlot,
           FreeBlocks;
      InvShape(sb, d, inodes, owner);
      RoomLeft(sb, d, inodes, owner);
      IndirectInRange(sb, d, inodes, owner, inum);
      var bp := d[ind];
      var addr := Word(bp, n);
      IndirectWord(d, inodes[inum], n);
      if addr == 0 {
        var got := Balloc();
        if got.None? { return None; }
        AllocIntoIndirect(sb, old(d), inodes, owner, inum, n + NDIRECT + 1, got.value);
        LogWrite(ind, SetWord(bp, n, got.value));
        InsideMore(sb, old(logged), {BBlock(sb, got.value), got.value, ind});
        assert logged == old(logged) + {BBlock(sb, got.value), got.value, ind};
        owner := owner[got.value := Owner(inum, n + NDIRECT + 1)];
        addr := got.value;
      } else {
        PointerInRange(sb, d, inodes, owner, inum, n + NDIRECT + 1);
        SameSlots(d, inodes[inum], n + NDIRECT + 1);
      }
      r := Some(addr);
    }

    /** The disk block of the bn-th block of file inum, allocated if there is none. */
    method Bmap(inum: nat, bn: nat) returns (r: Option<nat>)
      requires Valid() && inum in inodes
      modifies this`d, this`inodes, this`owner, this`logged, this`calls
      ensures bn >= MAXFILE ==> r.None?
      ensures bn < MAXFILE && r.None? ==>
                DiskFull(sb, d) && |FreeBlocks(sb, old(d))| < BmapNeeds(old(d), old(inodes)[inum], bn)
      ensures r.Some? ==>
                && bn < MAXFILE && Valid() && inum in inodes
                && inodes == old(inodes)[inum := old(inodes)[inum].(addrs := inodes[inum].addrs)]
                && Addr(d, inodes[inum], DataSlot(bn)) == r.value && 0 < r.value < sb.size
                && (if bn < 12 then inodes[inum].addrs[bn] == r.value
                    else inodes[inum].addrs[12] < |d| && Long(d[inodes[inum].addrs[12]], 4 * (bn - 12)) == r.value)
                && SameFiles(old(d), old(inodes), d, inodes)
                && PointersKept(old(d), old(inodes), d, inodes)
                && SameTable(sb, old(d), d)
                && (bn < NDIRECT ==> inodes[inum].addrs[NDIRECT] == old(inodes)[inum].addrs[NDIRECT])
                && (bn >= NDIRECT ==> inodes[inum].addrs[NDIRECT] != 0)
                && OnlyTouched(old(inodes)[inum], inodes[inum], bn, bn + 1)
                && |owner| == |old(owner)| + BmapNeeds(old(d), old(inodes)[inum], bn)
                && LaterSlots(old(d), old(inodes)[inum], d, inodes[inum], bn + 1)
      ensures r.Some? && Addr(old(d), old(inodes)[inum], DataSlot(bn)) != 0 ==>
                d == old(d) && inodes == old(inodes) && owner == old(owner) && logged == old(logged)
      ensures r.Some? && Addr(old(d), old(inodes)[inum], DataSlot(bn)) == 0 ==>
                var wasInd, ind := old(inodes)[inum].addrs[NDIRECT], inodes[inum].addrs[NDIRECT];
                logged == old(logged) + BmapLogged(sb, wasInd, ind, bn, r.value)
    {
      hide Traced, Inside, FsInv, SameFiles, PointersKept, SameTable, DiskFull, OneSlot, OnlyTouched, LaterSlots,
           FreeBlocks, Addr, BmapNeeds, Long;
      InvShape(sb, d, inodes, owner);
      if bn < NDIRECT {
        SameSlots(d, inodes[inum], bn);
        DirectDone(d, inodes[inum], d, inodes[inum], bn, inodes[inum].addrs[bn]);
        r := InodeBlock(inum, bn);
        if r.Some? {
          DirectDone(old(d), old(inodes)[inum], d, inodes[inum], bn, r.value);
          AddrBytes(d, inodes[inum], bn, r.value);
        }
        return;
      }
      if bn - NDIRECT < NINDIRECT {
        SameSlots(d, inodes[inum], NDIRECT);
        IndirectNeeds(d, inodes[inum], d, inodes[inum], bn, inodes[inum].addrs[NDIRECT]);
        var ind := InodeBlock(inum, NDIRECT);
        if ind.None? { return None; }
        ghost var d1, inodes1, owner1 := d, inodes, owner;
        RoomLeft(sb, old(d), old(inodes), old(owner));
        RoomLeft(sb, d, inodes, owner);
        IndirectNeeds(old(d), old(inodes)[inum], d, inodes[inum], bn, ind.value);
        r := IndirectBlock(inum, ind.value, bn - NDIRECT);
        if r.Some? {
          IndirectDone(old(d), old(inodes)[inum], d1, inodes1[inum], d, inodes[inum], bn, ind.value, r.value);
          SameFilesTrans(old(d), old(inodes), d1, inodes1, d, inodes);
          PointersKeptTrans(old(d), old(inodes), d1, inodes1, d, inodes);
          SameTableTrans(sb, old(d), d1, d);
          AddrBytes(d, inodes[inum], bn, r.value);
        }
        return;
      }
      r := None;
    }

    /** The body of writei()'s loop: bread(bmap()), memmove, log_write. */
    method WriteBlock(inum: nat, off: nat, chunk: seq<Byte>) returns (ok: bool, ghost b: nat)
      requires Valid() && inum in inodes
      requires 0 < |chunk| && off % BSIZE + |chunk| <= BSIZE && off + |chunk| <= MAXFILE * BSIZE
      modifies this`d, this`inodes, this`owner, this`logged, this`calls
      ensures ok ==> Valid() && inum in inodes
      ensures ok ==> BlockWritten(sb, old(d), old(inodes), old(logged), d, inodes, logged, inum, off, chunk, b)
      ensures ok ==> LaterSlots(old(d), old(inodes)[inum], d, inodes[inum], off / BSIZE + 1)
      ensures ok ==> |owner| == |old(owner)| + BmapNeeds(old(d), old(inodes)[inum], off / BSIZE)
      ensures !ok ==> DiskFull(sb, d)
      ensures !ok ==> |FreeBlocks(sb, old(d))| < BmapNeeds(old(d), old(inodes)[inum], off / BSIZE)
    {
      hide Traced, Inside, FsInv, SameFiles, PointersKept, SameTable, SameAddrs, BlockReplaced, Wrote, Splice, DiskFull,
           FreeBlocks, BmapNeeds, LaterSlots, OnlyTouched, BmapLogged, Addr;
      InvShape(sb, d, inodes, owner);
      b := 0;
      var r := Bmap(inum, off / BSIZE);
      if r.None? { return false, 0; }
      InvShape(sb, d, inodes, owner);
      ghost var d2 := d;
      var bp := d[r.value];
      var data := Splice(bp, off % BSIZE, chunk);
      WriteDataBlock(sb, d, inodes, owner, inum, off / BSIZE, data);
      ghost var logged2 := logged;
      LogWrite(r.value, data);
      InsideMore(sb, logged2, {r.value});
      WroteBlock(old(d), old(inodes), d2, inodes, d, inum, off, chunk);
      SameAddrsKept(old(d), old(inodes), d2, inodes, d, inum, off / BSIZE);
      SameTableTrans(sb, old(d), d2, d);
      ok, b := true, r.value;
    }

    /** writei()'s loop. */
    method WriteLoop(inum: nat, src: seq<Byte>, off0: nat) returns (ok: bool, ghost f: Footprint)
      requires Valid() && inum in inodes && off0 + |src| <= MAXFILE * BSIZE
      modifies this`d, this`inodes, this`owner, this`logged, this`calls
      ensures ok ==>
                Valid() && Progress(sb, old(d), old(inodes), old(logged), d, inodes, logged, f, inum, off0, src, |src|)
      ensures ok <==>
                WriteNeeds(old(d), old(inodes)[inum], off0, |src|) <= |FreeBlocks(sb, old(d))|
      ensures !ok ==> DiskFull(sb, d)
    {
      hide Traced, Inside, FsInv, Progress, BlockWritten, StepFootprint, Addr, DiskFull, FreeBlocks, WriteNeeds,
           BmapNeeds, LaterSlots, Touched;
      InvShape(sb, d, inodes, owner);
      RoomLeft(sb, d, inodes, owner);
      NeedsNothing(d, inodes[inum], off0);
      var n, tot, off := |src|, 0, off0;
      f := Footprint({}, {}, {}, {});
      ProgressStart(sb, d, inodes, logged, inum, off0, src);
      while tot < n
        invariant 0 <= tot <= n && off == off0 + tot
        invariant tot == 0 || tot == n || off % BSIZE == 0
        invariant Valid() && inum in inodes
        invariant Progress(sb, old(d), old(inodes), old(logged), d, inodes, logged, f, inum, off0, src, tot)
        invariant |owner| == |old(owner)| + WriteNeeds(old(d), old(inodes)[inum], off0, tot)
        invariant LaterSlots(old(d), old(inodes)[inum], d, inodes[inum], off0 / BSIZE + Touched(off0, tot))
      {
        var m := if n - tot < BSIZE - off % BSIZE then n - tot else BSIZE - off % BSIZE;
        ghost var d1, inodes1, logged1 := d, inodes, logged;
        InvShape(sb, d, inodes, owner);
        RoomLeft(sb, d, inodes, owner);
        RoundNeeds(sb, old(d), old(inodes), old(logged), d, inodes, logged, f, inum, off0, src, tot, m);
        var done, b := WriteBlock(inum, off, src[tot..tot + m]);
        if !done { return false, f; }
        InvShape(sb, d, inodes, owner);
        LaterMore(old(d), old(inodes)[inum], d1, inodes1[inum], d, inodes[inum], off / BSIZE);
        ProgressStep(sb, old(d), old(inodes), old(logged), f, d1, inodes1, logged1, d, inodes, logged,
                     inum, off0, src, tot, m, b);
        f := StepFootprint(sb, f, inodes1[inum].addrs[NDIRECT], inodes[inum].addrs[NDIRECT], off / BSIZE, b,
                           Addr(d1, inodes1[inum], DataSlot(off / BSIZE)) == 0);
        tot, off := tot + m, off + m;
      }
      RoomLeft(sb, d, inodes, owner);
      ok := true;
    }

    /** A device inode: type is the low half of the first word. */
    predicate IsDevice(inum: nat)
      requires inum in inodes
      reads this
    {
      inodes[inum].typeMajor % 65536 == T_DEV
    }

    /** The end of a writei() past the old end of the file: ip->size = off; iupdate(ip). */
    method GrowTo(inum: nat, off: Word32)
      requires Valid() && inum in inodes
      modifies this`d, this`inodes, this`logged, this`calls
      ensures Valid() && inodes == old(inodes)[inum := old(inodes)[inum].(size := off)]
      ensures SameFiles(old(d), inodes, d, inodes) && PointersKept(old(d), inodes, d, inodes)
      ensures DIno(sb, d, inum) == inodes[inum]
      ensures forall j: nat | j < sb.ninodes && j != inum :: DIno(sb, d, j) == DIno(sb, old(d), j)
      ensures logged == old(logged) + {IBlock(sb, inum)}
    {
      hide Traced, Inside, MapBlocks, PointersRecorded, RecordsTrue, Marks, SameFiles, PointersKept, DIno;
      Resized(sb, d, inodes, owner, inum, off);
      inodes := inodes[inum := inodes[inum].(size := off)];
      Iupdate(inum);
    }

    method Writei(inum: nat, src: seq<Byte>, off0: nat) returns (r: IoResult, ghost f: Footprint)
      requires Valid() && inum in inodes && off0 < WORD_LIMIT && |src| < WORD_LIMIT
      modifies this`d, this`inodes, this`owner, this`logged, this`calls
      ensures r == Device <==> old(IsDevice(inum))
      ensures old(IsDevice(inum)) <==> old(inodes)[inum].typeMajor % 65536 == 3
      ensures r == Fail <==>
                !old(IsDevice(inum)) && (off0 > old(inodes)[inum].size || off0 + |src| > MAXFILE * BSIZE)
      ensures r == Fail || r == Device ==>
                && Valid() && d == old(d) && inodes == old(inodes) && owner == old(owner)
                && logged == old(logged) && calls == old(calls)
      ensures r.Count? ==>
                && r.n == |src| && Valid()
                && Written(sb, old(d), old(inodes), old(logged), d, inodes, logged, f, inum, off0, src)
      ensures r == Panic <==> !old(IsDevice(inum)) && NoRoom(sb, old(d), old(inodes)[inum], off0, |src|)
      ensures r == Panic ==> DiskFull(sb, d)
    {
      hide Traced, Inside, MapBlocks, PointersRecorded, RecordsTrue, Marks, Progress, Written, SameFiles, PointersKept,
           DIno, Addr, DiskFull, WriteNeeds, FreeBlocks;
      f := Footprint({}, {}, {}, {});
      if IsDevice(inum) { return Device, f; }
      var n := |src|;
      if off0 > inodes[inum].size || (off0 + n) % WORD_LIMIT < off0 { return Fail, f; }
      if off0 + n > MAXFILE * BSIZE { return Fail, f; }
      var ok;
      ok, f := WriteLoop(inum, src, off0);
      if !ok { return Panic, f; }
      ghost var d1, inodes1, logged1 := d, inodes, logged;
      ProgressKeepsSize(sb, old(d), old(inodes), old(logged), d, inodes, logged, f, inum, off0, src, n);
      var off := off0 + n;
      if n > 0 && off > inodes[inum].size {
        GrowTo(inum, off);
        WrittenGrown(sb, old(d), old(inodes), old(logged), d1, inodes1, logged1, f, d, owner, inum, off0, src);
        f := f.(inos := {IBlock(sb, inum)});
      } else {
        WrittenInside(sb, old(d), old(inodes), old(logged), d, inodes, logged, f, inum, off0, src);
      }
      r := Count(n);
    }

    /** readi(): at most n0 bytes from off0, no more than the file has. */
    method Readi(inum: nat, off0: nat, n0: nat) returns (r: IoResult, dst: seq<Byte>)
      requires Valid() && inum in inodes && off0 < WORD_LIMIT && n0 < WORD_LIMIT
      modifies this`d, this`inodes, this`owner, this`logged, this`calls
      ensures r == Device <==> old(IsDevice(inum))
      ensures old(IsDevice(inum)) <==> old(inodes)[inum].typeMajor % 65536 == 3
      ensures r == Fail <==>
                !old(IsDevice(inum)) && (off0 > old(inodes)[inum].size || off0 + n0 >= WORD_LIMIT)
      ensures r.Count? ==>
                && r.n == |dst| == (if off0 + n0 > old(inodes)[inum].size then old(inodes)[inum].size - off0 else n0)
                && Valid() && SameFiles(old(d), old(inodes), d, inodes)
                && BytesFrom(old(d), old(inodes)[inum], off0, dst)
      ensures r == Panic ==> DiskFull(sb, d) || old(inodes)[inum].size > MAXFILE * BSIZE
      ensures HoleFree(old(d), old(inodes)[inum]) ==>
                r != Panic && d == old(d) && inodes == old(inodes) && owner == old(owner) && logged == old(logged)
    {
      hide Traced, Inside, FsInv, SameFiles, PointersKept, ByteAt, Addr, HoleFree, SameTable, OnlyTouched, LaterSlots,
           BmapLogged, BmapNeeds, FreeBlocks, BytesFrom, DiskFull;
      InvShape(sb, d, inodes, owner);
      dst := [];
      if IsDevice(inum) { return Device, dst; }
      if off0 > inodes[inum].size || (off0 + n0) % WORD_LIMIT < off0 { return Fail, dst; }
      var n := n0;
      if off0 + n > inodes[inum].size { n := inodes[inum].size - off0; }
      SameFilesRefl(sb, d, inodes, owner);
      ReadNothing(d, inodes[inum], off0);
      ghost var holeFree := HoleFree(d, inodes[inum]);
      var tot, off := 0, off0;
      while tot < n
        invariant 0 <= tot <= n && off == off0 + tot && |dst| == tot
        invariant tot > 0 ==> off <= MAXFILE * BSIZE
        invariant Valid() && inum in inodes && SameFiles(old(d), old(inodes), d, inodes)
        invariant BytesFrom(old(d), old(inodes)[inum], off0, dst)
        invariant holeFree ==> d == old(d) && inodes == old(inodes) && owner == old(owner) && logged == old(logged)
      {
        ghost var d1, inodes1 := d, inodes;
        InvShape(sb, d, inodes, owner);
        if holeFree { NoHoleAt(d, inodes[inum], off); }
        var b := Bmap(inum, off / BSIZE);
        if b.None? { return Panic, dst; }
        InvShape(sb, d, inodes, owner);
        SameFilesTrans(old(d), old(inodes), d1, inodes1, d, inodes);
        var m := if n - tot < BSIZE - off % BSIZE then n - tot else BSIZE - off % BSIZE;
        var chunk := d[b.value][off % BSIZE..off % BSIZE + m];
        ReadChunk(old(d), old(inodes), d, inodes, inum, off, m, chunk);
        ReadMore(old(d), old(inodes)[inum], off0, dst, chunk);
        dst := dst + chunk;
        tot, off := tot + m, off + m;
      }
      r := Count(n);
    }

    /** bfree(ip->addrs[k]); ip->addrs[k] = 0 */
    method FreePointer(inum: nat, k: nat) returns (ok: bool)
      requires Valid() && inum in inodes && k < NDIRECT && inodes[inum].addrs[k] != 0
      modifies this`d, this`inodes, this`owner, this`logged, this`calls
      ensures ok && Valid()
      ensures inodes == old(inodes)[inum := old(inodes)[inum].(addrs := old(inodes)[inum].addrs[k := 0])]
      ensures owner == old(owner) - {old(inodes)[inum].addrs[k]}
      ensures OthersSame(old(d), old(inodes), d, inodes, inum) && SameTable(sb, old(d), d)
      ensures old(logged) <= logged <= old(logged) + MapBlocks(sb)
    {
      hide Traced, Inside, MapBlocks, PointersRecorded, RecordsTrue, Marks, ByteAt, OthersSame, Marked, SameFiles;
      var a := inodes[inum].addrs[k];
      DropPointer(sb, d, inodes, owner, inum, k);
      FreeMarks(sb, d, inodes, owner, owner.Keys, a);
      ok := Bfree(a);
      MapLogged(sb, old(logged), old(logged), a);
      MapsInside(sb, old(logged), logged);
      DropPointer(sb, d, inodes, owner, inum, k);
      OthersFromSame(old(d), inodes, d, inodes, inum);
      ghost var inodes1 := inodes;
      inodes := inodes[inum := inodes[inum].(addrs := inodes[inum].addrs[k := 0])];
      OthersSameTrans(old(d), inodes1, d, inodes1, d, inodes, inum);
      owner := owner - {a};
    }

    /** itrunc()'s first loop. */
    method FreeDirect(inum: nat) returns (ok: bool)
      requires Valid() && inum in inodes
      modifies this`d, this`inodes, this`owner, this`logged, this`calls
      ensures ok && Valid() && inum in inodes
      ensures inodes == old(inodes)[inum := old(inodes)[inum].(addrs := inodes[inum].addrs)]
      ensures forall k: nat | k < NDIRECT :: inodes[inum].addrs[k] == 0
      ensures inodes[inum].addrs[NDIRECT] == old(inodes)[inum].addrs[NDIRECT]
      ensures owner == Without(old(owner), inum, 0, NDIRECT)
      ensures OthersSame(old(d), old(inodes), d, inodes, inum) && SameTable(sb, old(d), d)
      ensures old(logged) <= logged <= old(logged) + MapBlocks(sb)
    {
      hide Traced, Inside, MapBlocks, PointersRecorded, RecordsTrue, Marks, ByteAt, OthersSame;
      OthersRefl(sb, d, inodes, owner, inum);
      var i := 0;
      while i < NDIRECT
        invariant i <= NDIRECT
        invariant Valid() && inum in inodes
        invariant inodes == old(inodes)[inum := old(inodes)[inum].(addrs := inodes[inum].addrs)]
        invariant forall k: nat | k < i :: inodes[inum].addrs[k] == 0
        invariant inodes[inum].addrs[NDIRECT] == old(inodes)[inum].addrs[NDIRECT]
        invariant owner == Without(old(owner), inum, 0, i)
        invariant OthersSame(old(d), old(inodes), d, inodes, inum) && SameTable(sb, old(d), d)
        invariant old(logged) <= logged <= old(logged) + MapBlocks(sb)
      {
        ghost var d1, inodes1 := d, inodes;
        assert Addr(d, inodes[inum], i) == inodes[inum].addrs[i];
        WithoutStep(sb, d, inodes, old(owner), inum, 0, i);
        if inodes[inum].addrs[i] != 0 {
          ok := FreePointer(inum, i);
          OthersSameTrans(old(d), old(inodes), d1, inodes1, d, inodes, inum);
        }
        i := i + 1;
      }
      ok := true;
    }

    /** The rest of itrunc(): the entries of the indirect block, then the block itself. */
    method FreeIndirect(inum: nat) returns (ok: bool)
      requires Valid() && inum in inodes && inodes[inum].addrs[NDIRECT] != 0
      modifies this`d, this`inodes, this`owner, this`logged, this`calls
      ensures ok && Valid()
      ensures inodes == old(inodes)[inum := old(inodes)[inum].(addrs := old(inodes)[inum].addrs[NDIRECT := 0])]
      ensures owner == Without(old(owner), inum, NDIRECT, SLOTS)
      ensures OthersSame(old(d), old(inodes), d, inodes, inum) && SameTable(sb, old(d), d)
      ensures old(logged) <= logged <= old(logged) + MapBlocks(sb)
    {
      hide Traced, Inside, MapBlocks, PointersRecorded, RecordsTrue, Marks, ByteAt, SameFiles, OthersSame, Marked, Bit;
      var ind := inodes[inum].addrs[NDIRECT];
      assert Addr(d, inodes[inum], NDIRECT) == ind;
      PointerOwned(sb, d, inodes, owner, inum, NDIRECT);
      SameFilesRefl(sb, d, inodes, owner);
      assert owner.Keys - Entries(owner, inum, 0) == owner.Keys;
      var bp := d[ind];
      var j := 0;
      while j < NINDIRECT
        invariant j <= NINDIRECT && inodes == old(inodes) && owner == old(owner)
        invariant Owns(sb, d, inodes, owner) && Marks(sb, d, owner.Keys - Entries(owner, inum, j))
        invariant SameFiles(old(d), inodes, d, inodes) && SameTable(sb, old(d), d) && d[ind] == bp
        invariant Recorded() && old(logged) <= logged <= old(logged) + MapBlocks(sb)
      {
        var a := Word(bp, j);
        assert a == Addr(d, inodes[inum], j + NDIRECT + 1);
        EntriesStep(sb, d, inodes, owner, inum, j);
        if a != 0 {
          ghost var d1 := d;
          FreeMarks(sb, d, inodes, owner, owner.Keys - Entries(owner, inum, j), a);
          MapLogged(sb, old(logged), logged, a);
          ok := Bfree(a);
          if !ok { return; }
          SameFilesTrans(old(d), inodes, d1, inodes, d, inodes);
          MarkedKeeps(sb, d1, a, ind);
          assert owner.Keys - Entries(owner, inum, j) - {a} == owner.Keys - Entries(owner, inum, j + 1);
        }
        j := j + 1;
      }
      ghost var d1, logged1 := d, logged;
      ghost var used := owner.Keys - Entries(owner, inum, NINDIRECT);
      FreeMarks(sb, d, inodes, owner, used, ind);
      ok := Bfree(ind);
      if !ok { return; }
      MapLogged(sb, old(logged), logged1, ind);
      MapsInside(sb, old(logged), logged);
      SameFilesTrans(old(d), inodes, d1, inodes, d, inodes);
      OthersFromSame(old(d), inodes, d, inodes, inum);
      DropIndirect(sb, d, inodes, owner, inum);
      WithoutIndirect(sb, d, inodes, owner, inum, ind);
      owner := Without(owner, inum, NDIRECT, SLOTS);
      inodes := inodes[inum := inodes[inum].(addrs := inodes[inum].addrs[NDIRECT := 0])];
      OthersSameTrans(old(d), old(inodes), d, old(inodes), d, inodes, inum);
    }

    /** itrunc(); false where a bfree() in it would panic with "freeing free block", which is never. */
    method Itrunc(inum: nat) returns (ok: bool)
      requires Valid() && inum in inodes
      modifies this`d, this`inodes, this`owner, this`logged, this`calls
      ensures ok && Valid()
      ensures inodes == old(inodes)[inum := old(inodes)[inum].(addrs := seq(NDIRECT + 1, _ => 0), size := 0)]
      ensures owner == map b | b in old(owner) && old(owner)[b].inum != inum :: old(owner)[b]
      ensures OthersSame(old(d), old(inodes), d, inodes, inum)
      ensures old(logged) + {IBlock(sb, inum)} <= logged <= old(logged) + {IBlock(sb, inum)} + MapBlocks(sb)
      ensures DIno(sb, d, inum) == inodes[inum]
      ensures forall j: nat | j < sb.ninodes && j != inum :: DIno(sb, d, j) == DIno(sb, old(d), j)
    {
      hide Traced, Inside, MapBlocks, PointersRecorded, RecordsTrue, Marks, ByteAt, OthersSame, SameFiles,
           PointersKept, DIno;
      ok := FreeDirect(inum);
      if !ok { return; }
      ghost var d1, inodes1, owner1 := d, inodes, owner;
      if inodes[inum].addrs[NDIRECT] != 0 {
        ok := FreeIndirect(inum);
        if !ok { return; }
        OthersSameTrans(old(d), old(inodes), d1, inodes1, d, inodes, inum);
      } else {
        NoIndirect(sb, d, inodes, owner, inum);
      }
      WithoutBoth(sb, old(d), old(inodes), old(owner), inum);
      ghost var d2, inodes2 := d, inodes;
      assert inodes[inum].addrs == seq(NDIRECT + 1, _ => 0);
      SameTableInodes(sb, old(d), d);
      GrowTo(inum, 0);
      TruncDone(sb, old(d), old(inodes), d2, inodes2, owner, d, inodes, inum);
    }
  }
}
