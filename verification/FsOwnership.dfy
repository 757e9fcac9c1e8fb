/**
 * Who owns which block.  `owner` assigns to every block in use by a file the one inode and slot that
 * points to it; the lemmas say what each single change made by fs.c does to that assignment and to
 * the contents of all files.
 */
module FsOwnership {
  import opened Blocks
  import opened FsLayout

  type Inodes = map<nat, Ino>

  datatype Owner = Owner(inum: nat, slot: nat)

  ghost predicate GoodIno(sb: Super, ino: Ino) {
    |ino.addrs| == NDIRECT + 1 && ino.addrs[NDIRECT] < sb.size
  }

  ghost predicate GoodInodes(sb: Super, inodes: Inodes) {
    forall i | i in inodes :: i < sb.ninodes && GoodIno(sb, inodes[i])
  }

  /** Every pointer is recorded under the block it points to. */
  ghost predicate PointersRecorded(d: Disk, inodes: Inodes, owner: map<nat, Owner>)
    requires forall i | i in inodes :: |inodes[i].addrs| == NDIRECT + 1
  {
    forall i, k: nat | i in inodes && k < SLOTS && Addr(d, inodes[i], k) != 0 ::
      Addr(d, inodes[i], k) in owner && owner[Addr(d, inodes[i], k)] == Owner(i, k)
  }

  /** Every record is a data block that its pointer does point to. */
  ghost predicate RecordsTrue(sb: Super, d: Disk, inodes: Inodes, owner: map<nat, Owner>)
    requires forall i | i in inodes :: |inodes[i].addrs| == NDIRECT + 1
  {
    forall b | b in owner ::
      && DataStart(sb) <= b < sb.size
      && owner[b].inum in inodes && owner[b].slot < SLOTS
      && Addr(d, inodes[owner[b].inum], owner[b].slot) == b
  }

  ghost predicate Owns(sb: Super, d: Disk, inodes: Inodes, owner: map<nat, Owner>) {
    && ValidDisk(sb, d)
    && GoodInodes(sb, inodes)
    && PointersRecorded(d, inodes, owner)
    && RecordsTrue(sb, d, inodes, owner)
  }

  /** The bitmap marks the metadata blocks and exactly the given data blocks. */
  ghost predicate Marks(sb: Super, d: Disk, used: set<nat>)
    requires ValidDisk(sb, d)
  {
    forall b: nat | b < sb.size :: Bit(sb, d, b) <==> b < DataStart(sb) || b in used
  }

  /** The bitmap and the inodes agree. */
  ghost predicate FsInv(sb: Super, d: Disk, inodes: Inodes, owner: map<nat, Owner>) {
    Owns(sb, d, inodes, owner) && Marks(sb, d, owner.Keys)
  }

  ghost predicate WellShaped(inodes: Inodes) {
    forall i | i in inodes :: |inodes[i].addrs| == NDIRECT + 1
  }

  /** All files have the same bytes. */
  ghost predicate SameFiles(d: Disk, inodes: Inodes, e: Disk, jnodes: Inodes) {
    && WellShaped(inodes) && WellShaped(jnodes) && inodes.Keys == jnodes.Keys
    && forall i, o: nat | i in inodes && o < MAXFILE * BSIZE ::
         ByteAt(e, jnodes[i], o) == ByteAt(d, inodes[i], o)
  }

  ghost predicate SameAddrs(d: Disk, e: Disk, inodes: Inodes) {
    && WellShaped(inodes)
    && forall i, k: nat | i in inodes && k < SLOTS :: Addr(e, inodes[i], k) == Addr(d, inodes[i], k)
  }

  lemma SameFilesTrans(d: Disk, inodes: Inodes, e: Disk, jnodes: Inodes, f: Disk, knodes: Inodes)
    requires SameFiles(d, inodes, e, jnodes) && SameFiles(e, jnodes, f, knodes)
    ensures SameFiles(d, inodes, f, knodes)
  {
  }

  /** Two pointers to the same block are the same pointer. */
  lemma UniqueOwner(sb: Super, d: Disk, inodes: Inodes, owner: map<nat, Owner>, i: nat, k: nat, j: nat, l: nat)
    requires Owns(sb, d, inodes, owner)
    requires i in inodes && j in inodes && k < SLOTS && l < SLOTS
    requires Addr(d, inodes[i], k) == Addr(d, inodes[j], l) != 0
    ensures i == j && k == l
  {
  }

  lemma AddrFrame(d: Disk, e: Disk, ino: Ino, k: nat)
    requires |d| == |e| && |ino.addrs| == NDIRECT + 1 && k < SLOTS
    requires 0 < ino.addrs[NDIRECT] < |d| ==> e[ino.addrs[NDIRECT]] == d[ino.addrs[NDIRECT]]
    ensures Addr(e, ino, k) == Addr(d, ino, k)
  {
  }

  /** Blocks that no file uses can change without any effect on the files. */
  lemma ChangeUnowned(sb: Super, d: Disk, inodes: Inodes, owner: map<nat, Owner>, e: Disk)
    requires Owns(sb, d, inodes, owner) && |e| == |d|
    requires forall b | b in owner :: e[b] == d[b]
    ensures Owns(sb, e, inodes, owner) && SameFiles(d, inodes, e, inodes) && SameAddrs(d, e, inodes)
  {
    forall i, k: nat | i in inodes && k < SLOTS
      ensures Addr(e, inodes[i], k) == Addr(d, inodes[i], k)
    {
      assert Addr(d, inodes[i], NDIRECT) == inodes[i].addrs[NDIRECT];
      AddrFrame(d, e, inodes[i], k);
    }
    forall i, o: nat | i in inodes && o < MAXFILE * BSIZE
      ensures ByteAt(e, inodes[i], o) == ByteAt(d, inodes[i], o)
    {
      assert Addr(e, inodes[i], DataSlot(o / BSIZE)) == Addr(d, inodes[i], DataSlot(o / BSIZE));
    }
  }

  /** Installing a zeroed, unowned block in an empty slot of the inode itself. */
  lemma LinkInInode(sb: Super, d: Disk, inodes: Inodes, owner: map<nat, Owner>, i: nat, k: nat, b: nat)
    requires Owns(sb, d, inodes, owner) && i in inodes && k <= NDIRECT
    requires Addr(d, inodes[i], k) == 0
    requires DataStart(sb) <= b < sb.size && b !in owner && d[b] == ZeroBlock()
    ensures var jnodes := inodes[i := inodes[i].(addrs := inodes[i].addrs[k := b])];
            && Owns(sb, d, jnodes, owner[b := Owner(i, k)])
            && SameFiles(d, inodes, d, jnodes) && PointersKept(d, inodes, d, jnodes)
  {
    hide ByteAt, Addr, PointersRecorded, RecordsTrue;
    var ino := inodes[i].(addrs := inodes[i].addrs[k := b]);
    LinkAddrs(d, inodes[i], ino, k, b);
    LinkBytes(d, inodes[i], ino, k, b);
    LinkOwns(sb, d, inodes, owner, i, ino, k, b);
  }

  lemma LinkAddrs(d: Disk, ino: Ino, ino': Ino, k: nat, b: Word32)
    requires k <= NDIRECT && |ino.addrs| == NDIRECT + 1 && Addr(d, ino, k) == 0 &&
             ino' == ino.(addrs := ino.addrs[k := b])
    requires 0 < b < |d| && d[b] == ZeroBlock()
    ensures forall l: nat | l < SLOTS :: Addr(d, ino', l) == if l == k then b else Addr(d, ino, l)
  {
    hide Word;
    forall l: nat | l < SLOTS ensures Addr(d, ino', l) == if l == k then b else Addr(d, ino, l) {
      if k == NDIRECT && l > NDIRECT {
        ZeroBlockWords(l - NDIRECT - 1);
      }
    }
  }

  lemma LinkBytes(d: Disk, ino: Ino, ino': Ino, k: nat, b: Word32)
    requires k <= NDIRECT && |ino.addrs| == |ino'.addrs| == NDIRECT + 1 && Addr(d, ino, k) == 0 && 0 < b < |d| &&
             d[b] == ZeroBlock()
    requires forall l: nat | l < SLOTS :: Addr(d, ino', l) == if l == k then b else Addr(d, ino, l)
    ensures forall o: nat | o < MAXFILE * BSIZE :: ByteAt(d, ino', o) == ByteAt(d, ino, o)
  {
    hide Addr;
    forall o: nat | o < MAXFILE * BSIZE ensures ByteAt(d, ino', o) == ByteAt(d, ino, o) {
      var l := DataSlot(o / BSIZE);
      assert Addr(d, ino', l) == if l == k then b else Addr(d, ino, l);
    }
  }

  lemma LinkOwns(sb: Super, d: Disk, inodes: Inodes, owner: map<nat, Owner>, i: nat, ino: Ino, k: nat, b: nat)
    requires Owns(sb, d, inodes, owner) && i in inodes && k <= NDIRECT && GoodIno(sb, ino)
    requires DataStart(sb) <= b < sb.size && b !in owner && Addr(d, inodes[i], k) == 0
    requires forall l: nat | l < SLOTS :: Addr(d, ino, l) == if l == k then b else Addr(d, inodes[i], l)
    ensures Owns(sb, d, inodes[i := ino], owner[b := Owner(i, k)]) && PointersKept(d, inodes, d, inodes[i := ino])
  {
    hide Addr;
  }

  /** Storing an entry of the indirect block changes that pointer and no other. */
  lemma IndirectEntry(sb: Super, d: Disk, inodes: Inodes, owner: map<nat, Owner>, i: nat, k: nat, b: Word32)
    requires Owns(sb, d, inodes, owner) && i in inodes && NDIRECT < k < SLOTS
    requires inodes[i].addrs[NDIRECT] != 0
    ensures var ind := inodes[i].addrs[NDIRECT];
            var e := d[ind := SetWord(d[ind], k - NDIRECT - 1, b)];
            && ind in owner && owner[ind] == Owner(i, NDIRECT)
            && Addr(e, inodes[i], k) == b
            && (forall j, l: nat | j in inodes && l < SLOTS && !(j == i && l == k) ::
                  Addr(e, inodes[j], l) == Addr(d, inodes[j], l))
  {
    var ind := inodes[i].addrs[NDIRECT];
    var e := d[ind := SetWord(d[ind], k - NDIRECT - 1, b)];
    assert Addr(d, inodes[i], NDIRECT) == ind;
    forall j, l: nat | j in inodes && l < SLOTS && !(j == i && l == k)
      ensures Addr(e, inodes[j], l) == Addr(d, inodes[j], l)
    {
      assert Addr(d, inodes[j], NDIRECT) == inodes[j].addrs[NDIRECT];
      if j != i { AddrFrame(d, e, inodes[j], l); }
    }
  }

  /** Installing a zeroed, unowned block in an empty entry of the indirect block. */
  lemma LinkInIndirect(sb: Super, d: Disk, inodes: Inodes, owner: map<nat, Owner>, i: nat, k: nat, b: nat)
    requires Owns(sb, d, inodes, owner) && i in inodes && NDIRECT < k < SLOTS
    requires inodes[i].addrs[NDIRECT] != 0 && Addr(d, inodes[i], k) == 0
    requires DataStart(sb) <= b < sb.size && b !in owner && d[b] == ZeroBlock()
    ensures var ind := inodes[i].addrs[NDIRECT];
            var e := d[ind := SetWord(d[ind], k - NDIRECT - 1, b)];
            && Owns(sb, e, inodes, owner[b := Owner(i, k)])
            && SameFiles(d, inodes, e, inodes) && PointersKept(d, inodes, e, inodes)
  {
    hide SetWord, Addr, Word;
    IndirectEntry(sb, d, inodes, owner, i, k, b);
    var ind := inodes[i].addrs[NDIRECT];
    var e := d[ind := SetWord(d[ind], k - NDIRECT - 1, b)];
    forall j, o: nat | j in inodes && o < MAXFILE * BSIZE
      ensures ByteAt(e, inodes[j], o) == ByteAt(d, inodes[j], o)
    {
      var s := DataSlot(o / BSIZE);
      if !(j == i && s == k) {
        assert Addr(e, inodes[j], s) == Addr(d, inodes[j], s);
        assert Addr(d, inodes[j], s) != ind;
      }
    }
  }

  /** Marks depends on the bitmap blocks only. */
  lemma SameBitmap(sb: Super, d: Disk, e: Disk, used: set<nat>)
    requires ValidDisk(sb, d) && |e| == |d| && Marks(sb, d, used)
    requires forall b | sb.bmapstart <= b < DataStart(sb) :: e[b] == d[b]
    ensures Marks(sb, e, used)
  {
    hide BitOf;
    forall b: nat | b < sb.size ensures Bit(sb, e, b) == Bit(sb, d, b) {
      assert BBlock(sb, b) < DataStart(sb);
    }
  }

  /** Writing the inode table touches neither the bitmap nor a file. */
  lemma ChangeInodeTable(sb: Super, d: Disk, inodes: Inodes, owner: map<nat, Owner>, e: Disk)
    requires FsInv(sb, d, inodes, owner) && |e| == |d|
    requires forall b | sb.bmapstart <= b < sb.size :: e[b] == d[b]
    ensures FsInv(sb, e, inodes, owner) && SameFiles(d, inodes, e, inodes) && PointersKept(d, inodes, e, inodes)
  {
    hide SameFiles, PointersRecorded, Bit, Addr, Marks;
    ChangeUnowned(sb, d, inodes, owner, e);
    SameBitmap(sb, d, e, owner.Keys);
  }

  /** Pointers are only ever filled in, never moved. */
  ghost predicate PointersKept(d: Disk, inodes: Inodes, e: Disk, jnodes: Inodes) {
    && WellShaped(inodes) && WellShaped(jnodes) && inodes.Keys == jnodes.Keys
    && forall j, k: nat | j in inodes && k < SLOTS && Addr(d, inodes[j], k) != 0 ::
         Addr(e, jnodes[j], k) == Addr(d, inodes[j], k)
  }

  lemma PointersKeptTrans(d: Disk, inodes: Inodes, e: Disk, jnodes: Inodes, f: Disk, knodes: Inodes)
    requires PointersKept(d, inodes, e, jnodes) && PointersKept(e, jnodes, f, knodes)
    ensures PointersKept(d, inodes, f, knodes)
  {
  }

  /** The inode table itself. */
  ghost predicate SameTable(sb: Super, d: Disk, e: Disk) {
    |d| == |e| && forall b | 0 <= b < sb.bmapstart && b < |d| :: e[b] == d[b]
  }
}
