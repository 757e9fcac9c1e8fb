/**
 * The on-disk layout of fs.h: the free bitmap, the inode table, and the block addresses of a file
 * through its direct and indirect pointers, all read from the bytes of disk blocks.
 */
module FsLayout {
  import opened Blocks

  const NDIRECT: nat := 12
  const NINDIRECT: nat := 128
  const MAXFILE: nat := 140
  const BPB: nat := 4096
  const IPB: nat := 8

  /** The fields of struct superblock that fs.c uses. */
  datatype Super = Super(size: nat, ninodes: nat, inodestart: nat, bmapstart: nat)

  /** The first block after the bitmap. */
  function DataStart(sb: Super): nat { sb.bmapstart + sb.size / BPB + 1 }

  ghost predicate ValidSuper(sb: Super) {
    && 1 <= sb.inodestart
    && sb.inodestart + sb.ninodes / IPB + 1 <= sb.bmapstart
    && DataStart(sb) <= sb.size < WORD_LIMIT
  }

  function BBlock(sb: Super, b: nat): nat { b / BPB + sb.bmapstart }
  function IBlock(sb: Super, inum: nat): nat { inum / IPB + sb.inodestart }

  // ---- bits ----

  /** x & (1 << k) */
  predicate BitOf(x: nat, k: nat) {
    if k == 0 then x % 2 == 1 else BitOf(x / 2, k - 1)
  }

  /** x | (1 << k), or x & ~(1 << k) when v is false, for an x of n bits. */
  function PutBit(x: nat, n: nat, k: nat, v: bool): (r: nat)
    requires k < n && x < Pow2(n)
    ensures r < Pow2(n)
    ensures forall j: nat :: BitOf(r, j) == if j == k then v else BitOf(x, j)
  {
    if k == 0 then x - x % 2 + if v then 1 else 0
    else
      var h := PutBit(x / 2, n - 1, k - 1, v);
      2 * h + x % 2
  }

  function Pow2(n: nat): nat { if n == 0 then 1 else 2 * Pow2(n - 1) }

  ghost predicate ValidDisk(sb: Super, d: Disk) {
    ValidSuper(sb) && |d| == sb.size
  }

  /** Whether block b is marked in use. */
  predicate Bit(sb: Super, d: Disk, b: nat)
    requires ValidDisk(sb, d) && b < sb.size
  {
    BitOf(d[BBlock(sb, b)][b % BPB / 8], b % BPB % 8)
  }

  /** The bitmap block of b after `data[bi/8] |= m` or `data[bi/8] &= ~m`. */
  function MarkedBlock(x: Block, b: nat, v: bool): (r: Block)
    ensures forall e: nat | e / BPB == b / BPB && e != b ::
              BitOf(r[e % BPB / 8], e % BPB % 8) == BitOf(x[e % BPB / 8], e % BPB % 8)
    ensures BitOf(r[b % BPB / 8], b % BPB % 8) == v
  {
    var i := b % BPB / 8;
    assert Pow2(8) == 256;
    x[i := PutBit(x[i], 8, b % BPB % 8, v)]
  }

  function Marked(sb: Super, d: Disk, b: nat, v: bool): (e: Disk)
    requires ValidDisk(sb, d) && b < sb.size
    ensures |e| == |d|
  {
    d[BBlock(sb, b) := MarkedBlock(d[BBlock(sb, b)], b, v)]
  }

  /** Changing one bit changes no other bit and no other block. */
  lemma MarkedBits(sb: Super, d: Disk, b: nat, v: bool)
    requires ValidDisk(sb, d) && b < sb.size
    ensures forall x: nat | x < sb.size ::
              Bit(sb, Marked(sb, d, b, v), x) == if x == b then v else Bit(sb, d, x)
  {
  }

  // ---- inodes ----

  /** type and major, minor and nlink, size, and addrs, as the 16 words of a dinode. */
  datatype Ino = Ino(typeMajor: Word32, minorLink: Word32, size: Word32, addrs: seq<Word32>)

  function PutWords(b: Block, at: nat, ws: seq<Word32>): (r: Block)
    requires at + |ws| <= WORDS
    ensures forall i | 0 <= i < |ws| :: Word(r, at + i) == ws[i]
    ensures forall j | 0 <= j < WORDS && !(at <= j < at + |ws|) :: Word(r, j) == Word(b, j)
    ensures forall k | 0 <= k < BSIZE && !(4 * at <= k < 4 * (at + |ws|)) :: r[k] == b[k]
  {
    if ws == [] then b
    else SetWord(PutWords(b, at, ws[..|ws| - 1]), at + |ws| - 1, ws[|ws| - 1])
  }

  function InoWords(ino: Ino): (ws: seq<Word32>) { [ino.typeMajor, ino.minorLink, ino.size] + ino.addrs }

  function Words(b: Block, at: nat, n: nat): (ws: seq<Word32>)
    requires at + n <= WORDS
    ensures |ws| == n && forall i | 0 <= i < n :: ws[i] == Word(b, at + i)
  {
    if n == 0 then [] else Words(b, at, n - 1) + [Word(b, at + n - 1)]
  }

  /** The dinode at index k of an inode block. */
  function InoAt(b: Block, k: nat): Ino
    requires k < IPB
  {
    Ino(Word(b, 16 * k), Word(b, 16 * k + 1), Word(b, 16 * k + 2), Words(b, 16 * k + 3, NDIRECT + 1))
  }

  lemma InoStored(b: Block, k: nat, ino: Ino)
    requires k < IPB && |ino.addrs| == NDIRECT + 1
    ensures InoAt(PutWords(b, 16 * k, InoWords(ino)), k) == ino
  {
    hide Word, PutWords;
    var r := PutWords(b, 16 * k, InoWords(ino));
    var ws := InoWords(ino);
    assert Word(r, 16 * k + 0) == ws[0] && Word(r, 16 * k + 1) == ws[1] && Word(r, 16 * k + 2) == ws[2];
    forall i | 0 <= i < NDIRECT + 1 ensures Word(r, 16 * k + 3 + i) == ino.addrs[i] {
      assert Word(r, 16 * k + (3 + i)) == ws[3 + i];
    }
    assert InoAt(r, k).addrs == ino.addrs;
  }

  lemma InoOther(b: Block, k: nat, ino: Ino, j: nat)
    requires k < IPB && |ino.addrs| == NDIRECT + 1 && j < IPB && j != k
    ensures InoAt(PutWords(b, 16 * k, InoWords(ino)), j) == InoAt(b, j)
  {
    hide Word, PutWords;
    var r := PutWords(b, 16 * k, InoWords(ino));
    assert Words(r, 16 * j + 3, NDIRECT + 1) == Words(b, 16 * j + 3, NDIRECT + 1);
  }

  /** The dinode with number inum. */
  function DIno(sb: Super, d: Disk, inum: nat): Ino
    requires ValidDisk(sb, d) && inum < sb.ninodes
  {
    InoAt(d[IBlock(sb, inum)], inum % IPB)
  }

  /** The blocks after iupdate() has stored ino. */
  function WithIno(sb: Super, d: Disk, inum: nat, ino: Ino): (e: Disk)
    requires ValidDisk(sb, d) && inum < sb.ninodes && |ino.addrs| == NDIRECT + 1
    ensures |e| == |d|
  {
    d[IBlock(sb, inum) := PutWords(d[IBlock(sb, inum)], 16 * (inum % IPB), InoWords(ino))]
  }

  /** iupdate() stores this inode and changes no other. */
  lemma WithInoTable(sb: Super, d: Disk, inum: nat, ino: Ino)
    requires ValidDisk(sb, d) && inum < sb.ninodes && |ino.addrs| == NDIRECT + 1
    ensures DIno(sb, WithIno(sb, d, inum, ino), inum) == ino
    ensures forall j: nat | j < sb.ninodes && j != inum :: DIno(sb, WithIno(sb, d, inum, ino), j) == DIno(sb, d, j)
  {
    hide InoAt, PutWords;
    InoStored(d[IBlock(sb, inum)], inum % IPB, ino);
    forall j: nat | j < sb.ninodes && j != inum && IBlock(sb, j) == IBlock(sb, inum)
      ensures DIno(sb, WithIno(sb, d, inum, ino), j) == DIno(sb, d, j)
    {
      InoOther(d[IBlock(sb, inum)], inum % IPB, ino, j % IPB);
    }
  }

  // ---- block addresses ----

  /** Pointers of an inode: 0..11 direct, 12 the indirect block, 13..140 the entries of that block. */
  const SLOTS: nat := 141

  function Addr(d: Disk, ino: Ino, k: nat): Word32
    requires k < SLOTS && |ino.addrs| == NDIRECT + 1
  {
    if k <= NDIRECT then ino.addrs[k]
    else if 0 < ino.addrs[NDIRECT] < |d| then Word(d[ino.addrs[NDIRECT]], k - NDIRECT - 1)
    else 0
  }

  /** The slot that holds the address of the bn-th block of a file. */
  function DataSlot(bn: nat): nat { if bn < NDIRECT then bn else bn + 1 }

  /** The o-th byte of a file; a hole reads as zero. */
  function ByteAt(d: Disk, ino: Ino, o: nat): Byte
    requires o < MAXFILE * BSIZE && |ino.addrs| == NDIRECT + 1
  {
    var a := Addr(d, ino, DataSlot(o / BSIZE));
    if 0 < a < |d| then d[a][o % BSIZE] else 0
  }
}
