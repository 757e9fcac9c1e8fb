/**
 * The layout of fs.h byte by byte: where the fields of a dinode, the bits of the bitmap and the blocks of a
 * file stand on the disk.  Nothing here is stated through the functions that read or write them.
 */
module FsBytes {
  import opened Blocks
  import opened FsLayout

  /** The little-endian 16-bit number in bytes o and o + 1. */
  function Short(b: Block, o: nat): int
    requires o + 2 <= BSIZE
  {
    var lo: int, hi: int := b[o], b[o + 1];
    lo + 256 * hi
  }

  /** The little-endian 32-bit number in bytes o to o + 3. */
  function Long(b: Block, o: nat): int
    requires o + 4 <= BSIZE
  {
    Short(b, o) + 65536 * Short(b, o + 2)
  }

  /** The 64 bytes from 64 * k are struct dinode: type, major, minor, nlink, size and 13 addresses. */
  ghost predicate HasDinode(b: Block, k: nat, ino: Ino)
    requires k < 8
  {
    && Short(b, 64 * k) == ino.typeMajor % 65536
    && Short(b, 64 * k + 2) == ino.typeMajor / 65536
    && Short(b, 64 * k + 4) == ino.minorLink % 65536
    && Short(b, 64 * k + 6) == ino.minorLink / 65536
    && Long(b, 64 * k + 8) == ino.size
    && |ino.addrs| == 13
    && forall i | 0 <= i < 13 :: Long(b, 64 * k + 12 + 4 * i) == ino.addrs[i]
  }

  lemma WordBytes(b: Block, i: nat)
    requires i < WORDS
    ensures Word(b, i) == Long(b, 4 * i)
    ensures Word(b, i) % 65536 == Short(b, 4 * i) && Word(b, i) / 65536 == Short(b, 4 * i + 2)
  {
  }

  lemma InoBytes(b: Block, k: nat)
    requires k < 8
    ensures HasDinode(b, k, InoAt(b, k))
  {
    hide Word, Short, Long;
    var ino := InoAt(b, k);
    WordBytes(b, 16 * k);
    WordBytes(b, 16 * k + 1);
    WordBytes(b, 16 * k + 2);
    forall i | 0 <= i < 13 ensures Long(b, 64 * k + 12 + 4 * i) == ino.addrs[i] {
      WordBytes(b, 16 * k + 3 + i);
    }
  }

  /** The dinode read from the disk is the one whose bytes are there: IPB of them to a block, from inodestart. */
  lemma DInoBytes(sb: Super, d: Disk, inum: nat, ino: Ino)
    requires ValidDisk(sb, d) && inum < sb.ninodes
    ensures HasDinode(d[sb.inodestart + inum / 8], inum % 8, ino) <==> ino == DIno(sb, d, inum)
  {
    hide Word, Short, Long;
    var b, k := d[sb.inodestart + inum / 8], inum % 8;
    InoBytes(b, k);
    if HasDinode(b, k, ino) {
      SameBytes(b, k, ino, DIno(sb, d, inum));
    }
  }

  lemma SameBytes(b: Block, k: nat, x: Ino, y: Ino)
    requires k < 8 && HasDinode(b, k, x) && HasDinode(b, k, y)
    ensures x == y
  {
    hide Short, Long;
    assert x.addrs == y.addrs;
  }

  /** An inode block as bytes: inode 1, a directory with one link and 512 bytes in block 58. */
  lemma RootInode(b: Block)
    requires b[64..80] == [1, 0, 0, 0, 0, 0, 1, 0, 0, 2, 0, 0, 58, 0, 0, 0]
    requires forall i | 80 <= i < 128 :: b[i] == 0
    ensures InoAt(b, 1) == Ino(1, 65536, 512, [58, 0, 0, 0, 0, 0, 0, 0, 0, 0, 0, 0, 0])
  {
    var s := b[64..80];
    assert forall i | 0 <= i < 16 :: b[64 + i] == s[i];
    assert Word(b, 16) == 1 && Word(b, 17) == 65536 && Word(b, 18) == 512 && Word(b, 19) == 58;
    assert forall i | 20 <= i < 32 :: Word(b, i) == 0;
    assert Words(b, 19, 13) == [58, 0, 0, 0, 0, 0, 0, 0, 0, 0, 0, 0, 0];
  }

  /** Block b is marked by bit b % 8 of byte b / 8 of the bitmap, which runs on from block to block. */
  lemma BitBytes(sb: Super, d: Disk, b: nat)
    requires ValidDisk(sb, d) && b < sb.size
    ensures Bit(sb, d, b) <==> d[sb.bmapstart + b / 4096][b % 4096 / 8] / [1, 2, 4, 8, 16, 32, 64, 128][b % 8] % 2 == 1
  {
    BitIsDigit(d[sb.bmapstart + b / 4096][b % 4096 / 8], b % 8);
  }

  lemma BitIsDigit(x: nat, k: nat)
    requires k < 8
    ensures BitOf(x, k) <==> x / [1, 2, 4, 8, 16, 32, 64, 128][k] % 2 == 1
  {
    if k > 0 {
      BitIsDigit(x / 2, k - 1);
      var ps := [1, 2, 4, 8, 16, 32, 64, 128];
      assert ps[k] == 2 * ps[k - 1];
      assert x / 2 / ps[k - 1] == x / ps[k];
    }
  }

  /** The disk block of the bn-th block of a file: addrs[bn], or entry bn - 12 of the block addrs[12]. */
  ghost function BlockOf(d: Disk, ino: Ino, bn: nat): int
    requires bn < 140 && |ino.addrs| == 13
  {
    if bn < 12 then ino.addrs[bn]
    else if 0 < ino.addrs[12] < |d| then Long(d[ino.addrs[12]], 4 * (bn - 12))
    else 0
  }

  lemma SlotBytes(d: Disk, ino: Ino, bn: nat)
    requires bn < MAXFILE && |ino.addrs| == 13
    ensures Addr(d, ino, DataSlot(bn)) == BlockOf(d, ino, bn)
  {
    if bn >= 12 && 0 < ino.addrs[12] < |d| { WordBytes(d[ino.addrs[12]], bn - 12); }
  }

  /** What bmap() finds, in the inode or in the indirect block. */
  lemma AddrBytes(d: Disk, ino: Ino, bn: nat, a: nat)
    requires bn < MAXFILE && |ino.addrs| == 13 && a > 0 && Addr(d, ino, DataSlot(bn)) == a
    ensures if bn < 12 then ino.addrs[bn] == a
            else ino.addrs[12] < |d| && Long(d[ino.addrs[12]], 4 * (bn - 12)) == a
  {
    hide Long;
    SlotBytes(d, ino, bn);
  }

  /** Byte o of a file is byte o % 512 of its block o / 512, or zero where the file has no block. */
  lemma FileBytes(d: Disk, ino: Ino, o: nat)
    requires o < 140 * 512 && |ino.addrs| == 13
    ensures ByteAt(d, ino, o) == var a := BlockOf(d, ino, o / 512); if 0 < a < |d| then d[a][o % 512] else 0
  {
    SlotBytes(d, ino, o / 512);
  }
}
