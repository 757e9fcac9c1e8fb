/** Disk blocks: 512 bytes, also read as 128 little-endian 32-bit words. */
module Blocks {
  const BSIZE: nat := 512
  const WORDS: nat := 128
  const WORD_LIMIT: nat := 0x1_0000_0000

  type Byte = x: int | 0 <= x < 256
  type Block = b: seq<Byte> | |b| == 512 witness seq(512, _ => 0)
  type Word32 = x: int | 0 <= x < 0x1_0000_0000

  /** The disk of memide.c: block number to block contents. */
  type Disk = seq<Block>

  /** memset(data, 0, BSIZE) */
  function ZeroBlock(): (b: Block)
    ensures forall i | 0 <= i < BSIZE :: b[i] == 0
  {
    seq(512, _ => 0)
  }

  /** The i-th `uint` of a block, as a C cast of `b->data` reads it on x86. */
  function Word(b: Block, i: nat): Word32
    requires i < WORDS
  {
    var b0: int, b1: int, b2: int, b3: int := b[4 * i], b[4 * i + 1], b[4 * i + 2], b[4 * i + 3];
    b0 + 256 * b1 + 65536 * b2 + 16777216 * b3
  }

  /** Store a `uint` at index i: it reads back, and no other byte changes. */
  function SetWord(b: Block, i: nat, w: Word32): (r: Block)
    requires i < WORDS
    ensures Word(r, i) == w
    ensures forall k | 0 <= k < BSIZE && !(4 * i <= k < 4 * i + 4) :: r[k] == b[k]
    ensures forall j | 0 <= j < WORDS && j != i :: Word(r, j) == Word(b, j)
  {
    var w1 := w / 256;
    var w2 := w1 / 256;
    b[4 * i := w % 256][4 * i + 1 := w1 % 256][4 * i + 2 := w2 % 256][4 * i + 3 := w2 / 256]
  }

  lemma ZeroBlockWords(i: nat)
    requires i < WORDS
    ensures Word(ZeroBlock(), i) == 0
  {
  }
}
