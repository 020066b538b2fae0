/**
  Bytes of blocks: 32-bit words of indirect blocks (src/fs/defines.h), and the
  constants of the file system.
 */
module FsLayout {

  const BLOCK_SIZE := 512
  const INODE_NUM_DIRECT := 12
  const INODE_NUM_INDIRECT := 128
  const INODE_MAX_BLOCKS := 140
  const INODE_MAX_BYTES := 71680
  const INODE_PER_BLOCK := 8
  const BIT_PER_BLOCK := 4096
  const U32_LIMIT := 0x1_0000_0000
  const USIZE_LIMIT := 0x1_0000_0000_0000_0000

  type Byte = x: nat | x < 256

  /** The contents of one 512-byte block. */
  type Block = s: seq<Byte> | |s| == BLOCK_SIZE witness seq(BLOCK_SIZE, _ => 0)

  function ZeroBlock(): Block {
    seq(BLOCK_SIZE, _ => 0)
  }

  // ----------------------------------------------------- 32-bit words

  /** The little-endian word at index `i`. */
  function Word(b: Block, i: nat): (w: nat)
    requires i < INODE_NUM_INDIRECT
    ensures w < U32_LIMIT
  {
    var b0: nat, b1: nat, b2: nat, b3: nat := b[4 * i], b[4 * i + 1], b[4 * i + 2], b[4 * i + 3];
    b0 + 0x100 * b1 + 0x1_0000 * b2 + 0x100_0000 * b3
  }

  function SetWord(b: Block, i: nat, w: nat): Block
    requires i < INODE_NUM_INDIRECT && w < U32_LIMIT
  {
    b[4 * i := w % 0x100][4 * i + 1 := w / 0x100 % 0x100][4 * i + 2 := w / 0x1_0000 % 0x100]
     [4 * i + 3 := w / 0x100_0000]
  }

  lemma BytesOfWord(w: nat)
    requires w < U32_LIMIT
    ensures w == w % 0x100 + 0x100 * (w / 0x100 % 0x100) + 0x1_0000 * (w / 0x1_0000 % 0x100)
               + 0x100_0000 * (w / 0x100_0000)
  {
    var q := w / 0x100;
    var r := q / 0x100;
    assert w / 0x1_0000 == r;
    assert w / 0x100_0000 == r / 0x100;
  }

  /** Reading back a written word, and only that word changes. */
  lemma WordAfterSet(b: Block, i: nat, w: nat, j: nat)
    requires i < INODE_NUM_INDIRECT && j < INODE_NUM_INDIRECT && w < U32_LIMIT
    ensures Word(SetWord(b, i, w), j) == if j == i then w else Word(b, j)
  {
    BytesOfWord(w);
  }

  /** Words are stored lowest byte first. */
  lemma LittleEndian(b: Block, i: nat)
    requires i < INODE_NUM_INDIRECT
    ensures var b0: nat, b1: nat, b2: nat, b3: nat := b[4 * i], b[4 * i + 1], b[4 * i + 2], b[4 * i + 3];
      Word(b, i) == b0 + 256 * (b1 + 256 * (b2 + 256 * b3))
  {
  }

  lemma ZeroWords(j: nat)
    requires j < INODE_NUM_INDIRECT
    ensures Word(ZeroBlock(), j) == 0
  {
  }
}
