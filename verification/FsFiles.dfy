/**
  A file as one flat sequence of bytes, spread over direct and indirect blocks.
 */
module FsFiles {
  import opened FsLayout
  import opened FsOwnership

  /** Number of blocks that a file of `size` bytes takes. */
  function BlocksFor(size: nat): nat {
    (size + (BLOCK_SIZE - 1)) / BLOCK_SIZE
  }

  /** The file has exactly its first `n` blocks. */
  ghost predicate Extent(blocks: seq<Block>, e: Entry, n: nat) {
    && ValidEntry(e) && n <= INODE_MAX_BLOCKS
    && (forall k :: 0 <= k < INODE_MAX_BLOCKS ==> (Addr(blocks, e, k) != 0 <==> k < n))
    && (e.indirect != 0 <==> n > INODE_NUM_DIRECT)
  }

  /** Byte `p` of the file. */
  function ByteAt(blocks: seq<Block>, e: Entry, p: nat): Byte
    requires |e.addrs| == INODE_NUM_DIRECT && p < INODE_MAX_BYTES
  {
    var a := Addr(blocks, e, p / BLOCK_SIZE);
    if 0 < a < |blocks| then blocks[a][p % BLOCK_SIZE] else 0
  }

  function FileBytes(blocks: seq<Block>, e: Entry): (r: seq<Byte>)
    requires |e.addrs| == INODE_NUM_DIRECT && e.numBytes <= INODE_MAX_BYTES
    ensures |r| == e.numBytes
  {
    seq(e.numBytes, p requires 0 <= p < e.numBytes => ByteAt(blocks, e, p))
  }

  /** A file after `src` was written at `offset`, which is at most its length. */
  function Splice(file: seq<Byte>, offset: nat, src: seq<Byte>): (r: seq<Byte>)
    requires offset <= |file|
    ensures |r| == if offset + |src| <= |file| then |file| else offset + |src|
    ensures forall p :: 0 <= p < |r| ==> r[p] == if offset <= p < offset + |src| then src[p - offset] else file[p]
  {
    file[..offset] + src + if offset + |src| <= |file| then file[offset + |src|..] else []
  }

  lemma SameExtent(blocks: seq<Block>, blocks': seq<Block>, e: Entry, n: nat)
    requires Extent(blocks, e, n) && SameFile(blocks, blocks', e)
    ensures Extent(blocks', e, n)
  {
  }

  lemma SameFileTrans(a: seq<Block>, b: seq<Block>, c: seq<Block>, e: Entry)
    requires ValidEntry(e) && SameFile(a, b, e) && SameFile(b, c, e)
    ensures SameFile(a, c, e)
  {
    forall s | 0 <= s < SLOTS
      ensures Addr(c, e, s) == Addr(a, e, s)
      ensures 0 < Addr(a, e, s) < |a| ==> c[Addr(a, e, s)] == a[Addr(a, e, s)]
    {
      assert Addr(b, e, s) == Addr(a, e, s);
    }
  }

  /** The first `n` blocks of the file are where they were, with the same
      contents. */
  ghost predicate SamePrefix(blocks: seq<Block>, blocks': seq<Block>, e: Entry, e': Entry, n: nat)
    requires ValidEntry(e) && ValidEntry(e') && n <= INODE_MAX_BLOCKS
  {
    && |blocks'| == |blocks|
    && (forall s :: 0 <= s < n ==> Addr(blocks', e', s) == Addr(blocks, e, s))
    && (forall s :: 0 <= s < n ==>
          var a := Addr(blocks, e, s); 0 < a < |blocks| ==> blocks'[a] == blocks[a])
  }

  /** The file has its blocks where they were, with the same contents, except that
      place `k` may have got one. */
  ghost predicate SlotGained(blocks: seq<Block>, blocks': seq<Block>, e: Entry, e': Entry, k: nat)
    requires ValidEntry(e) && ValidEntry(e')
  {
    && |blocks'| == |blocks|
    && (forall s :: 0 <= s < INODE_MAX_BLOCKS && s != k ==> Addr(blocks', e', s) == Addr(blocks, e, s))
    && (forall s :: 0 <= s < INODE_MAX_BLOCKS ==>
          var a := Addr(blocks, e, s); 0 < a < |blocks| ==> blocks'[a] == blocks[a])
  }

  lemma GainedTrans(a: seq<Block>, b: seq<Block>, c: seq<Block>, e: Entry, f: Entry, h: Entry, k: nat)
    requires ValidEntry(e) && ValidEntry(f) && ValidEntry(h) && k < INODE_MAX_BLOCKS
    requires SlotGained(a, b, e, f, k) && Addr(b, f, k) == Addr(a, e, k) && SlotGained(b, c, f, h, k)
    ensures SlotGained(a, c, e, h, k)
  {
    forall s | 0 <= s < INODE_MAX_BLOCKS
      ensures s != k ==> Addr(c, h, s) == Addr(a, e, s)
      ensures 0 < Addr(a, e, s) < |a| ==> c[Addr(a, e, s)] == a[Addr(a, e, s)]
    {
      assert Addr(b, f, s) == Addr(a, e, s);
    }
  }

  /** A file without holes that got a block has none when the block is its next one. */
  lemma GainedExtent(blocks: seq<Block>, blocks': seq<Block>, e: Entry, e': Entry, k: nat, n: nat)
    requires Extent(blocks, e, n) && ValidEntry(e') && k <= n && k < INODE_MAX_BLOCKS
    requires SlotGained(blocks, blocks', e, e', k) && Addr(blocks', e', k) != 0
    requires Addr(blocks, e, k) != 0 ==> Addr(blocks', e', k) == Addr(blocks, e, k)
    requires k < INODE_NUM_DIRECT || e.indirect != 0 ==> e'.indirect == e.indirect
    ensures Extent(blocks', e', if k < n then n else n + 1) && SamePrefix(blocks, blocks', e, e', n)
  {
  }

  lemma PrefixByte(blocks: seq<Block>, blocks': seq<Block>, e: Entry, e': Entry, n: nat, p: nat)
    requires ValidEntry(e) && ValidEntry(e') && n <= INODE_MAX_BLOCKS
    requires SamePrefix(blocks, blocks', e, e', n) && p < BLOCK_SIZE * n
    ensures ByteAt(blocks', e', p) == ByteAt(blocks, e, p)
  {
    assert p / BLOCK_SIZE < n;
    assert Addr(blocks', e', p / BLOCK_SIZE) == Addr(blocks, e, p / BLOCK_SIZE);
  }

  // --------------------------------------------------- one chunk of a write

  /** The contents of a block after `src` was copied to position `at`. */
  function Patched(b: Block, at: nat, src: seq<Byte>): (r: Block)
    requires at + |src| <= BLOCK_SIZE
  {
    b[..at] + src + b[at + |src|..]
  }

  /** Writing `src` at byte `off` within block `k` of a file changes those bytes
      and no others. */
  lemma ChunkWritten(blocks: seq<Block>, e: Entry, k: nat, off: nat, src: seq<Byte>, n: nat)
    requires Extent(blocks, e, n) && k < n && off / BLOCK_SIZE == k && off % BLOCK_SIZE + |src| <= BLOCK_SIZE
    requires var a := Addr(blocks, e, k); a < |blocks|
    requires var a := Addr(blocks, e, k);
      var blocks' := blocks[a := Patched(blocks[a], off % BLOCK_SIZE, src)];
      && (forall s :: 0 <= s < SLOTS ==> Addr(blocks', e, s) == Addr(blocks, e, s))
      && (forall s :: 0 <= s < SLOTS && s != k && Addr(blocks, e, s) != 0 ==> Addr(blocks, e, s) != a)
    ensures var a := Addr(blocks, e, k);
      var blocks' := blocks[a := Patched(blocks[a], off % BLOCK_SIZE, src)];
      && Extent(blocks', e, n)
      && forall p :: 0 <= p < BLOCK_SIZE * n ==>
        ByteAt(blocks', e, p) == if off <= p < off + |src| then src[p - off] else ByteAt(blocks, e, p)
  {
    var a := Addr(blocks, e, k);
    var blocks' := blocks[a := Patched(blocks[a], off % BLOCK_SIZE, src)];
    forall p | 0 <= p < BLOCK_SIZE * n
      ensures ByteAt(blocks', e, p) == if off <= p < off + |src| then src[p - off] else ByteAt(blocks, e, p)
    {
      var s := p / BLOCK_SIZE;
      assert Addr(blocks', e, s) == Addr(blocks, e, s);
      assert p == BLOCK_SIZE * s + p % BLOCK_SIZE && off == BLOCK_SIZE * k + off % BLOCK_SIZE;
    }
  }
}
