/**
  Block allocation (cache_alloc, cache_free) and the inode operations of
  src/fs/inode.c.  `blocks` is the contents of the blocks as the block cache
  presents them, `bitmap` the bitmap blocks, `dinode` the inodes on disk, `mem`
  the in-memory copies, `image` all blocks as they were last passed to cache->sync,
  and `synced` the syncs of the current operation in order.
 */
module FileSystem {
  import opened Bits
  import opened FsLayout
  import opened FsOwnership
  import opened FsFiles
  import opened FsImage

  // ------------------------------------------------ what inode_map does

  /** A new direct block. */
  lemma MapDirect(sb: Super, blocks: seq<Block>, bitmap: Bitmap, tab: Table, ino: nat, k: nat, b: nat)
    requires Owned(sb, blocks, bitmap, tab, {}) && ino < |tab| && k < INODE_NUM_DIRECT
    requires tab[ino].addrs[k] == 0 && b < sb.numBlocks && !Used(bitmap, b)
    ensures var e := tab[ino].(addrs := tab[ino].addrs[k := b]); var blocks' := blocks[b := ZeroBlock()];
      && b != 0
      && Owned(sb, blocks', Mark(bitmap, b), tab[ino := e], {})
      && SlotGained(blocks, blocks', tab[ino], e, k)
      && forall i :: 0 <= i < |tab| ==> SameFile(blocks, blocks', tab[i])
  {
    var blocks' := blocks[b := ZeroBlock()];
    AllocKeeps(sb, blocks, bitmap, tab, {}, b);
    assert SameFile(blocks, blocks', tab[ino]);
    LinkDirect(sb, blocks', Mark(bitmap, b), tab, {} + {b}, ino, k, b);
    assert {} + {b} - {b} == {};
    DirectGained(blocks, blocks', tab[ino], k, b);
  }

  lemma DirectGained(blocks: seq<Block>, blocks': seq<Block>, e: Entry, k: nat, b: nat)
    requires ValidEntry(e) && k < INODE_NUM_DIRECT && SameFile(blocks, blocks', e)
    ensures SlotGained(blocks, blocks', e, e.(addrs := e.addrs[k := b]), k)
  {
    var f := e.(addrs := e.addrs[k := b]);
    forall s | 0 <= s < INODE_MAX_BLOCKS && s != k ensures Addr(blocks', f, s) == Addr(blocks, e, s) {
      assert Addr(blocks', f, s) == Addr(blocks', e, s);
    }
  }

  /** The indirect block. */
  lemma MapIndirect(sb: Super, blocks: seq<Block>, bitmap: Bitmap, tab: Table, ino: nat, b: nat)
    requires Owned(sb, blocks, bitmap, tab, {}) && ino < |tab|
    requires tab[ino].indirect == 0 && b < sb.numBlocks && !Used(bitmap, b)
    ensures var e := tab[ino].(indirect := b); var blocks' := blocks[b := ZeroBlock()];
      && b != 0
      && Owned(sb, blocks', Mark(bitmap, b), tab[ino := e], {})
      && (forall k: nat :: k < INODE_MAX_BLOCKS ==>
            SlotGained(blocks, blocks', tab[ino], e, k) && Addr(blocks', e, k) == Addr(blocks, tab[ino], k))
      && forall i :: 0 <= i < |tab| ==> SameFile(blocks, blocks', tab[i])
  {
    var blocks' := blocks[b := ZeroBlock()];
    AllocKeeps(sb, blocks, bitmap, tab, {}, b);
    assert SameFile(blocks, blocks', tab[ino]);
    LinkIndirect(sb, blocks', Mark(bitmap, b), tab, {} + {b}, ino, b);
    assert {} + {b} - {b} == {};
  }

  /** A new block behind the indirect block. */
  lemma MapWord(sb: Super, blocks: seq<Block>, bitmap: Bitmap, tab: Table, ino: nat, k: nat, b: nat)
    requires Owned(sb, blocks, bitmap, tab, {}) && ino < |tab| && INODE_NUM_DIRECT <= k < INODE_MAX_BLOCKS
    requires 0 < tab[ino].indirect < |blocks| && Addr(blocks, tab[ino], k) == 0
    requires b < sb.numBlocks && !Used(bitmap, b)
    ensures var e := tab[ino]; var blocks1 := blocks[b := ZeroBlock()];
      && 0 < b < U32_LIMIT
      && var blocks' := blocks1[e.indirect := SetWord(blocks1[e.indirect], k - INODE_NUM_DIRECT, b)];
      && blocks1[e.indirect] == blocks[e.indirect]
      && Owned(sb, blocks', Mark(bitmap, b), tab, {})
      && Addr(blocks', e, k) == b
      && SlotGained(blocks, blocks', e, e, k)
      && forall i :: 0 <= i < |tab| && i != ino ==> SameFile(blocks, blocks', tab[i])
  {
    var e := tab[ino];
    var blocks1 := blocks[b := ZeroBlock()];
    AllocKeeps(sb, blocks, bitmap, tab, {}, b);
    assert SameFile(blocks, blocks1, e);
    assert Addr(blocks, e, INDIRECT_SLOT) == e.indirect;
    var j := k - INODE_NUM_DIRECT;
    assert Addr(blocks1, e, k) == 0 == Word(blocks1[e.indirect], j);
    LinkWord(sb, blocks1, Mark(bitmap, b), tab, {} + {b}, ino, j, b);
    assert {} + {b} - {b} == {};
    var blocks' := blocks1[e.indirect := SetWord(blocks1[e.indirect], j, b)];
    forall i | 0 <= i < |tab| && i != ino ensures SameFile(blocks, blocks', tab[i]) {
      SameFileTrans(blocks, blocks1, blocks', tab[i]);
    }
    WordGained(sb, blocks1, Mark(bitmap, b), tab, ino, k, b);
    GainedTrans(blocks, blocks1, blocks', e, e, e, k);
  }

  lemma WordGained(sb: Super, blocks: seq<Block>, bitmap: Bitmap, tab: Table, ino: nat, k: nat, b: nat)
    requires Owned(sb, blocks, bitmap, tab, {b}) && ino < |tab| && INODE_NUM_DIRECT <= k < INODE_MAX_BLOCKS
    requires 0 < tab[ino].indirect < |blocks| && 0 < b < U32_LIMIT
    ensures var e := tab[ino];
      var blocks' := blocks[e.indirect := SetWord(blocks[e.indirect], k - INODE_NUM_DIRECT, b)];
      Addr(blocks', e, k) == b && SlotGained(blocks, blocks', e, e, k)
  {
    var e := tab[ino];
    var blocks' := blocks[e.indirect := SetWord(blocks[e.indirect], k - INODE_NUM_DIRECT, b)];
    forall s: nat | s < SLOTS
      ensures Addr(blocks', e, s) == if s == k then b else Addr(blocks, e, s)
    {
      AddrAfterSet(blocks, e, k - INODE_NUM_DIRECT, b, s);
    }
    assert Points(blocks, tab, ino, INDIRECT_SLOT, e.indirect);
    forall s: nat | s < INODE_MAX_BLOCKS ensures Addr(blocks, e, s) != e.indirect {
      assert !Points(blocks, tab, ino, s, e.indirect);
    }
  }

  // ----------------------------------------------------------- the class

  /** Between operations: the pointers are in order, every file has exactly the
      blocks that its length needs, and memory and disk agree on every inode. */
  ghost predicate Consistent(sb: Super, blocks: seq<Block>, bitmap: Bitmap, dinode: Table, mem: Table) {
    && Owned(sb, blocks, bitmap, mem, {})
    && |mem| == sb.numInodes && SameInodes(dinode, mem)
    && (forall i :: 0 <= i < |mem| ==> FileShape(blocks, mem[i]))
  }

  /** The inodes on disk are those in memory, and one more entry follows them. */
  ghost predicate SameInodes(dinode: Table, mem: Table) {
    |dinode| == |mem| + 1 && dinode[..|mem|] == mem
  }

  ghost predicate FileShape(blocks: seq<Block>, e: Entry) {
    e.numBytes <= INODE_MAX_BYTES && Extent(blocks, e, BlocksFor(e.numBytes))
  }

  /** The blocks below the data area are marked, which cache_alloc relies on. */
  ghost predicate MetadataMarked(sb: Super, bitmap: Bitmap) {
    ValidBitmap(sb, bitmap) && forall b: nat :: b < sb.dataStart && b < sb.numBlocks ==> Used(bitmap, b)
  }

  /** The new blocks that inode_map needs for place `k`. */
  function NewBlocks(blocks: seq<Block>, e: Entry, k: nat): nat
    requires |e.addrs| == INODE_NUM_DIRECT && k < INODE_MAX_BLOCKS
  {
    if Addr(blocks, e, k) != 0 then 0 else if k < INODE_NUM_DIRECT || e.indirect != 0 then 1 else 2
  }

  /** The new blocks that a file without holes needs to go from `n0` to `n` blocks. */
  function Growth(n0: nat, n: nat): nat {
    if n <= n0 then 0 else n - n0 + if n0 <= INODE_NUM_DIRECT < n then 1 else 0
  }

  /** inode_read and inode_write pass a device on to the console. */
  datatype ReadOutcome = Data(bytes: seq<Byte>) | FromConsole | ReadPanic
  datatype WriteOutcome = Stored | ToConsole | WritePanic

  class FileSystem {
    const sb: Super
    var blocks: seq<Block>
    var bitmap: Bitmap
    var dinode: Table
    var mem: Table
    /** All blocks as last synced. */
    var image: seq<Block>
    /** The syncs of the current operation, and the image before them. */
    var synced: seq<Sync>
    ghost var base: seq<Block>

    ghost predicate Valid()
      reads this
    {
      Consistent(sb, blocks, bitmap, dinode, mem) && Tracked()
    }

    /** The image holds the blocks, the bitmap and the inodes on disk, and is what the
        syncs of the operation made of the image before. */
    ghost predicate Tracked()
      reads this
    {
      Agrees(sb, image, blocks, bitmap, dinode) && |base| == |image| && image == Applied(base, synced)
    }

    /** Mount a consistent image. */
    constructor (sb: Super, image: seq<Block>)
      requires GoodBlocks(sb, image)
      ensures Valid() && Tracked() && this.sb == sb && this.image == image && synced == []
      ensures blocks == image && bitmap == BitmapOf(sb, image) && dinode == InodesOf(sb, image)
      ensures mem == dinode[..sb.numInodes]
    {
      this.sb := sb;
      this.image, this.blocks, this.base, this.synced := image, image, image, [];
      this.bitmap, this.dinode := BitmapOf(sb, image), InodesOf(sb, image);
      this.mem := InodesOf(sb, image)[..sb.numInodes];
      new;
      ImageAgrees(sb, image);
    }

    /** begin_op: the syncs of a new operation begin. */
    method BeginOp()
      requires Tracked()
      modifies this`synced, this`base
      ensures Tracked() && synced == [] && base == image
    {
      synced, base := [], image;
    }

    /** cache->sync of block `b` with contents `data`. */
    method SyncBlock(b: nat, data: Block)
      requires b < |image| == |base| && image == Applied(base, synced)
      modifies this`image, this`synced
      ensures |image| == |base| && image == old(image)[b := data] && image == Applied(base, synced)
      ensures synced == old(synced) + [Sync(b, data)] && Numbers(synced) == Numbers(old(synced)) + {b}
    {
      SyncMore(base, synced, Sync(b, data));
      image := image[b := data];
      synced := synced + [Sync(b, data)];
    }

    /** cache_alloc: the lowest free block, marked and zeroed.  It panics (`ok` is
        false) exactly when no block is free. */
    method CacheAlloc() returns (ok: bool, addr: nat)
      requires Tracked() && MetadataMarked(sb, bitmap)
      modifies this`blocks, this`bitmap, this`image, this`synced
      ensures ValidBitmap(sb, old(bitmap)) && ValidBitmap(sb, bitmap) && Tracked()
      ensures ok <==> old(FreeCount(sb, bitmap)) > 0
      ensures !ok ==> unchanged(`blocks) && unchanged(`bitmap) && unchanged(`image) && unchanged(`synced)
      ensures ok ==>
        && addr < sb.numBlocks && !Used(old(bitmap), addr)
        && (forall c: nat :: c < addr ==> Used(old(bitmap), c))
        && bitmap == Mark(old(bitmap), addr) && FreeCount(sb, bitmap) + 1 == old(FreeCount(sb, bitmap))
        && blocks == old(blocks)[addr := ZeroBlock()]
        && synced == old(synced) + [Sync(BitmapBlock(sb, addr), bitmap[addr / BIT_PER_BLOCK]), Sync(addr, ZeroBlock())]
        && Numbers(synced) == Numbers(old(synced)) + {BitmapBlock(sb, addr), addr}
    {
      hide Bit, Mask, WithBit, Mark, Used, Agrees, Applied, Numbers, FreeCount;
      AgreesShape(sb, image, blocks, bitmap, dinode);
      var b := 0;
      while b < sb.numBlocks
        invariant b % BIT_PER_BLOCK == 0
        invariant unchanged(`blocks) && unchanged(`bitmap) && unchanged(`image) && unchanged(`synced)
        invariant forall c: nat :: c < b && c < sb.numBlocks ==> Used(bitmap, c)
      {
        var data := bitmap[b / BIT_PER_BLOCK];
        var bi := 0;
        while bi < BIT_PER_BLOCK && b + bi < sb.numBlocks
          invariant 0 <= bi <= BIT_PER_BLOCK
          invariant unchanged(`blocks) && unchanged(`bitmap) && unchanged(`image) && unchanged(`synced)
          invariant forall c: nat :: c < b + bi && c < sb.numBlocks ==> Used(bitmap, c)
        {
          BitPlace(bitmap, b, bi);
          if !Bit(data[bi / 8], bi % 8) {
            TakeBlock(b, bi);
            return true, b + bi;
          }
          bi := bi + 1;
        }
        b := b + BIT_PER_BLOCK;
      }
      NoneFree(sb, bitmap);
      return false, 0;
    }

    /** The end of cache_alloc: bit `bi` of the bitmap block from block `b` on is set, and
        the block is zeroed. */
    method TakeBlock(b: nat, bi: nat)
      requires Tracked() && MetadataMarked(sb, bitmap) && b % BIT_PER_BLOCK == 0 && bi < BIT_PER_BLOCK
      requires b + bi < sb.numBlocks && ValidBitmap(sb, bitmap) && !Used(bitmap, b + bi)
      modifies this`blocks, this`bitmap, this`image, this`synced
      ensures Tracked() && ValidBitmap(sb, bitmap) && ValidBitmap(sb, old(bitmap))
      ensures bitmap == Mark(old(bitmap), b + bi) && FreeCount(sb, bitmap) + 1 == FreeCount(sb, old(bitmap))
      ensures FreeCount(sb, old(bitmap)) > 0 && (b + bi) / BIT_PER_BLOCK < |bitmap|
      ensures blocks == old(blocks)[b + bi := ZeroBlock()]
      ensures synced == old(synced)
        + [Sync(BitmapBlock(sb, b + bi), bitmap[(b + bi) / BIT_PER_BLOCK]), Sync(b + bi, ZeroBlock())]
      ensures Numbers(synced) == Numbers(old(synced)) + {BitmapBlock(sb, b + bi), b + bi}
    {
      hide Bit, Mask, WithBit, Mark, Used, Agrees, Applied, Numbers, FreeCount;
      AgreesShape(sb, image, blocks, bitmap, dinode);
      BitPlace(bitmap, b, bi);
      FreeAfterMark(sb, bitmap, b + bi);
      var k := b / BIT_PER_BLOCK;
      var data := bitmap[k][bi / 8 := WithBit(bitmap[k][bi / 8], bi % 8)];
      SyncBitmap(sb, image, blocks, bitmap, dinode, k, data);
      bitmap := bitmap[k := data];
      SyncBlock(sb.bitmapStart + k, data);
      SyncData(sb, image, blocks, bitmap, dinode, b + bi, ZeroBlock());
      blocks := blocks[b + bi := ZeroBlock()];
      SyncBlock(b + bi, ZeroBlock());
    }

    /** cache_free: it panics exactly when the block is not in use. */
    method CacheFree(b: nat) returns (ok: bool)
      requires Tracked() && b < BIT_PER_BLOCK * |bitmap|
      modifies this`bitmap, this`image, this`synced
      ensures Tracked() && (ok <==> old(Used(bitmap, b)))
      ensures ok ==> bitmap == Unmark(old(bitmap), b) && b / BIT_PER_BLOCK < |bitmap|
      ensures ok ==> synced == old(synced) + [Sync(BitmapBlock(sb, b), bitmap[b / BIT_PER_BLOCK])]
      ensures ok ==> Numbers(synced) == Numbers(old(synced)) + {BitmapBlock(sb, b)}
      ensures !ok ==> unchanged(`bitmap) && unchanged(`image) && unchanged(`synced)
    {
      hide Agrees, Applied, Numbers, Bit, WithoutBit, Used, Unmark;
      AgreesShape(sb, image, blocks, bitmap, dinode);
      var data := bitmap[b / BIT_PER_BLOCK];
      var bi := b % BIT_PER_BLOCK;
      ClearPlace(bitmap, b);
      if !Bit(data[bi / 8], bi % 8) {
        return false;
      }
      var k := b / BIT_PER_BLOCK;
      data := data[bi / 8 := WithoutBit(data[bi / 8], bi % 8)];
      SyncBitmap(sb, image, blocks, bitmap, dinode, k, data);
      bitmap := bitmap[k := data];
      SyncBlock(sb.bitmapStart + k, data);
      return true;
    }

    /** What inode_map does: place `k` of the file holds the block `addr`, a new one if
        there was none, and nothing else about this or any other file changes. */
    twostate predicate MappedAt(ino: nat, k: nat, addr: nat)
      requires k < INODE_MAX_BLOCKS && ino < old(|mem|)
      reads this
    {
      var e := old(mem)[ino];
      && |mem| == old(|mem|)
      && (forall i :: 0 <= i < |mem| && i != ino ==> mem[i] == old(mem)[i])
      && mem[ino] == e.(addrs := mem[ino].addrs, indirect := mem[ino].indirect)
      && Owned(sb, blocks, bitmap, mem, {})
      && addr == Addr(blocks, mem[ino], k) && 0 < addr < |blocks|
      && SlotGained(old(blocks), blocks, e, mem[ino], k)
      && (forall i :: 0 <= i < |mem| && i != ino ==> SameFile(old(blocks), blocks, mem[i]))
      && (k < INODE_NUM_DIRECT || e.indirect != 0 ==> mem[ino].indirect == e.indirect)
      && (if Addr(old(blocks), e, k) != 0 then
            && addr == Addr(old(blocks), e, k) && mem == old(mem) && synced == old(synced)
            && blocks == old(blocks) && bitmap == old(bitmap)
          else
            && Numbers(synced) == Numbers(old(synced)) + {BitmapBlock(sb, addr), addr}
              + (if k >= INODE_NUM_DIRECT then {mem[ino].indirect} else {})
              + (if k >= INODE_NUM_DIRECT && e.indirect == 0 then {BitmapBlock(sb, mem[ino].indirect)} else {}))
    }

    /** The same for callers who ask for a block that the file has or for the next
        one. */
    twostate predicate Mapped(ino: nat, k: nat, n: nat, addr: nat)
      requires k <= n && k < INODE_MAX_BLOCKS && n <= INODE_MAX_BLOCKS
      reads this
    {
      && |mem| == old(|mem|) && ino < |mem|
      && (forall i :: 0 <= i < |mem| && i != ino ==> mem[i] == old(mem)[i])
      && mem[ino] == old(mem)[ino].(addrs := mem[ino].addrs, indirect := mem[ino].indirect)
      && Owned(sb, blocks, bitmap, mem, {})
      && Extent(blocks, mem[ino], if k < n then n else n + 1)
      && addr == Addr(blocks, mem[ino], k) && 0 < addr < |blocks|
      && SamePrefix(old(blocks), blocks, old(mem)[ino], mem[ino], n)
      && (forall i :: 0 <= i < |mem| && i != ino ==> SameFile(old(blocks), blocks, mem[i]))
      && (k < n ==> mem == old(mem) && synced == old(synced))
      && (k == n ==>
        Numbers(synced) <= Numbers(old(synced)) + {BitmapBlock(sb, addr), addr}
          + (if k >= INODE_NUM_DIRECT then {mem[ino].indirect} else {})
          + (if k == INODE_NUM_DIRECT then {BitmapBlock(sb, mem[ino].indirect)} else {}))
      && (k == n && k >= INODE_NUM_DIRECT ==> mem[ino].indirect in Numbers(synced))
      && (INODE_NUM_DIRECT < n ==> mem[ino].indirect == old(mem)[ino].indirect)
      && Numbers(old(synced)) <= Numbers(synced)
    }

    /** The second half of inode_map: a new block behind the indirect block. */
    method MapSecond(ino: nat, k: nat) returns (ok: bool, addr: nat)
      requires Tracked() && Owned(sb, blocks, bitmap, mem, {}) && ino < |mem| && INODE_NUM_DIRECT <= k < INODE_MAX_BLOCKS
      requires 0 < mem[ino].indirect < |blocks| && Addr(blocks, mem[ino], k) == 0
      modifies this`blocks, this`bitmap, this`image, this`synced
      ensures ok <==> old(FreeCount(sb, bitmap)) > 0
      ensures ok ==>
        && Tracked() && Owned(sb, blocks, bitmap, mem, {}) && FreeCount(sb, bitmap) + 1 == old(FreeCount(sb, bitmap))
        && addr == Addr(blocks, mem[ino], k) && 0 < addr < |blocks|
        && SlotGained(old(blocks), blocks, mem[ino], mem[ino], k)
        && (forall i :: 0 <= i < |mem| && i != ino ==> SameFile(old(blocks), blocks, mem[i]))
        && Numbers(synced) == Numbers(old(synced)) + {BitmapBlock(sb, addr), addr} + {mem[ino].indirect}
    {
      hide Owned, Agrees, Applied, Numbers, FreeCount, Mark;
      OwnedShape(sb, blocks, bitmap, mem, ino, k);
      ok, addr := CacheAlloc();
      if ok {
        MapWord(sb, old(blocks), old(bitmap), mem, ino, k, addr);
        var a := mem[ino].indirect;
        var data := SetWord(blocks[a], k - INODE_NUM_DIRECT, addr);
        AgreesShape(sb, image, blocks, bitmap, dinode);
        SyncData(sb, image, blocks, bitmap, dinode, a, data);
        blocks := blocks[a := data];
        SyncBlock(a, data);
      }
    }

    /** The first half of inode_map for an indirect index: the indirect block. */
    method MapFirst(ino: nat) returns (ok: bool)
      requires Tracked() && Owned(sb, blocks, bitmap, mem, {}) && ino < |mem| && mem[ino].indirect == 0
      modifies this`blocks, this`bitmap, this`mem, this`image, this`synced
      ensures ok <==> old(FreeCount(sb, bitmap)) > 0
      ensures ok ==>
        && Tracked() && |mem| == old(|mem|) && mem == old(mem)[ino := old(mem)[ino].(indirect := mem[ino].indirect)]
        && Owned(sb, blocks, bitmap, mem, {}) && 0 < mem[ino].indirect < |blocks|
        && FreeCount(sb, bitmap) + 1 == old(FreeCount(sb, bitmap))
        && (forall k: nat :: k < INODE_MAX_BLOCKS ==>
              SlotGained(old(blocks), blocks, old(mem)[ino], mem[ino], k)
              && Addr(blocks, mem[ino], k) == Addr(old(blocks), old(mem)[ino], k))
        && (forall i :: 0 <= i < |mem| && i != ino ==> SameFile(old(blocks), blocks, mem[i]))
        && Numbers(synced) == Numbers(old(synced)) + {BitmapBlock(sb, mem[ino].indirect), mem[ino].indirect}
    {
      hide Owned, SlotGained, Agrees, Applied, Numbers, FreeCount, Mark;
      OwnedShape(sb, blocks, bitmap, mem, ino, 0);
      var addr;
      ok, addr := CacheAlloc();
      if ok {
        MapIndirect(sb, old(blocks), old(bitmap), mem, ino, addr);
        mem := mem[ino := mem[ino].(indirect := addr)];
      }
    }

    /** inode_map.  It panics (`ok` is false) exactly when the index is out of bound or
        fewer blocks are free than it needs. */
    method InodeMap(ino: nat, k: nat) returns (ok: bool, addr: nat)
      requires Tracked() && Owned(sb, blocks, bitmap, mem, {}) && ino < |mem|
      modifies this`blocks, this`bitmap, this`mem, this`image, this`synced
      ensures ok <==> k < INODE_MAX_BLOCKS && old(FreeCount(sb, bitmap)) >= NewBlocks(old(blocks), old(mem)[ino], k)
      ensures ok ==> Tracked() && MappedAt(ino, k, addr)
      ensures ok ==>
        FreeCount(sb, bitmap) + NewBlocks(old(blocks), old(mem)[ino], k) == old(FreeCount(sb, bitmap))
    {
      hide Owned, SlotGained, Agrees, Applied, Numbers, FreeCount, Mark;
      var e := mem[ino];
      if k >= INODE_MAX_BLOCKS {
        return false, 0;
      }
      OwnedShape(sb, blocks, bitmap, mem, ino, k);
      SameBlocks(blocks, mem);
      if k < INODE_NUM_DIRECT {
        addr := e.addrs[k];
        ok := true;
        if addr == 0 {
          ok, addr := CacheAlloc();
          if ok {
            MapDirect(sb, old(blocks), old(bitmap), mem, ino, k, addr);
            mem := mem[ino := e.(addrs := e.addrs[k := addr])];
          }
        }
        return;
      }
      if e.indirect == 0 {
        addr := 0;
        ok := MapFirst(ino);
        if ok {
          ghost var blocks1 := blocks;
          ok, addr := MapSecond(ino, k);
          if ok {
            forall i | 0 <= i < |mem| && i != ino ensures SameFile(old(blocks), blocks, mem[i]) {
              SameFileTrans(old(blocks), blocks1, blocks, mem[i]);
            }
            GainedTrans(old(blocks), blocks1, blocks, old(mem)[ino], mem[ino], mem[ino], k);
          }
        }
        return;
      }
      assert Addr(blocks, e, k) == Word(blocks[e.indirect], k - INODE_NUM_DIRECT);
      addr := Word(blocks[e.indirect], k - INODE_NUM_DIRECT);
      ok := true;
      if addr == 0 {
        ok, addr := MapSecond(ino, k);
      }
    }

    /** inode_map as its callers see it: what it means for a file that has exactly `n`
        blocks. */
    method MapFileBlock(ino: nat, k: nat, ghost n: nat) returns (ok: bool, addr: nat)
      requires Tracked() && Owned(sb, blocks, bitmap, mem, {}) && ino < |mem|
      modifies this`blocks, this`bitmap, this`mem, this`image, this`synced
      ensures ok <==> k < INODE_MAX_BLOCKS && old(FreeCount(sb, bitmap)) >= NewBlocks(old(blocks), old(mem)[ino], k)
      ensures ok ==> Tracked() && MappedAt(ino, k, addr)
      ensures old(Extent(blocks, mem[ino], n)) && k <= n && k < INODE_MAX_BLOCKS ==>
        && n <= INODE_MAX_BLOCKS
        && (ok <==> old(FreeCount(sb, bitmap)) >= Growth(n, k + 1))
        && (ok ==> FreeCount(sb, bitmap) + Growth(n, k + 1) == old(FreeCount(sb, bitmap)))
        && (ok ==> Mapped(ino, k, n, addr))
        && (ok && k < n ==> blocks == old(blocks) && bitmap == old(bitmap) && image == old(image))
    {
      hide Owned, SameFile, SlotGained, Agrees, Applied, Numbers, FreeCount;
      OwnedShape(sb, blocks, bitmap, mem, ino, 0);
      ok, addr := InodeMap(ino, k);
      if old(Extent(blocks, mem[ino], n)) && k <= n && k < INODE_MAX_BLOCKS {
        GrowthOfOne(old(blocks), old(mem)[ino], k, n);
        if ok {
          GainedExtent(old(blocks), blocks, old(mem)[ino], mem[ino], k, n);
        }
      }
    }

    /** One round of inode_read: `m` bytes of the block that holds the offset. */
    method ReadChunk(ino: nat, off: nat, m: nat) returns (piece: seq<Byte>)
      requires Valid() && ino < |mem| && FileShape(blocks, mem[ino])
      requires 0 < m <= BLOCK_SIZE - off % BLOCK_SIZE && off + m <= mem[ino].numBytes
      modifies this`blocks, this`bitmap, this`mem, this`image, this`synced
      ensures Valid() && blocks == old(blocks) && bitmap == old(bitmap)
      ensures mem == old(mem) && image == old(image) && synced == old(synced)
      ensures |piece| == m && forall p :: 0 <= p < m ==> piece[p] == ByteAt(blocks, mem[ino], off + p)
    {
      hide Owned, SameFile, SamePrefix, Extent, Agrees, Applied, Numbers, FreeCount, MappedAt, NewBlocks, BlocksFor;
      var k, at := off / BLOCK_SIZE, off % BLOCK_SIZE;
      HasBlock(off, mem[ino].numBytes);
      var good, addr := MapFileBlock(ino, k, BlocksFor(mem[ino].numBytes));
      piece := blocks[addr][at..at + m];
      forall p | 0 <= p < m ensures piece[p] == ByteAt(blocks, mem[ino], off + p) {
        WithinBlock(off, p);
      }
    }

    /** inode_read.  A device is the console exactly when its major number is 1, and
        otherwise an assertion fails.  On a regular file or directory the assertions
        fail exactly when the offset is past the end of the file or offset + count
        does not fit in a usize; otherwise it returns the bytes from offset on, up to
        count or the end of the file. */
    method InodeRead(ino: nat, offset: nat, count: nat) returns (res: ReadOutcome)
      requires Valid() && ino < |mem|
      requires offset < USIZE_LIMIT && count < USIZE_LIMIT
      modifies this`blocks, this`bitmap, this`mem, this`image, this`synced
      ensures Valid() && blocks == old(blocks) && bitmap == old(bitmap)
      ensures mem == old(mem) && image == old(image) && synced == old(synced)
      ensures mem[ino].kind == INODE_DEVICE ==> res == if mem[ino].major == CONSOLE then FromConsole else ReadPanic
      ensures mem[ino].kind != INODE_DEVICE ==>
        !res.FromConsole? && (res.Data? <==> offset <= mem[ino].numBytes && offset + count < USIZE_LIMIT)
      ensures res.Data? ==>
        var file := FileBytes(blocks, mem[ino]);
        res.bytes == file[offset..if offset + count <= |file| then offset + count else |file|]
    {
      hide Owned, SameFile, Extent, Agrees, Applied, ByteAt;
      if mem[ino].kind == INODE_DEVICE {
        return if mem[ino].major == CONSOLE then FromConsole else ReadPanic;
      }
      var size := mem[ino].numBytes;
      assert FileShape(blocks, mem[ino]);
      var cnt := ReadCount(offset, count, size);
      var end := (offset + cnt) % USIZE_LIMIT;
      ReadBounds(offset, count, size);
      if !(offset <= size && end <= size && offset <= end) {
        return ReadPanic;
      }
      var dest := [];
      var tot, off := 0, offset;
      while tot < cnt
        invariant 0 <= tot <= cnt && off == offset + tot && |dest| == tot
        invariant blocks == old(blocks) && bitmap == old(bitmap)
        invariant mem == old(mem) && image == old(image) && synced == old(synced)
        invariant forall p :: 0 <= p < tot ==> dest[p] == ByteAt(blocks, mem[ino], offset + p)
      {
        var at := off % BLOCK_SIZE;
        var m := if cnt - tot <= BLOCK_SIZE - at then cnt - tot else BLOCK_SIZE - at;
        var piece := ReadChunk(ino, off, m);
        dest := dest + piece;
        tot, off := tot + m, off + m;
      }
      return Data(dest);
    }

    /** One round of inode_write: find or allocate block off / 512 of a file that
        has `n` blocks, and copy `chunk` to its place in that block. */
    method WriteChunk(ino: nat, chunk: seq<Byte>, off: nat, ghost n: nat) returns (ok: bool)
      requires Tracked() && Owned(sb, blocks, bitmap, mem, {}) && ino < |mem| && Extent(blocks, mem[ino], n)
      requires off < INODE_MAX_BYTES && off / BLOCK_SIZE <= n && 0 < |chunk| <= BLOCK_SIZE - off % BLOCK_SIZE
      modifies this`blocks, this`bitmap, this`mem, this`image, this`synced
      ensures ok <==> old(FreeCount(sb, bitmap)) >= Growth(n, off / BLOCK_SIZE + 1)
      ensures ok ==> Tracked() && ChunkDone(sb, old(blocks), old(mem), blocks, bitmap, mem, ino, chunk, off, n)
      ensures ok ==> FreeCount(sb, bitmap) + Growth(n, off / BLOCK_SIZE + 1) == old(FreeCount(sb, bitmap))
      ensures ok ==>
        && ino < |mem|
        && SyncGrows(Numbers(old(synced)), Numbers(synced), old(mem)[ino], mem[ino], off / BLOCK_SIZE, n)
    {
      hide Owned, SameFile, SamePrefix, Extent, Agrees, Applied, Numbers, FreeCount;
      hide SyncGrows, Growth, NewBlocks, MappedAt, ByteAt, Addr, MetadataMarked, Patched, OthersKept, ChunkDone;
      var k := off / BLOCK_SIZE;
      var addr;
      ok, addr := MapFileBlock(ino, k, n);
      if !ok {
        return;
      }
      ghost var synced1, e := synced, mem[ino];
      var data := Patched(blocks[addr], off % BLOCK_SIZE, chunk);
      OwnedShape(sb, blocks, bitmap, mem, ino, k);
      KeptByMap(old(blocks), old(mem), blocks, mem, ino);
      PatchDone(sb, old(blocks), old(mem), blocks, bitmap, mem, ino, chunk, off, n);
      AgreesShape(sb, image, blocks, bitmap, dinode);
      SyncData(sb, image, blocks, bitmap, dinode, addr, data);
      blocks := blocks[addr := data];
      SyncBlock(addr, data);
      SyncStep(Numbers(old(synced)), Numbers(synced1), old(mem)[ino], e, sb, k, n, addr);
    }

    /** The loop of inode_write, for a file with `n0` blocks: it fails exactly when fewer
        blocks are free than the file must grow by. */
    method WriteLoop(ino: nat, src: seq<Byte>, offset: nat, ghost n0: nat) returns (ok: bool, off: nat)
      requires Tracked() && Owned(sb, blocks, bitmap, mem, {}) && ino < |mem| && Extent(blocks, mem[ino], n0)
      requires offset <= BLOCK_SIZE * n0 && offset + |src| <= INODE_MAX_BYTES
      modifies this`blocks, this`bitmap, this`mem, this`image, this`synced
      ensures var n := if src == [] then n0 else Max(n0, BlocksFor(offset + |src|));
        && (ok <==> old(FreeCount(sb, bitmap)) >= Growth(n0, n))
        && (ok ==>
          && off == offset + |src| && Tracked()
          && Writing(sb, old(blocks), old(mem), blocks, bitmap, mem, ino, n0, n, offset, src, |src|)
          && FreeCount(sb, bitmap) + Growth(n0, n) == old(FreeCount(sb, bitmap))
          && |Numbers(synced)| <= |Numbers(old(synced))| + Touched(offset, |src|) + (n - n0) + 2)
    {
      hide Owned, SameFile, Extent, ByteAt, BlocksFor, Touched, Agrees, Applied, Numbers, FreeCount, Growth;
      hide SyncGrows, Writing, ChunkDone;
      ghost var n, ind := n0, 0;
      ghost var all := if src == [] then n0 else Max(n0, BlocksFor(offset + |src|));
      var tot := 0;
      off := offset;
      StartWriting(sb, blocks, bitmap, mem, ino, n0, offset, src);
      NothingTouched(offset);
      GrowthAdds(n0, n0, n0);
      while tot < |src|
        invariant 0 <= tot <= |src| && off == offset + tot
        invariant n == if tot == 0 then n0 else Max(n0, BlocksFor(off))
        invariant 0 < tot < |src| ==> off % BLOCK_SIZE == 0
        invariant Tracked() && ino < |mem|
        invariant Writing(sb, old(blocks), old(mem), blocks, bitmap, mem, ino, n0, n, offset, src, tot)
        invariant FreeCount(sb, bitmap) + Growth(n0, n) == old(FreeCount(sb, bitmap))
        invariant SyncCost(Numbers(old(synced)), Numbers(synced), mem[ino], ind, n, n0, Touched(offset, tot))
      {
        ghost var blocks1, mem1, bitmap1, synced1 := blocks, mem, bitmap, synced;
        var at := off % BLOCK_SIZE;
        var m := if |src| - tot <= BLOCK_SIZE - at then |src| - tot else BLOCK_SIZE - at;
        WriteArithmetic(offset, tot, m, n, n0, offset + |src|);
        ghost var k := off / BLOCK_SIZE;
        GrowthAdds(n0, n, Max(n, k + 1));
        GrowthAdds(n0, Max(n, k + 1), all);
        GrowthOfNext(n, k);
        WritingShape(sb, old(blocks), old(mem), blocks, bitmap, mem, ino, n0, n, offset, src, tot);
        ok := WriteChunk(ino, src[tot..tot + m], off, n);
        if !ok {
          return;
        }
        WritingMore(sb, old(blocks), old(mem), blocks1, mem1, blocks, bitmap, mem, ino, n0, n, offset, src, tot, m,
                    bitmap1);
        ind := CostMore(Numbers(old(synced)), Numbers(synced1), Numbers(synced), mem1[ino], mem[ino], ind, k, n, n0,
                        Touched(offset, tot));
        n := Max(n, k + 1);
        tot, off := tot + m, off + m;
      }
      ok := true;
    }

    /** inode_write of the first `count` bytes of `src`, which must exist if any
        count that passes the assertions is to be written.  A device is the console
        exactly when its major number is 1, and otherwise an assertion fails.  On a
        regular file or directory it panics exactly when the range does not fit or
        fewer blocks are free than the file must grow by, where the first block
        behind the direct ones also takes the indirect block.  It splices the bytes
        into the file, leaves every other file alone, keeps memory and disk equal, and
        for at most 1536 bytes syncs at most ten blocks, the tenth last. */
    method InodeWrite(ino: nat, src: seq<Byte>, offset: nat, count: nat) returns (res: WriteOutcome)
      requires Valid() && ino < |mem| && offset < USIZE_LIMIT && count < USIZE_LIMIT
      requires count <= INODE_MAX_BYTES ==> count <= |src|
      modifies this`blocks, this`bitmap, this`dinode, this`mem, this`image, this`synced
      ensures old(mem[ino].kind) == INODE_DEVICE ==>
        && res == (if old(mem[ino].major) == CONSOLE then ToConsole else WritePanic)
        && mem == old(mem) && blocks == old(blocks) && bitmap == old(bitmap) && dinode == old(dinode)
        && image == old(image) && synced == old(synced)
      ensures old(mem[ino].kind) != INODE_DEVICE ==> !res.ToConsole?
      ensures old(mem[ino].kind) != INODE_DEVICE ==>
        (res == Stored <==> old(offset <= mem[ino].numBytes && offset + count <= INODE_MAX_BYTES
                                && FreeCount(sb, bitmap) >= WriteNeeds(mem[ino].numBytes, offset + count)))
      ensures res == Stored ==>
        && Valid() && |mem| == old(|mem|)
        && FreeCount(sb, bitmap) + old(WriteNeeds(mem[ino].numBytes, offset + count)) == old(FreeCount(sb, bitmap))
        && FileBytes(blocks, mem[ino]) == Splice(old(FileBytes(blocks, mem[ino])), offset, src[..count])
        && mem[ino] == old(mem[ino]).(addrs := mem[ino].addrs, indirect := mem[ino].indirect,
                                      numBytes := mem[ino].numBytes)
        && OthersKept(old(blocks), old(mem), blocks, mem, ino)
      ensures res == Stored && old(synced) == [] && count <= 1536 ==> |Numbers(synced)| <= 10 && TenthIsLast(synced)
    {
      hide Agrees, Applied, Numbers, FreeCount, WriteNeeds, TenthIsLast;
      var end := (offset + count) % USIZE_LIMIT;
      if mem[ino].kind == INODE_DEVICE {
        return if mem[ino].major == CONSOLE then ToConsole else WritePanic;
      }
      assert FileShape(blocks, mem[ino]);
      WriteBounds(offset, count, mem[ino].numBytes);
      if !(offset <= mem[ino].numBytes && end <= INODE_MAX_BYTES && offset <= end) {
        return WritePanic;
      }
      var ok := WriteFile(ino, src[..count], offset);
      return if ok then Stored else WritePanic;
    }

    /** The rest of inode_write, behind its assertions. */
    method WriteFile(ino: nat, src: seq<Byte>, offset: nat) returns (ok: bool)
      requires Valid() && ino < |mem|
      requires offset <= mem[ino].numBytes && offset + |src| <= INODE_MAX_BYTES
      modifies this`blocks, this`bitmap, this`dinode, this`mem, this`image, this`synced
      ensures ok <==> old(FreeCount(sb, bitmap) >= WriteNeeds(mem[ino].numBytes, offset + |src|))
      ensures ok ==>
        && Valid() && |mem| == old(|mem|)
        && FreeCount(sb, bitmap) + old(WriteNeeds(mem[ino].numBytes, offset + |src|)) == old(FreeCount(sb, bitmap))
        && FileBytes(blocks, mem[ino]) == Splice(old(FileBytes(blocks, mem[ino])), offset, src)
        && mem[ino] == old(mem[ino]).(addrs := mem[ino].addrs, indirect := mem[ino].indirect,
                                      numBytes := mem[ino].numBytes)
        && OthersKept(old(blocks), old(mem), blocks, mem, ino)
      ensures ok && old(synced) == [] && |src| <= 1536 ==> |Numbers(synced)| <= 10 && TenthIsLast(synced)
    {
      hide Owned, SameFile, Extent, ByteAt, Written, Touched, FileBytes, Splice;
      hide Agrees, Applied, Numbers, FreeCount, Growth, TenthIsLast, FieldsFit;
      var size := mem[ino].numBytes;
      assert FileShape(blocks, mem[ino]);
      ghost var n0 := BlocksFor(size);
      ghost var e0 := mem[ino];
      var off;
      ok, off := WriteLoop(ino, src, offset, n0);
      EndArithmetic(offset, |src|, size, if src == [] then n0 else Max(n0, BlocksFor(offset + |src|)));
      if !ok {
        return;
      }
      ghost var n := if src == [] then n0 else Max(n0, BlocksFor(offset + |src|));
      FewPrefixes(synced, synced);
      ghost var loop := synced;
      ResizedBytes(blocks, mem[ino].(numBytes := off), e0, off, old(blocks), n0, offset, src);
      if |src| > 0 && off > size {
        ResizeKeeps(sb, blocks, bitmap, mem, ino, off, n);
        FieldsKept(sb, image, blocks, bitmap, dinode, mem, ino, mem[ino].(numBytes := off));
        mem := mem[ino := mem[ino].(numBytes := off)];
        InodeSync(ino);
        FewPrefixes(loop, synced);
      }
      SplicedBytes(old(blocks), e0, blocks, mem[ino], offset, src);
      forall i | 0 <= i < |mem| ensures FileShape(blocks, mem[i]) {
        if i != ino {
          assert FileShape(old(blocks), old(mem)[i]);
          SameExtent(old(blocks), blocks, mem[i], BlocksFor(mem[i].numBytes));
        }
      }
    }

    /** inode_sync with do_write: the entry in memory goes to its inode block. */
    method InodeSync(ino: nat)
      requires Tracked() && ino < |mem| && ino < |dinode| && FieldsFit(mem[ino])
      modifies this`dinode, this`image, this`synced
      ensures Tracked() && dinode == old(dinode)[ino := mem[ino]]
      ensures |synced| == |old(synced)| + 1 && synced[..|old(synced)|] == old(synced)
      ensures synced[|old(synced)|].block == InodeBlock(sb, ino)
      ensures Numbers(synced) == Numbers(old(synced)) + {InodeBlock(sb, ino)}
    {
      hide Agrees, Applied, Numbers, FieldsFit;
      SyncEntry(ino, mem[ino]);
    }

    /** Entry `e` goes to the place of inode `ino` in its block, and the block is synced. */
    method SyncEntry(ino: nat, e: Entry)
      requires Tracked() && ino < |dinode| && FieldsFit(e)
      modifies this`dinode, this`image, this`synced
      ensures Tracked() && dinode == old(dinode)[ino := e]
      ensures |synced| == |old(synced)| + 1 && synced[..|old(synced)|] == old(synced)
      ensures synced[|old(synced)|].block == InodeBlock(sb, ino)
      ensures Numbers(synced) == Numbers(old(synced)) + {InodeBlock(sb, ino)}
    {
      hide Agrees, Applied, Numbers;
      SyncInode(sb, image, blocks, bitmap, dinode, ino, e);
      var b := InodeBlock(sb, ino);
      dinode := dinode[ino := e];
      SyncBlock(b, PutEntry(image[b], ino % INODE_PER_BLOCK, e));
    }

    /** The indirect part of inode_clear: the blocks behind the indirect block in
        order, then the indirect block.  `e` is the inode and `tab` the table
        without its pointers. */
    method ClearIndirect(a: nat, ghost e: Entry, ghost tab: Table, ghost before: Bitmap, ghost sync0: set<nat>)
      returns (ok: bool)
      requires Tracked() && ValidEntry(e) && 0 < e.indirect == a < |blocks| && ValidBitmap(sb, before)
      requires DistinctSlots(blocks, e)
      requires Owned(sb, blocks, bitmap, tab, SlotsFrom(blocks, e, INODE_NUM_DIRECT))
      requires FreedExcept(sb, before, bitmap, BlocksOf(blocks, e), SlotsFrom(blocks, e, INODE_NUM_DIRECT))
      requires FreedSyncs(sb, sync0, Numbers(synced), BlocksOf(blocks, e), SlotsFrom(blocks, e, INODE_NUM_DIRECT))
      modifies this`bitmap, this`image, this`synced
      ensures ok && Tracked() && Owned(sb, blocks, bitmap, tab, {})
      ensures FreedExcept(sb, before, bitmap, BlocksOf(blocks, e), {})
      ensures FreedSyncs(sb, sync0, Numbers(synced), BlocksOf(blocks, e), {})
    {
      hide Owned, SlotsFrom, BlocksOf, Used, Word, FreedExcept, DistinctSlots, Unmark;
      hide Agrees, Applied, Numbers, FreedSyncs;
      var i := 0;
      ok := true;
      while i < INODE_NUM_INDIRECT
        invariant 0 <= i <= INODE_NUM_INDIRECT && ok && Tracked()
        invariant Owned(sb, blocks, bitmap, tab, SlotsFrom(blocks, e, INODE_NUM_DIRECT + i))
        invariant FreedExcept(sb, before, bitmap, BlocksOf(blocks, e), SlotsFrom(blocks, e, INODE_NUM_DIRECT + i))
        invariant FreedSyncs(sb, sync0, Numbers(synced), BlocksOf(blocks, e), SlotsFrom(blocks, e, INODE_NUM_DIRECT + i))
      {
        NextSlot(blocks, e, INODE_NUM_DIRECT + i);
        assert Addr(blocks, e, INODE_NUM_DIRECT + i) == Word(blocks[a], i);
        var b := Word(blocks[a], i);
        if b != 0 {
          FreeSlot(sb, blocks, before, bitmap, tab, BlocksOf(blocks, e), SlotsFrom(blocks, e, INODE_NUM_DIRECT + i), b);
          FreeSyncs(sb, sync0, Numbers(synced), BlocksOf(blocks, e), SlotsFrom(blocks, e, INODE_NUM_DIRECT + i), b);
          ok := CacheFree(b);
        }
        i := i + 1;
      }
      NextSlot(blocks, e, INDIRECT_SLOT);
      NoSlots(blocks, e);
      FreeSlot(sb, blocks, before, bitmap, tab, BlocksOf(blocks, e), SlotsFrom(blocks, e, INDIRECT_SLOT), a);
      FreeSyncs(sb, sync0, Numbers(synced), BlocksOf(blocks, e), SlotsFrom(blocks, e, INDIRECT_SLOT), a);
      ok := CacheFree(a);
    }

    /** inode_clear: every `cache->free` succeeds, the blocks that become free are
        exactly those that the inode pointed to, and the blocks synced are exactly
        their bitmap blocks and the inode block. */
    method InodeClear(ino: nat) returns (ok: bool)
      requires Valid() && ino < |mem|
      modifies this`bitmap, this`dinode, this`mem, this`image, this`synced
      ensures ok && Valid()
      ensures mem == old(mem)[ino := Truncated(old(mem)[ino])]
      ensures mem[ino] == old(mem)[ino].(addrs := seq(12, _ => 0), indirect := 0, numBytes := 0)
      ensures dinode == old(dinode)[ino := mem[ino]]
      ensures ValidBitmap(sb, old(bitmap)) && FreedExcept(sb, old(bitmap), bitmap, BlocksOf(blocks, old(mem)[ino]), {})
      ensures Numbers(synced) ==
        Numbers(old(synced)) + BitmapBlocks(sb, BlocksOf(blocks, old(mem)[ino])) + {InodeBlock(sb, ino)}
    {
      hide Owned, SlotsFrom, BlocksOf, Used, Extent, FreedExcept, DistinctSlots, Unmark;
      hide Agrees, Applied, Numbers, FreedSyncs, FieldsFit, BitmapBlocks;
      ghost var e := mem[ino];
      ghost var tab := mem[ino := Truncated(e)];
      ClearStarts(sb, blocks, bitmap, mem, ino);
      NoSyncs(sb, Numbers(synced), BlocksOf(blocks, e));
      ok := true;
      var i := 0;
      while i < INODE_NUM_DIRECT
        invariant 0 <= i <= INODE_NUM_DIRECT && ok && Tracked() && |mem| == |old(mem)| && dinode == old(dinode)
        invariant mem == old(mem)[ino := e.(addrs := mem[ino].addrs)]
        invariant forall k :: 0 <= k < INODE_NUM_DIRECT ==> mem[ino].addrs[k] == if k < i then 0 else e.addrs[k]
        invariant Owned(sb, blocks, bitmap, tab, SlotsFrom(blocks, e, i))
        invariant FreedExcept(sb, old(bitmap), bitmap, BlocksOf(blocks, e), SlotsFrom(blocks, e, i))
        invariant FreedSyncs(sb, Numbers(old(synced)), Numbers(synced), BlocksOf(blocks, e), SlotsFrom(blocks, e, i))
      {
        NextSlot(blocks, e, i);
        var a := mem[ino].addrs[i];
        if a != 0 {
          FreeSlot(sb, blocks, old(bitmap), bitmap, tab, BlocksOf(blocks, e), SlotsFrom(blocks, e, i), a);
          FreeSyncs(sb, Numbers(old(synced)), Numbers(synced), BlocksOf(blocks, e), SlotsFrom(blocks, e, i), a);
          ok := CacheFree(a);
          mem := mem[ino := mem[ino].(addrs := mem[ino].addrs[i := 0])];
        }
        i := i + 1;
      }
      if mem[ino].indirect != 0 {
        ok := ClearIndirect(mem[ino].indirect, e, tab, old(bitmap), Numbers(old(synced)));
        mem := mem[ino := mem[ino].(indirect := 0)];
      } else {
        NoIndirect(blocks, e);
      }
      AllSynced(sb, Numbers(old(synced)), Numbers(synced), BlocksOf(blocks, e));
      mem := mem[ino := mem[ino].(numBytes := 0)];
      assert mem[ino].addrs == Truncated(e).addrs;
      assert mem == tab;
      InodesFit(sb, image, blocks, bitmap, dinode, ino);
      TruncatedFits(e);
      InodeSync(ino);
      ClearedShape(blocks, old(mem), ino);
    }

    /** What inode_put does to the last handle of an inode without links: the
        inode becomes free on disk and its blocks become free. */
    method InodeFree(ino: nat)
      requires Valid() && ino < |mem|
      modifies this`bitmap, this`dinode, this`mem, this`image, this`synced
      ensures Valid()
      ensures mem == old(mem)[ino := Truncated(old(mem)[ino]).(kind := INODE_INVALID)]
      ensures mem[ino] == old(mem)[ino].(kind := 0, addrs := seq(12, _ => 0), indirect := 0, numBytes := 0)
      ensures dinode == old(dinode)[ino := mem[ino]]
      ensures ValidBitmap(sb, old(bitmap)) && FreedExcept(sb, old(bitmap), bitmap, BlocksOf(blocks, old(mem)[ino]), {})
      ensures Numbers(synced) ==
        Numbers(old(synced)) + BitmapBlocks(sb, BlocksOf(blocks, old(mem)[ino])) + {InodeBlock(sb, ino)}
    {
      hide Owned, Extent, FreedExcept, BlocksOf, Agrees, Applied, Numbers, BitmapBlocks, FieldsFit;
      var ok := InodeClear(ino);
      var e := mem[ino].(kind := INODE_INVALID);
      assert FileShape(blocks, mem[ino]);
      SetKindKeeps(sb, blocks, bitmap, mem, ino, INODE_INVALID);
      InodesFit(sb, image, blocks, bitmap, dinode, ino);
      InvalidFits(mem[ino]);
      mem := mem[ino := e];
      InodeSync(ino);
    }

    /** inode_alloc: the lowest free inode in 1..=num_inodes; it panics exactly
        when there is none.  inode_get rejects the result exactly when it is
        num_inodes.  An inode without a handle is read from disk by the next
        inode_get, so `mem` follows the disk. */
    method InodeAlloc(kind: nat) returns (ok: bool, inum: nat)
      requires Valid() && INODE_INVALID < kind < U16_MAX && FreeAreEmpty(mem)
      modifies this`dinode, this`mem, this`image, this`synced
      ensures ok <==> exists i :: 1 <= i <= sb.numInodes && old(dinode)[i].kind == INODE_INVALID
      ensures !ok ==> mem == old(mem) && dinode == old(dinode) && image == old(image) && synced == old(synced)
      ensures Valid() && FreeAreEmpty(mem)
      ensures ok ==>
        && 1 <= inum <= sb.numInodes && old(dinode)[inum].kind == INODE_INVALID
        && (forall i :: 1 <= i < inum ==> old(dinode)[i].kind != INODE_INVALID)
        && dinode == old(dinode)[inum := NewEntry(kind)] && Blank(dinode[inum], kind)
        && Numbers(synced) == Numbers(old(synced)) + {InodeBlock(sb, inum)}
      ensures ok && inum < sb.numInodes ==> mem == old(mem)[inum := NewEntry(kind)]
      ensures ok ==> (inum < sb.numInodes <==> exists i :: 1 <= i < sb.numInodes && old(mem)[i].kind == INODE_INVALID)
    {
      hide Owned, Extent, Agrees, Applied, Numbers, FieldsFit;
      inum := 1;
      while inum <= sb.numInodes
        invariant 1 <= inum && mem == old(mem) && dinode == old(dinode) && image == old(image) && synced == old(synced)
        invariant forall i :: 1 <= i < inum && i <= sb.numInodes ==> dinode[i].kind != INODE_INVALID
      {
        if dinode[inum].kind == INODE_INVALID {
          NewFits(kind);
          SyncEntry(inum, NewEntry(kind));
          if inum < sb.numInodes {
            assert FileShape(blocks, mem[inum]);
            RenewKeeps(sb, blocks, bitmap, mem, inum, kind);
            mem := mem[inum := NewEntry(kind)];
          }
          return true, inum;
        }
        inum := inum + 1;
      }
      return false, 0;
    }
  }

  const INODE_INVALID := 0
  const INODE_DEVICE := 3
  /** The major number of the console. */
  const CONSOLE := 1

  /** The count that inode_read is left with, in usize arithmetic. */
  function ReadCount(offset: nat, count: nat, size: nat): nat {
    if (count + offset) % USIZE_LIMIT > size then (size - offset) % USIZE_LIMIT else count
  }

  lemma ReadBounds(offset: nat, count: nat, size: nat)
    requires offset < USIZE_LIMIT && count < USIZE_LIMIT && size <= INODE_MAX_BYTES
    ensures var cnt := ReadCount(offset, count, size); var end := (offset + cnt) % USIZE_LIMIT;
      && ((offset <= size && end <= size && offset <= end) <==> (offset <= size && offset + count < USIZE_LIMIT))
      && (offset <= size && offset + count < USIZE_LIMIT ==>
            cnt == if offset + count <= size then count else size - offset)
  {
  }

  /** The assertions of inode_write, where the end wraps around. */
  lemma WriteBounds(offset: nat, count: nat, size: nat)
    requires offset < USIZE_LIMIT && count < USIZE_LIMIT && size <= INODE_MAX_BYTES
    ensures var end := (offset + count) % USIZE_LIMIT;
      offset <= size && end <= INODE_MAX_BYTES && offset <= end <==> offset <= size && offset + count <= INODE_MAX_BYTES
  {
    if offset + count >= USIZE_LIMIT {
      assert (offset + count) % USIZE_LIMIT == offset + count - USIZE_LIMIT;
    }
  }

  lemma HasBlock(off: nat, size: nat)
    requires off < size
    ensures off / BLOCK_SIZE < BlocksFor(size)
  {
  }

  lemma WithinBlock(off: nat, d: nat)
    requires off % BLOCK_SIZE + d < BLOCK_SIZE
    ensures (off + d) / BLOCK_SIZE == off / BLOCK_SIZE && (off + d) % BLOCK_SIZE == off % BLOCK_SIZE + d
  {
  }

  /** Bit `bi` of the bitmap block that begins with block number `b`. */
  lemma BitPlace(bitmap: Bitmap, b: nat, bi: nat)
    requires b % BIT_PER_BLOCK == 0 && bi < BIT_PER_BLOCK && b + bi < BIT_PER_BLOCK * |bitmap|
    ensures b / BIT_PER_BLOCK < |bitmap|
    ensures var data := bitmap[b / BIT_PER_BLOCK];
      && (Used(bitmap, b + bi) <==> Bit(data[bi / 8], bi % 8))
      && (!Used(bitmap, b + bi) ==>
            && WithBit(data[bi / 8], bi % 8) < 256
            && Mark(bitmap, b + bi)
            == bitmap[b / BIT_PER_BLOCK := data[bi / 8 := WithBit(data[bi / 8], bi % 8)]])
    ensures (b + bi) / BIT_PER_BLOCK == b / BIT_PER_BLOCK
  {
    BitNumbers(b, bi);
    hide Bit, WithBit;
    if !Used(bitmap, b + bi) {
      SetStaysInRangeByte(bitmap[b / BIT_PER_BLOCK][bi / 8], bi % 8);
    }
  }

  lemma ClearPlace(bitmap: Bitmap, b: nat)
    requires b < BIT_PER_BLOCK * |bitmap|
    ensures var data, bi := bitmap[b / BIT_PER_BLOCK], b % BIT_PER_BLOCK;
      && (Used(bitmap, b) <==> Bit(data[bi / 8], bi % 8))
      && (Used(bitmap, b) ==>
            && WithoutBit(data[bi / 8], bi % 8) < 256
            && Unmark(bitmap, b)
            == bitmap[b / BIT_PER_BLOCK := data[bi / 8 := WithoutBit(data[bi / 8], bi % 8)]])
  {
    hide Bit, WithoutBit;
    LowBits(b);
  }

  lemma BitNumbers(b: nat, bi: nat)
    requires b % BIT_PER_BLOCK == 0 && bi < BIT_PER_BLOCK
    ensures (b + bi) / BIT_PER_BLOCK == b / BIT_PER_BLOCK && (b + bi) % BIT_PER_BLOCK == bi
    ensures (b + bi) % 8 == bi % 8
  {
    LowBits(b + bi);
  }

  lemma OwnedShape(sb: Super, blocks: seq<Block>, bitmap: Bitmap, tab: Table, ino: nat, k: nat)
    requires Owned(sb, blocks, bitmap, tab, {}) && ino < |tab| && k < INODE_MAX_BLOCKS
    ensures ValidSuper(sb) && ValidBitmap(sb, bitmap) && |blocks| == sb.numBlocks
    ensures Addr(blocks, tab[ino], k) < |blocks| && tab[ino].indirect < |blocks| && MetadataMarked(sb, bitmap)
    ensures Addr(blocks, tab[ino], k) != 0 ==> sb.dataStart <= Addr(blocks, tab[ino], k)
    ensures tab[ino].indirect != 0 ==> sb.dataStart <= tab[ino].indirect
  {
    assert Points(blocks, tab, ino, k, Addr(blocks, tab[ino], k));
    assert Points(blocks, tab, ino, INDIRECT_SLOT, Addr(blocks, tab[ino], INDIRECT_SLOT));
  }

  lemma GrowthOfOne(blocks: seq<Block>, e: Entry, k: nat, n: nat)
    requires Extent(blocks, e, n) && k <= n && k < INODE_MAX_BLOCKS
    ensures NewBlocks(blocks, e, k) == Growth(n, k + 1) && n <= INODE_MAX_BLOCKS
  {
  }

  /** Apart from inode `ino`, all inodes and files are as before. */
  ghost predicate OthersKept(blocks0: seq<Block>, mem0: Table, blocks: seq<Block>, mem: Table, ino: nat) {
    && |mem| == |mem0|
    && forall i :: 0 <= i < |mem| && i != ino ==> mem[i] == mem0[i] && SameFile(blocks0, blocks, mem[i])
  }

  lemma NothingChanged(blocks: seq<Block>, mem: Table, ino: nat)
    ensures OthersKept(blocks, mem, blocks, mem, ino)
  {
    SameBlocks(blocks, mem);
  }

  lemma KeptTrans(a: seq<Block>, mem0: Table, b: seq<Block>, mem1: Table, c: seq<Block>, mem: Table, ino: nat)
    requires OthersKept(a, mem0, b, mem1, ino) && OthersKept(b, mem1, c, mem, ino)
    ensures OthersKept(a, mem0, c, mem, ino)
  {
    hide SameFile;
    forall i | 0 <= i < |mem| && i != ino ensures SameFile(a, c, mem[i]) {
      SameFileTrans(a, b, c, mem[i]);
    }
  }

  lemma SameBlocks(blocks: seq<Block>, tab: Table)
    ensures forall i :: 0 <= i < |tab| ==> SameFile(blocks, blocks, tab[i])
    ensures forall i, k: nat :: 0 <= i < |tab| ==> SlotGained(blocks, blocks, tab[i], tab[i], k)
  {
  }

  /** The free blocks that a write up to `end` into a file of `size` bytes needs. */
  function WriteNeeds(size: nat, end: nat): nat {
    Growth(BlocksFor(size), BlocksFor(Max(size, end)))
  }

  lemma NoGrowth(size: nat, end: nat)
    requires end <= size
    ensures WriteNeeds(size, end) == 0
  {
  }

  lemma GrowthAdds(n0: nat, n: nat, m: nat)
    requires n0 <= n <= m
    ensures Growth(n0, n0) == 0 && Growth(n0, n) + Growth(n, m) == Growth(n0, m)
  {
  }

  lemma GrowthOfNext(n: nat, k: nat)
    requires k <= n
    ensures Growth(n, Max(n, k + 1)) == Growth(n, k + 1)
  {
  }

  function Max(a: nat, b: nat): nat {
    if a < b then b else a
  }

  lemma ExtentBound(blocks: seq<Block>, e: Entry, n: nat)
    requires Extent(blocks, e, n)
    ensures ValidEntry(e) && n <= INODE_MAX_BLOCKS
  {
  }

  lemma NothingTouched(offset: nat)
    ensures Touched(offset, 0) == 0
  {
  }

  lemma ExtentAddr(blocks: seq<Block>, e: Entry, n: nat, k: nat)
    requires Extent(blocks, e, n) && k < n
    ensures ValidEntry(e) && n <= INODE_MAX_BLOCKS && Addr(blocks, e, k) != 0
  {
  }

  // ---------------------------------------------- the contents of a write

  /** After `tot` bytes: those are new, the others of the first `n0` blocks as
      before. */
  ghost predicate Written(blocks0: seq<Block>, e0: Entry, n0: nat, blocks: seq<Block>, e: Entry,
                          offset: nat, src: seq<Byte>, tot: nat)
    requires ValidEntry(e0) && ValidEntry(e) && n0 <= INODE_MAX_BLOCKS
    requires tot <= |src| && offset + |src| <= INODE_MAX_BYTES
  {
    && (forall p: nat :: offset <= p < offset + tot ==> ByteAt(blocks, e, p) == src[p - offset])
    && (forall p: nat :: p < BLOCK_SIZE * n0 && !(offset <= p < offset + tot) ==>
          ByteAt(blocks, e, p) == ByteAt(blocks0, e0, p))
  }

  /** What one round of inode_write does to a file of `n` blocks. */
  ghost predicate ChunkDone(sb: Super, blocks0: seq<Block>, mem0: Table, blocks: seq<Block>, bitmap: Bitmap, mem: Table,
                            ino: nat, chunk: seq<Byte>, off: nat, n: nat)
  {
    && ino < |mem| == |mem0| && OthersKept(blocks0, mem0, blocks, mem, ino)
    && mem[ino] == mem0[ino].(addrs := mem[ino].addrs, indirect := mem[ino].indirect)
    && (off / BLOCK_SIZE < n ==> mem == mem0)
    && Owned(sb, blocks, bitmap, mem, {}) && Extent(blocks, mem[ino], Max(n, off / BLOCK_SIZE + 1))
    && ValidEntry(mem0[ino]) && n <= INODE_MAX_BLOCKS && off + |chunk| <= INODE_MAX_BYTES
    && (forall p: nat :: off <= p < off + |chunk| ==> ByteAt(blocks, mem[ino], p) == chunk[p - off])
    && (forall p: nat :: p < BLOCK_SIZE * n && !(off <= p < off + |chunk|) ==>
          ByteAt(blocks, mem[ino], p) == ByteAt(blocks0, mem0[ino], p))
  }

  lemma KeptByMap(blocks0: seq<Block>, mem0: Table, blocks: seq<Block>, mem: Table, ino: nat)
    requires |mem| == |mem0| && forall i :: 0 <= i < |mem| && i != ino ==> mem[i] == mem0[i]
    requires forall i :: 0 <= i < |mem| && i != ino ==> SameFile(blocks0, blocks, mem[i])
    ensures OthersKept(blocks0, mem0, blocks, mem, ino)
  {
  }

  /** The bytes go to the block that inode_map found. */
  lemma PatchDone(sb: Super, blocks0: seq<Block>, mem0: Table, blocks: seq<Block>, bitmap: Bitmap, mem: Table, ino: nat,
                  chunk: seq<Byte>, off: nat, n: nat)
    requires Owned(sb, blocks, bitmap, mem, {}) && ino < |mem| == |mem0| && OthersKept(blocks0, mem0, blocks, mem, ino)
    requires off < INODE_MAX_BYTES && off / BLOCK_SIZE <= n <= INODE_MAX_BLOCKS
    requires 0 < |chunk| <= BLOCK_SIZE - off % BLOCK_SIZE
    requires Extent(blocks, mem[ino], Max(n, off / BLOCK_SIZE + 1)) && ValidEntry(mem0[ino])
    requires SamePrefix(blocks0, blocks, mem0[ino], mem[ino], n)
    requires mem[ino] == mem0[ino].(addrs := mem[ino].addrs, indirect := mem[ino].indirect)
    requires off / BLOCK_SIZE < n ==> mem == mem0
    ensures var addr := Addr(blocks, mem[ino], off / BLOCK_SIZE);
      && addr < |blocks|
      && ChunkDone(sb, blocks0, mem0, blocks[addr := Patched(blocks[addr], off % BLOCK_SIZE, chunk)], bitmap, mem, ino,
                   chunk, off, n)
  {
    hide Owned, SameFile, SamePrefix, Extent, Addr, Patched, ByteAt, OthersKept;
    var k, e := off / BLOCK_SIZE, mem[ino];
    var n1 := Max(n, k + 1);
    ExtentAddr(blocks, e, n1, k);
    OwnedShape(sb, blocks, bitmap, mem, ino, k);
    var addr := Addr(blocks, e, k);
    var data := Patched(blocks[addr], off % BLOCK_SIZE, chunk);
    var blocks' := blocks[addr := data];
    DataWrite(sb, blocks, bitmap, mem, {}, ino, k, data);
    ChunkWritten(blocks, e, k, off, chunk, n1);
    KeptByMap(blocks, mem, blocks', mem, ino);
    KeptTrans(blocks0, mem0, blocks, mem, blocks', mem, ino);
    forall p: nat | p < BLOCK_SIZE * n && !(off <= p < off + |chunk|)
      ensures ByteAt(blocks', e, p) == ByteAt(blocks0, mem0[ino], p)
    {
      PrefixByte(blocks0, blocks, mem0[ino], e, n, p);
    }
  }

  /** After `tot` bytes of inode_write into a file of `n0` blocks, which has `n` now. */
  ghost predicate Writing(sb: Super, blocks0: seq<Block>, mem0: Table, blocks: seq<Block>, bitmap: Bitmap, mem: Table,
                          ino: nat, n0: nat, n: nat, offset: nat, src: seq<Byte>, tot: nat)
  {
    && ino < |mem| == |mem0| && OthersKept(blocks0, mem0, blocks, mem, ino)
    && mem[ino] == mem0[ino].(addrs := mem[ino].addrs, indirect := mem[ino].indirect)
    && (n == n0 ==> mem == mem0)
    && Owned(sb, blocks, bitmap, mem, {}) && Extent(blocks, mem[ino], n)
    && ValidEntry(mem0[ino]) && n0 <= n && tot <= |src| && offset + |src| <= INODE_MAX_BYTES
    && Written(blocks0, mem0[ino], n0, blocks, mem[ino], offset, src, tot)
  }

  lemma StartWriting(sb: Super, blocks: seq<Block>, bitmap: Bitmap, mem: Table, ino: nat, n0: nat, offset: nat,
                     src: seq<Byte>)
    requires Owned(sb, blocks, bitmap, mem, {}) && ino < |mem| && Extent(blocks, mem[ino], n0)
    requires offset + |src| <= INODE_MAX_BYTES
    ensures Writing(sb, blocks, mem, blocks, bitmap, mem, ino, n0, n0, offset, src, 0)
  {
    hide Owned, Extent, ByteAt, OthersKept;
    ExtentBound(blocks, mem[ino], n0);
    NothingChanged(blocks, mem, ino);
    NothingWritten(blocks, mem[ino], n0, offset, src);
  }

  lemma WritingShape(sb: Super, blocks0: seq<Block>, mem0: Table, blocks: seq<Block>, bitmap: Bitmap, mem: Table,
                     ino: nat, n0: nat, n: nat, offset: nat, src: seq<Byte>, tot: nat)
    requires Writing(sb, blocks0, mem0, blocks, bitmap, mem, ino, n0, n, offset, src, tot)
    ensures ino < |mem| == |mem0| && Owned(sb, blocks, bitmap, mem, {}) && Extent(blocks, mem[ino], n)
    ensures n0 <= n <= INODE_MAX_BLOCKS
  {
    hide Owned;
  }

  lemma WritingMore(sb: Super, blocks0: seq<Block>, mem0: Table, blocks1: seq<Block>, mem1: Table, blocks: seq<Block>,
                    bitmap: Bitmap, mem: Table, ino: nat, n0: nat, n: nat, offset: nat, src: seq<Byte>, tot: nat,
                    m: nat, bitmap1: Bitmap)
    requires tot + m <= |src| && 0 < m && offset + tot <= BLOCK_SIZE * n
    requires Writing(sb, blocks0, mem0, blocks1, bitmap1, mem1, ino, n0, n, offset, src, tot)
    requires ChunkDone(sb, blocks1, mem1, blocks, bitmap, mem, ino, src[tot..tot + m], offset + tot, n)
    ensures Writing(sb, blocks0, mem0, blocks, bitmap, mem, ino, n0, Max(n, (offset + tot) / BLOCK_SIZE + 1), offset,
                    src, tot + m)
    ensures ino < |mem| && ((offset + tot) / BLOCK_SIZE < n ==> mem == mem1)
  {
    hide Owned, Extent, ByteAt, OthersKept, Written;
    KeptTrans(blocks0, mem0, blocks1, mem1, blocks, mem, ino);
    WrittenMore(blocks0, mem0[ino], n0, blocks1, mem1[ino], n, blocks, mem[ino], offset, src, tot, m);
  }

  lemma NothingWritten(blocks: seq<Block>, e: Entry, n0: nat, offset: nat, src: seq<Byte>)
    requires ValidEntry(e) && n0 <= INODE_MAX_BLOCKS && offset + |src| <= INODE_MAX_BYTES
    ensures Written(blocks, e, n0, blocks, e, offset, src, 0)
  {
  }

  lemma WrittenMore(blocks0: seq<Block>, e0: Entry, n0: nat, blocks1: seq<Block>, e1: Entry, n: nat,
                    blocks: seq<Block>, e: Entry, offset: nat, src: seq<Byte>, tot: nat, m: nat)
    requires ValidEntry(e0) && ValidEntry(e1) && ValidEntry(e) && n0 <= n <= INODE_MAX_BLOCKS
    requires tot + m <= |src| && offset + |src| <= INODE_MAX_BYTES && offset + tot <= BLOCK_SIZE * n
    requires Written(blocks0, e0, n0, blocks1, e1, offset, src, tot)
    requires forall p: nat :: offset + tot <= p < offset + tot + m ==>
      ByteAt(blocks, e, p) == src[tot..tot + m][p - (offset + tot)]
    requires forall p: nat :: p < BLOCK_SIZE * n && !(offset + tot <= p < offset + tot + m) ==>
      ByteAt(blocks, e, p) == ByteAt(blocks1, e1, p)
    ensures Written(blocks0, e0, n0, blocks, e, offset, src, tot + m)
  {
  }

  /** The whole file after the loop. */
  lemma SplicedBytes(blocks0: seq<Block>, e0: Entry, blocks: seq<Block>, e: Entry, offset: nat, src: seq<Byte>)
    requires ValidEntry(e0) && ValidEntry(e) && offset <= e0.numBytes <= INODE_MAX_BYTES
    requires offset + |src| <= INODE_MAX_BYTES
    requires Written(blocks0, e0, BlocksFor(e0.numBytes), blocks, e, offset, src, |src|)
    requires e.numBytes == Max(e0.numBytes, offset + |src|)
    ensures FileBytes(blocks, e) == Splice(FileBytes(blocks0, e0), offset, src)
  {
    var r := Splice(FileBytes(blocks0, e0), offset, src);
    forall p | 0 <= p < e.numBytes ensures FileBytes(blocks, e)[p] == r[p] {
    }
  }

  // ------------------------------------------------- the number of syncs

  /** Blocks of the file that the first `tot` bytes from `offset` on touch. */
  function Touched(offset: nat, tot: nat): int {
    if tot == 0 then 0 else BlocksFor(offset + tot) - offset / BLOCK_SIZE
  }

  lemma WriteArithmetic(offset: nat, tot: nat, m: nat, n: nat, n0: nat, end: nat)
    requires var off := offset + tot;
      && 0 < m <= BLOCK_SIZE - off % BLOCK_SIZE
      && n == (if tot == 0 then n0 else Max(n0, BlocksFor(off)))
      && (tot > 0 ==> off % BLOCK_SIZE == 0)
    requires offset <= BLOCK_SIZE * n0 && offset + tot + m <= end
    ensures var off := offset + tot;
      && off / BLOCK_SIZE <= n && off <= BLOCK_SIZE * n
      && BlocksFor(off + m) == off / BLOCK_SIZE + 1
      && Max(n, off / BLOCK_SIZE + 1) == Max(n0, BlocksFor(off + m))
      && Touched(offset, tot + m) == Touched(offset, tot) + 1
    ensures BlocksFor(offset + tot + m) <= BlocksFor(end)
  {
  }

  /** `synced` holds at most `touched + (n - n0) + ind` new blocks: the data
      blocks, one bitmap block for each new data block, and at most two for the
      indirect block. */
  ghost predicate SyncCost(before: set<nat>, synced: set<nat>, e: Entry, ind: nat, n: nat, n0: nat, touched: int) {
    && n0 <= n && ind <= 2
    && |synced| <= |before| + touched + (n - n0) + ind
    && (ind > 0 ==> e.indirect in synced && n > INODE_NUM_DIRECT)
  }

  /** What one round adds. */
  ghost predicate SyncGrows(before: set<nat>, after: set<nat>, e: Entry, e': Entry, k: nat, n: nat) {
    && before <= after
    && (k < n ==> |after| <= |before| + 1)
    && (k == n && k < INODE_NUM_DIRECT ==> |after| <= |before| + 2)
    && (k == n && k == INODE_NUM_DIRECT ==> |after| <= |before| + 4)
    && (k == n && k > INODE_NUM_DIRECT ==> |after| <= |before| + if e'.indirect in before then 2 else 3)
    && (k == n && k >= INODE_NUM_DIRECT ==> e'.indirect in after)
    && (n > INODE_NUM_DIRECT ==> e'.indirect == e.indirect)
  }

  lemma AddOne(s: set<nat>, x: nat)
    ensures |s + {x}| <= |s| + 1
  {
    if x in s {
      assert s + {x} == s;
    } else {
      assert (s + {x}) - {x} == s;
    }
  }

  lemma {:induction false} SubsetSize(a: set<nat>, b: set<nat>)
    requires a <= b
    ensures |a| <= |b|
    decreases |a|
  {
    if a != {} {
      var x :| x in a;
      SubsetSize(a - {x}, b - {x});
    }
  }

  /** When a block is synced, the operation has synced at most nine blocks before. */
  ghost predicate TenthIsLast(q: seq<Sync>) {
    forall i :: 0 <= i < |q| ==> |Numbers(q[..i])| <= 9
  }

  lemma FewPrefixes(p: seq<Sync>, q: seq<Sync>)
    requires p <= q && |q| <= |p| + 1
    ensures Numbers([]) == {}
    ensures |Numbers(p)| <= 9 ==> |Numbers(q)| <= 10 && TenthIsLast(q)
  {
    assert Numbers([]) == {};
    hide Numbers;
    if p != q {
      SyncMore([], p, q[|p|]);
      assert p + [q[|p|]] == q;
      AddOne(Numbers(p), q[|p|].block);
    }
    forall i | 0 <= i <= |p| ensures |Numbers(q[..i])| <= |Numbers(p)| {
      NumbersPrefix(p, i);
      assert p[..i] == q[..i];
      SubsetSize(Numbers(q[..i]), Numbers(p));
    }
  }

  /** An entry in memory fits in its place on disk. */
  lemma FieldsKept(sb: Super, image: seq<Block>, blocks: seq<Block>, bitmap: Bitmap, dinode: Table, mem: Table, ino: nat,
                   e: Entry)
    requires Agrees(sb, image, blocks, bitmap, dinode) && Owned(sb, blocks, bitmap, mem, {})
    requires ino < |mem| && ino < |dinode| && e == mem[ino].(numBytes := e.numBytes) && e.numBytes <= INODE_MAX_BYTES
    requires mem[ino] == dinode[ino].(addrs := mem[ino].addrs, indirect := mem[ino].indirect)
    ensures FieldsFit(e)
  {
    hide Agrees, Owned;
    InodesFit(sb, image, blocks, bitmap, dinode, ino);
    OwnedShape(sb, blocks, bitmap, mem, ino, 0);
    forall k | 0 <= k < INODE_NUM_DIRECT ensures mem[ino].addrs[k] < U32_LIMIT {
      OwnedShape(sb, blocks, bitmap, mem, ino, k);
    }
  }

  lemma TruncatedFits(e: Entry)
    requires FieldsFit(e)
    ensures FieldsFit(Truncated(e))
  {
  }

  lemma InvalidFits(e: Entry)
    requires FieldsFit(e)
    ensures FieldsFit(e.(kind := INODE_INVALID))
  {
  }

  lemma NewFits(kind: nat)
    requires kind < U16_MAX
    ensures FieldsFit(NewEntry(kind))
  {
  }

  lemma SyncStep(before: set<nat>, mid: set<nat>, e: Entry, e': Entry, sb: Super, k: nat, n: nat, addr: nat)
    requires k <= n && before <= mid
    requires k < n ==> mid == before
    requires k == n ==>
      mid <= before + {BitmapBlock(sb, addr), addr}
        + (if k >= INODE_NUM_DIRECT then {e'.indirect} else {})
        + (if k == INODE_NUM_DIRECT then {BitmapBlock(sb, e'.indirect)} else {})
    requires k == n && k >= INODE_NUM_DIRECT ==> e'.indirect in mid
    requires n > INODE_NUM_DIRECT ==> e'.indirect == e.indirect
    ensures SyncGrows(before, mid + {addr}, e, e', k, n)
  {
    var after := mid + {addr};
    AddOne(before, addr);
    if k == n {
      var b1 := before + {addr};
      var b2 := b1 + {BitmapBlock(sb, addr)};
      AddOne(b1, BitmapBlock(sb, addr));
      if k < INODE_NUM_DIRECT {
        SubsetSize(after, b2);
      } else {
        var b3 := b2 + {e'.indirect};
        AddOne(b2, e'.indirect);
        if k == INODE_NUM_DIRECT {
          AddOne(b3, BitmapBlock(sb, e'.indirect));
          SubsetSize(after, b3 + {BitmapBlock(sb, e'.indirect)});
        } else {
          SubsetSize(after, b3);
          assert e'.indirect in before ==> b3 == b2;
        }
      }
    }
  }

  lemma CostMore(before: set<nat>, s: set<nat>, s': set<nat>, e: Entry, e': Entry, ind: nat, k: nat, n: nat,
                 n0: nat, touched: int) returns (ind': nat)
    requires SyncCost(before, s, e, ind, n, n0, touched) && SyncGrows(s, s', e, e', k, n) && k <= n
    requires k < n ==> e' == e
    ensures SyncCost(before, s', e', ind', Max(n, k + 1), n0, touched + 1)
  {
    if k < n || k < INODE_NUM_DIRECT {
      ind' := ind;
    } else if k == INODE_NUM_DIRECT {
      ind' := 2;
    } else {
      ind' := if ind == 0 then 1 else ind;
    }
  }

  /** Where the loop of inode_write ends. */
  lemma EndArithmetic(offset: nat, count: nat, size: nat, n: nat)
    requires offset <= size
    requires n == if count == 0 then BlocksFor(size) else Max(BlocksFor(size), BlocksFor(offset + count))
    ensures n == BlocksFor(Max(size, offset + count))
    ensures offset + count <= size ==> n == BlocksFor(size)
    ensures count <= 1536 ==>
      Touched(offset, count) + (n - BlocksFor(size)) + 2 <= 9
  {
  }

  lemma ResizeKeeps(sb: Super, blocks: seq<Block>, bitmap: Bitmap, tab: Table, ino: nat, size: nat, n: nat)
    requires Owned(sb, blocks, bitmap, tab, {}) && ino < |tab| && Extent(blocks, tab[ino], n)
    ensures Owned(sb, blocks, bitmap, tab[ino := tab[ino].(numBytes := size)], {})
    ensures Extent(blocks, tab[ino].(numBytes := size), n)
  {
    var e := tab[ino].(numBytes := size);
    forall s: nat | s < SLOTS ensures Addr(blocks, e, s) == Addr(blocks, tab[ino], s) {
    }
    SamePointsOwned(sb, blocks, blocks, bitmap, tab, tab[ino := e], {});
  }

  lemma SetKindKeeps(sb: Super, blocks: seq<Block>, bitmap: Bitmap, tab: Table, ino: nat, kind: nat)
    requires Owned(sb, blocks, bitmap, tab, {}) && ino < |tab| && FileShape(blocks, tab[ino])
    ensures Owned(sb, blocks, bitmap, tab[ino := tab[ino].(kind := kind)], {})
    ensures FileShape(blocks, tab[ino].(kind := kind))
  {
    var e := tab[ino].(kind := kind);
    forall s: nat | s < SLOTS ensures Addr(blocks, e, s) == Addr(blocks, tab[ino], s) {
    }
    SamePointsOwned(sb, blocks, blocks, bitmap, tab, tab[ino := e], {});
  }

  /** The bytes do not depend on the recorded length. */
  lemma ResizedBytes(blocks: seq<Block>, e: Entry, e0: Entry, size: nat, blocks0: seq<Block>, n0: nat,
                     offset: nat, src: seq<Byte>)
    requires ValidEntry(e) && ValidEntry(e0) && n0 <= INODE_MAX_BLOCKS && offset + |src| <= INODE_MAX_BYTES
    requires Written(blocks0, e0, n0, blocks, e.(numBytes := e0.numBytes), offset, src, |src|)
    ensures Written(blocks0, e0, n0, blocks, e, offset, src, |src|)
  {
    forall p: nat | p < INODE_MAX_BYTES
      ensures ByteAt(blocks, e, p) == ByteAt(blocks, e.(numBytes := e0.numBytes), p)
    {
    }
  }

  // ----------------------------------------------------- freeing an inode

  /** The blocks in the slots from `i` on. */
  function SlotsFrom(blocks: seq<Block>, e: Entry, i: nat): set<nat>
    requires |e.addrs| == INODE_NUM_DIRECT
  {
    (set s | i <= s < SLOTS :: Addr(blocks, e, s)) - {0}
  }

  ghost predicate DistinctSlots(blocks: seq<Block>, e: Entry)
    requires ValidEntry(e)
  {
    forall s, t :: 0 <= s < t < SLOTS && Addr(blocks, e, s) == Addr(blocks, e, t) ==> Addr(blocks, e, s) == 0
  }

  /** Of the blocks in `all`, those outside `left` were freed, and no others. */
  ghost predicate FreedExcept(sb: Super, before: Bitmap, bitmap: Bitmap, all: set<nat>, left: set<nat>)
    requires ValidBitmap(sb, before)
  {
    && ValidBitmap(sb, bitmap) && left <= all
    && forall b: nat :: b < sb.numBlocks ==> (Used(bitmap, b) <==> Used(before, b) && (b in all ==> b in left))
  }

  function BitmapBlocks(sb: Super, s: set<nat>): set<nat> {
    set b | b in s :: BitmapBlock(sb, b)
  }

  /** The blocks synced are the bitmap blocks of the freed blocks. */
  ghost predicate FreedSyncs(sb: Super, before: set<nat>, now: set<nat>, all: set<nat>, left: set<nat>) {
    left <= all && now == before + BitmapBlocks(sb, all - left)
  }

  lemma NoSyncs(sb: Super, before: set<nat>, all: set<nat>)
    ensures FreedSyncs(sb, before, before, all, all)
  {
  }

  lemma FreeSyncs(sb: Super, before: set<nat>, now: set<nat>, all: set<nat>, left: set<nat>, a: nat)
    requires FreedSyncs(sb, before, now, all, left) && a in left
    ensures FreedSyncs(sb, before, now + {BitmapBlock(sb, a)}, all, left - {a})
  {
    assert all - (left - {a}) == (all - left) + {a};
    assert BitmapBlocks(sb, (all - left) + {a}) == BitmapBlocks(sb, all - left) + {BitmapBlock(sb, a)};
  }

  lemma AllSynced(sb: Super, before: set<nat>, now: set<nat>, all: set<nat>)
    requires FreedSyncs(sb, before, now, all, {})
    ensures now == before + BitmapBlocks(sb, all)
  {
    assert all - {} == all;
  }

  lemma NextSlot(blocks: seq<Block>, e: Entry, i: nat)
    requires ValidEntry(e) && DistinctSlots(blocks, e) && i < SLOTS
    ensures var a := Addr(blocks, e, i); var left := SlotsFrom(blocks, e, i);
      && (a != 0 ==> a in left)
      && SlotsFrom(blocks, e, i + 1) == left - {a}
      && (a == 0 ==> SlotsFrom(blocks, e, i + 1) == left)
  {
    var a := Addr(blocks, e, i);
    var left := SlotsFrom(blocks, e, i);
    forall c ensures c in SlotsFrom(blocks, e, i + 1) <==> c in left - {a} {
      if c in left - {a} {
        var s :| i <= s < SLOTS && Addr(blocks, e, s) == c;
        assert s != i;
      }
    }
  }

  lemma NoSlots(blocks: seq<Block>, e: Entry)
    requires ValidEntry(e)
    ensures SlotsFrom(blocks, e, SLOTS) == {}
    ensures SlotsFrom(blocks, e, INDIRECT_SLOT) <= {e.indirect}
  {
  }

  lemma NoIndirect(blocks: seq<Block>, e: Entry)
    requires ValidEntry(e) && e.indirect == 0
    ensures SlotsFrom(blocks, e, INODE_NUM_DIRECT) == {}
  {
  }

  lemma FreeSlot(sb: Super, blocks: seq<Block>, before: Bitmap, bitmap: Bitmap, tab: Table, all: set<nat>,
                 left: set<nat>, a: nat)
    requires ValidBitmap(sb, before) && Owned(sb, blocks, bitmap, tab, left) && a in left
    requires FreedExcept(sb, before, bitmap, all, left)
    ensures a < BIT_PER_BLOCK * |bitmap| && Used(bitmap, a)
    ensures Owned(sb, blocks, Unmark(bitmap, a), tab, left - {a})
    ensures FreedExcept(sb, before, Unmark(bitmap, a), all, left - {a})
  {
    FreeKeeps(sb, blocks, bitmap, tab, left, a);
    forall c: nat | c < sb.numBlocks ensures Used(Unmark(bitmap, a), c) <==> c != a && Used(bitmap, c) {
      UsedAfterUnmark(bitmap, a, c);
    }
  }

  lemma ClearStarts(sb: Super, blocks: seq<Block>, bitmap: Bitmap, mem: Table, ino: nat)
    requires Owned(sb, blocks, bitmap, mem, {}) && ino < |mem|
    ensures ValidBitmap(sb, bitmap) && mem[ino].indirect < |blocks| && DistinctSlots(blocks, mem[ino])
    ensures Owned(sb, blocks, bitmap, mem[ino := Truncated(mem[ino])], SlotsFrom(blocks, mem[ino], 0))
    ensures FreedExcept(sb, bitmap, bitmap, BlocksOf(blocks, mem[ino]), SlotsFrom(blocks, mem[ino], 0))
    ensures SlotsFrom(blocks, mem[ino], 0) == BlocksOf(blocks, mem[ino])
  {
    OwnedShape(sb, blocks, bitmap, mem, ino, 0);
    UnlinkAll(sb, blocks, bitmap, mem, ino);
    assert SlotsFrom(blocks, mem[ino], 0) == BlocksOf(blocks, mem[ino]);
    var e := mem[ino];
    forall s, t | 0 <= s < t < SLOTS && Addr(blocks, e, s) == Addr(blocks, e, t) ensures Addr(blocks, e, s) == 0 {
      assert Points(blocks, mem, ino, s, Addr(blocks, e, s)) && Points(blocks, mem, ino, t, Addr(blocks, e, s));
    }
  }

  lemma ClearedShape(blocks: seq<Block>, mem: Table, ino: nat)
    requires ino < |mem| && forall i :: 0 <= i < |mem| ==> FileShape(blocks, mem[i])
    ensures var tab := mem[ino := Truncated(mem[ino])]; forall i :: 0 <= i < |tab| ==> FileShape(blocks, tab[i])
  {
    forall s: nat | s < SLOTS ensures Addr(blocks, Truncated(mem[ino]), s) == 0 {
      TruncatedAddr(blocks, mem[ino], s);
    }
  }

  /** A free inode has no contents. */
  ghost predicate FreeAreEmpty(mem: Table) {
    forall i :: 0 <= i < |mem| && mem[i].kind == INODE_INVALID ==> mem[i].numBytes == 0
  }

  /** An inode of a kind, without links, length or blocks. */
  ghost predicate Blank(e: Entry, kind: nat) {
    && e.kind == kind && e.major == 0 && e.minor == 0 && e.numLinks == 0 && e.numBytes == 0 && e.indirect == 0
    && |e.addrs| == 12 && forall k :: 0 <= k < 12 ==> e.addrs[k] == 0
  }

  function NewEntry(kind: nat): Entry {
    Entry(kind, 0, 0, 0, 0, seq(INODE_NUM_DIRECT, _ => 0), 0)
  }

  /** Overwriting an empty inode leaks no block. */
  lemma RenewKeeps(sb: Super, blocks: seq<Block>, bitmap: Bitmap, mem: Table, ino: nat, kind: nat)
    requires Owned(sb, blocks, bitmap, mem, {}) && ino < |mem| && FileShape(blocks, mem[ino])
    requires mem[ino].numBytes == 0
    ensures Owned(sb, blocks, bitmap, mem[ino := NewEntry(kind)], {}) && FileShape(blocks, NewEntry(kind))
  {
    forall s: nat | s < SLOTS
      ensures Addr(blocks, mem[ino], s) == 0 == Addr(blocks, NewEntry(kind), s)
    {
    }
    SamePointsOwned(sb, blocks, blocks, bitmap, mem, mem[ino := NewEntry(kind)], {});
  }

  /** The number of blocks that freeing an inode syncs, which is at most ten exactly
      when its blocks lie under at most nine bitmap blocks, as on every disk with at
      most nine bitmap blocks. */
  lemma FreeCost(sb: Super, ino: nat, s: set<nat>)
    requires ValidSuper(sb) && ino <= sb.numInodes && forall b :: b in s ==> b < sb.numBlocks
    ensures |BitmapBlocks(sb, s) + {InodeBlock(sb, ino)}| == |BitmapBlocks(sb, s)| + 1
    ensures |BitmapBlocks(sb, s)| <= BitmapCount(sb)
  {
    hide InodeBlock;
    var places := Places(sb.bitmapStart, BitmapCount(sb));
    forall b | b in s ensures BitmapBlock(sb, b) in places && BitmapBlock(sb, b) != InodeBlock(sb, ino) {
      assert b / BIT_PER_BLOCK < BitmapCount(sb);
      Regions(sb, b / BIT_PER_BLOCK, ino);
    }
    SubsetSize(BitmapBlocks(sb, s), places);
  }

  function Places(start: nat, n: nat): (r: set<nat>)
    ensures |r| == n && forall b: nat :: b in r <==> start <= b < start + n
  {
    if n == 0 then {} else Places(start, n - 1) + {start + n - 1}
  }

  // ------------------------------------------------------ transactions

  /** The blocks hold a consistent file system: the marked blocks are the metadata
      and the blocks of files, each belongs to one file, and every file has exactly
      the blocks that its length needs. */
  ghost predicate GoodBlocks(sb: Super, image: seq<Block>) {
    && ValidSuper(sb) && |image| == sb.numBlocks
    && var dinode := InodesOf(sb, image); Consistent(sb, image, BitmapOf(sb, image), dinode, dinode[..sb.numInodes])
  }

  /** The syncs of a transaction take a good image to a good one. */
  ghost predicate KeepsGood(sb: Super, image: seq<Block>, q: seq<Sync>) {
    GoodBlocks(sb, image) ==> GoodBlocks(sb, Applied(image, q))
  }

  /** What the fields hold is good as an image. */
  lemma ValidIsGood(sb: Super, image: seq<Block>, blocks: seq<Block>, bitmap: Bitmap, dinode: Table, mem: Table)
    requires Consistent(sb, blocks, bitmap, dinode, mem) && Agrees(sb, image, blocks, bitmap, dinode)
    ensures GoodBlocks(sb, image)
  {
    hide Owned, Agrees, Extent, SameFile;
    AgreesReads(sb, image, blocks, bitmap, dinode);
    AgreesShape(sb, image, blocks, bitmap, dinode);
    assert dinode[..sb.numInodes] == mem;
    forall i: nat | i < |mem| ensures SameFile(blocks, image, mem[i]) {
      FileInImage(sb, image, blocks, bitmap, dinode, mem, i);
    }
    SameOwned(sb, blocks, image, bitmap, mem);
    forall i | 0 <= i < |mem| ensures FileShape(image, mem[i]) {
      assert FileShape(blocks, mem[i]);
      SameExtent(blocks, image, mem[i], BlocksFor(mem[i].numBytes));
    }
  }

  lemma FileInImage(sb: Super, image: seq<Block>, blocks: seq<Block>, bitmap: Bitmap, dinode: Table, mem: Table, ino: nat)
    requires Agrees(sb, image, blocks, bitmap, dinode) && Owned(sb, blocks, bitmap, mem, {}) && ino < |mem|
    ensures SameFile(blocks, image, mem[ino])
  {
    hide HoldsBitmap, HoldsInode;
    var e := mem[ino];
    forall s: nat | s < SLOTS ensures Addr(blocks, e, s) == 0 || sb.dataStart <= Addr(blocks, e, s) < |blocks| {
      assert Points(blocks, mem, ino, s, Addr(blocks, e, s));
    }
    assert Addr(blocks, e, INDIRECT_SLOT) == e.indirect;
  }

  lemma SameOwned(sb: Super, blocks: seq<Block>, blocks': seq<Block>, bitmap: Bitmap, mem: Table)
    requires Owned(sb, blocks, bitmap, mem, {}) && |blocks'| == |blocks|
    requires forall i: nat :: i < |mem| ==> SameFile(blocks, blocks', mem[i])
    ensures Owned(sb, blocks', bitmap, mem, {})
  {
    SamePointsOwned(sb, blocks, blocks', bitmap, mem, mem, {});
  }

  /** Whatever operations it was made of, a transaction that leaves the file system
      valid keeps the image good. */
  lemma TransactionKeepsGood(fs: FileSystem)
    requires fs.Valid()
    ensures GoodBlocks(fs.sb, fs.image) && fs.image == Applied(fs.base, fs.synced)
    ensures KeepsGood(fs.sb, fs.base, fs.synced)
  {
    hide Consistent, Agrees, Applied;
    ValidIsGood(fs.sb, fs.image, fs.blocks, fs.bitmap, fs.dinode, fs.mem);
  }

  // ---------------------------------------------------------- for callers

  /** The bytes of a file. */
  ghost function Contents(fs: FileSystem, ino: nat): seq<Byte>
    reads fs
    requires fs.Valid() && ino < |fs.mem|
  {
    assert FileShape(fs.blocks, fs.mem[ino]);
    FileBytes(fs.blocks, fs.mem[ino])
  }

  lemma SizeFits(sb: Super, blocks: seq<Block>, bitmap: Bitmap, dinode: Table, mem: Table, ino: nat)
    requires Consistent(sb, blocks, bitmap, dinode, mem) && ino < |mem|
    ensures ValidEntry(mem[ino]) && mem[ino].numBytes <= INODE_MAX_BYTES
  {
    assert FileShape(blocks, mem[ino]);
  }

  // --------------------------------------------- the last inode number

  /** A disk of metadata only: inode 1 is in use, inode 2, which lies behind the two
      inodes of the disk, is free. */
  const SMALL := Super(3, 2, 1, 2, 3)

  function SmallImage(): (r: seq<Block>)
    ensures |r| == 3
  {
    [ZeroBlock(), PutEntry(ZeroBlock(), 1, NewEntry(1)), seq(BLOCK_SIZE, _ => 255)]
  }

  lemma SmallDisk()
    ensures GoodBlocks(SMALL, SmallImage())
    ensures InodesOf(SMALL, SmallImage()) == [NewEntry(0), NewEntry(1), NewEntry(0)]
  {
    hide Owned, FileShape, InodesOf, PutEntry, NewEntry, Used;
    SmallInodes();
    SmallBits();
    NoPointers(SmallImage(), BitmapOf(SMALL, SmallImage()), InodesOf(SMALL, SmallImage())[..2]);
  }

  lemma SmallBits()
    ensures var bitmap := BitmapOf(SMALL, SmallImage()); |bitmap| == 1 && forall b :: 0 <= b < 3 ==> Used(bitmap, b)
  {
    hide PutEntry;
    forall b | 0 <= b < 3 ensures Used(BitmapOf(SMALL, SmallImage()), b) {
      AllBits(b);
    }
  }

  /** Two inodes without blocks, and all blocks marked. */
  lemma NoPointers(blocks: seq<Block>, bitmap: Bitmap, mem: Table)
    requires |blocks| == 3 && |bitmap| == 1 && forall b :: 0 <= b < 3 ==> Used(bitmap, b)
    requires mem == [NewEntry(0), NewEntry(1)]
    ensures Owned(SMALL, blocks, bitmap, mem, {}) && forall i :: 0 <= i < 2 ==> FileShape(blocks, mem[i])
  {
    hide Used;
    forall i: nat, s: nat, b: nat | Points(blocks, mem, i, s, b) ensures b == 0 {
    }
    forall i | 0 <= i < |mem| ensures Extent(blocks, mem[i], 0) {
    }
  }

  lemma SmallInodes()
    ensures InodesOf(SMALL, SmallImage()) == [NewEntry(0), NewEntry(1), NewEntry(0)]
  {
    hide EntryAt, PutEntry;
    NewFits(1);
    EntryAfterPut(ZeroBlock(), 1, NewEntry(1), 0);
    EntryAfterPut(ZeroBlock(), 1, NewEntry(1), 1);
    EntryAfterPut(ZeroBlock(), 1, NewEntry(1), 2);
    ZeroEntry(0);
    ZeroEntry(2);
  }

  lemma ZeroEntry(j: nat)
    requires j < INODE_PER_BLOCK
    ensures EntryAt(ZeroBlock(), j) == NewEntry(0)
  {
    var bytes := ZeroBlock()[ENTRY_SIZE * j..ENTRY_SIZE * (j + 1)];
    ZeroFields(bytes);
  }

  lemma ZeroFields(bytes: seq<Byte>)
    requires |bytes| == ENTRY_SIZE && forall i :: 0 <= i < ENTRY_SIZE ==> bytes[i] == 0
    ensures EntryOf(bytes) == NewEntry(0)
  {
    hide Word16, Word32;
    ZeroWord(bytes, 0);
    ZeroWord(bytes, 2);
    ZeroWord(bytes, 4);
    ZeroWord(bytes, 6);
    ZeroWord(bytes, 8);
    ZeroWord(bytes, 60);
    forall k | 0 <= k < INODE_NUM_DIRECT ensures Word32(bytes, 12 + 4 * k) == 0 {
      ZeroWord(bytes, 12 + 4 * k);
    }
    assert EntryOf(bytes).addrs == NewEntry(0).addrs;
  }

  lemma ZeroWord(bytes: seq<Byte>, i: nat)
    requires i + 3 < |bytes| == ENTRY_SIZE && forall j :: 0 <= j < ENTRY_SIZE ==> bytes[j] == 0
    ensures Word16(bytes, i) == 0 && Word32(bytes, i) == 0
  {
  }

  lemma AllBits(k: nat)
    requires k < 8
    ensures Bit(255, k)
  {
    if k > 0 {
      HalfBit(255, k);
      HalfBit(127, k - 1);
      HalfBit(63, k - 2);
      HalfBit(31, k - 3);
      HalfBit(15, k - 4);
      HalfBit(7, k - 5);
      HalfBit(3, k - 6);
    }
  }

  /** inode_alloc returns the number of inodes, which inode_get rejects. */
  method LastInodeTaken() returns (fs: FileSystem, ok: bool, inum: nat)
    ensures fresh(fs) && ok && inum == fs.sb.numInodes
  {
    hide Consistent, SmallImage, GoodBlocks;
    SmallDisk();
    fs := new FileSystem(SMALL, SmallImage());
    assert fs.dinode[2].kind == INODE_INVALID;
    ok, inum := fs.InodeAlloc(1);
  }
}
