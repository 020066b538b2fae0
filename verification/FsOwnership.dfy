/**
  Which inode owns which block (src/fs/inode.c, src/fs/cache.c): the marked
  bits of the bitmap are the metadata blocks and the blocks that inodes point
  to, each pointed to once.
 */
module FsOwnership {
  import opened Bits
  import opened FsLayout

  /** `InodeEntry`. */
  datatype Entry = Entry(kind: nat, major: nat, minor: nat, numLinks: nat, numBytes: nat,
                         addrs: seq<nat>, indirect: nat)

  /** The super block.  Blocks below `dataStart` are the boot block, the super
      block, the log, the inode blocks and the bitmap. */
  datatype Super = Super(numBlocks: nat, numInodes: nat, inodeStart: nat, bitmapStart: nat, dataStart: nat)

  ghost predicate ValidSuper(sb: Super) {
    && 0 < sb.dataStart <= sb.numBlocks < U32_LIMIT
    && sb.inodeStart + sb.numInodes / INODE_PER_BLOCK < sb.bitmapStart
    && sb.bitmapStart + (sb.numBlocks - 1) / BIT_PER_BLOCK < sb.dataStart
  }

  function InodeBlock(sb: Super, ino: nat): nat {
    sb.inodeStart + ino / INODE_PER_BLOCK
  }

  /** `BBLOCK` */
  function BitmapBlock(sb: Super, b: nat): nat {
    b / BIT_PER_BLOCK + sb.bitmapStart
  }

  type Bitmap = seq<Block>

  ghost predicate ValidBitmap(sb: Super, bitmap: Bitmap) {
    sb.numBlocks <= BIT_PER_BLOCK * |bitmap|
  }

  /** The bit of block `b`. */
  predicate Used(bitmap: Bitmap, b: nat)
    requires b < BIT_PER_BLOCK * |bitmap|
  {
    Bit(bitmap[b / BIT_PER_BLOCK][b % BIT_PER_BLOCK / 8], b % 8)
  }

  /** Block `b` has bit b of the bitmap, lowest bit of a byte first. */
  lemma UsedIsBit(bitmap: Bitmap, b: nat)
    requires b < 4096 * |bitmap|
    ensures var x: nat := bitmap[b / 4096][b % 4096 / 8];
      Used(bitmap, b) <==> x / [1, 2, 4, 8, 16, 32, 64, 128][b % 8] % 2 == 1
  {
    hide Bit;
    BitIs(bitmap[b / 4096][b % 4096 / 8], b % 8);
  }

  // ----------------------------------------------------------------- slots

  /** An inode has 141 places that can hold a block number: 12 direct ones, 128
      in the indirect block, and the indirect block itself. */
  const SLOTS := 141
  const INDIRECT_SLOT := 140

  ghost predicate ValidEntry(e: Entry) {
    |e.addrs| == INODE_NUM_DIRECT
  }

  function Addr(blocks: seq<Block>, e: Entry, s: nat): (a: nat)
    requires |e.addrs| == INODE_NUM_DIRECT && s < SLOTS
  {
    if s < INODE_NUM_DIRECT then e.addrs[s]
    else if s == INDIRECT_SLOT then e.indirect
    else if e.indirect == 0 || e.indirect >= |blocks| then 0
    else Word(blocks[e.indirect], s - INODE_NUM_DIRECT)
  }

  type Table = t: seq<Entry> | forall i :: 0 <= i < |t| ==> |t[i].addrs| == INODE_NUM_DIRECT

  /** Slot `s` of inode `i` points to block `b`. */
  predicate Points(blocks: seq<Block>, tab: Table, i: nat, s: nat, b: nat) {
    i < |tab| && s < SLOTS && Addr(blocks, tab[i], s) == b
  }

  /** Every pointer goes to a marked data block that is not loose. */
  ghost predicate PointersValid(sb: Super, blocks: seq<Block>, bitmap: Bitmap, tab: Table, loose: set<nat>)
    requires ValidBitmap(sb, bitmap)
  {
    forall i: nat, s: nat, b: nat {:trigger Points(blocks, tab, i, s, b)} :: Points(blocks, tab, i, s, b) && b != 0 ==>
      sb.dataStart <= b < sb.numBlocks && Used(bitmap, b) && b !in loose
  }

  ghost predicate PointersUnique(blocks: seq<Block>, tab: Table) {
    forall i: nat, s: nat, j: nat, t: nat, b: nat {:trigger Points(blocks, tab, i, s, b), Points(blocks, tab, j, t, b)} ::
      Points(blocks, tab, i, s, b) && Points(blocks, tab, j, t, b) && b != 0 ==> i == j && s == t
  }

  ghost predicate PointedTo(blocks: seq<Block>, tab: Table, b: nat) {
    exists i: nat, s: nat :: Points(blocks, tab, i, s, b)
  }

  /** Every marked data block is pointed to or loose, and metadata is marked. */
  ghost predicate MarksJustified(sb: Super, blocks: seq<Block>, bitmap: Bitmap, tab: Table, loose: set<nat>)
    requires ValidBitmap(sb, bitmap)
  {
    && (forall b: nat :: b < sb.dataStart && b < sb.numBlocks ==> Used(bitmap, b))
    && (forall b: nat :: sb.dataStart <= b < sb.numBlocks && Used(bitmap, b) ==>
          b in loose || PointedTo(blocks, tab, b))
    && (forall b :: b in loose ==> sb.dataStart <= b < sb.numBlocks && Used(bitmap, b))
  }

  /** `loose` holds the blocks that are allocated and not yet (or no longer)
      linked to an inode; it is empty between operations. */
  ghost predicate Owned(sb: Super, blocks: seq<Block>, bitmap: Bitmap, tab: Table, loose: set<nat>) {
    && ValidSuper(sb) && ValidBitmap(sb, bitmap) && |blocks| == sb.numBlocks
    && PointersValid(sb, blocks, bitmap, tab, loose)
    && PointersUnique(blocks, tab)
    && MarksJustified(sb, blocks, bitmap, tab, loose)
  }

  // ----------------------------------------------------- marking blocks

  function Mark(bitmap: Bitmap, b: nat): (r: Bitmap)
    requires b < BIT_PER_BLOCK * |bitmap| && !Used(bitmap, b)
    ensures |r| == |bitmap|
  {
    var block := bitmap[b / BIT_PER_BLOCK];
    var i := b % BIT_PER_BLOCK / 8;
    SetStaysInRangeByte(block[i], b % 8);
    bitmap[b / BIT_PER_BLOCK := block[i := WithBit(block[i], b % 8)]]
  }

  function Unmark(bitmap: Bitmap, b: nat): (r: Bitmap)
    requires b < BIT_PER_BLOCK * |bitmap| && Used(bitmap, b)
    ensures |r| == |bitmap|
  {
    var block := bitmap[b / BIT_PER_BLOCK];
    var i := b % BIT_PER_BLOCK / 8;
    bitmap[b / BIT_PER_BLOCK := block[i := WithoutBit(block[i], b % 8)]]
  }

  lemma SetStaysInRangeByte(x: Byte, k: nat)
    requires k < 8 && !Bit(x, k)
    ensures WithBit(x, k) < 256
  {
    EightBits();
    SetStaysInRange(x, k, 8);
  }

  /** Block numbers with the same place in the bitmap are equal. */
  lemma SamePlace(a: nat, b: nat)
    requires a / BIT_PER_BLOCK == b / BIT_PER_BLOCK
    requires a % BIT_PER_BLOCK / 8 == b % BIT_PER_BLOCK / 8 && a % 8 == b % 8
    ensures a == b
  {
    LowBits(a);
    LowBits(b);
  }

  lemma LowBits(a: nat)
    ensures a % BIT_PER_BLOCK % 8 == a % 8
    ensures a == BIT_PER_BLOCK * (a / BIT_PER_BLOCK) + 8 * (a % BIT_PER_BLOCK / 8) + a % 8
  {
    var q, c := a / BIT_PER_BLOCK, a % BIT_PER_BLOCK;
    assert a == 8 * (512 * q + c / 8) + c % 8;
    Remainder(a, 512 * q + c / 8, c % 8);
  }

  lemma Remainder(x: nat, q: nat, r: nat)
    requires x == 8 * q + r && r < 8
    ensures x % 8 == r
  {
  }

  lemma UsedAfterMark(bitmap: Bitmap, b: nat, c: nat)
    requires b < BIT_PER_BLOCK * |bitmap| && !Used(bitmap, b) && c < BIT_PER_BLOCK * |bitmap|
    ensures Used(Mark(bitmap, b), c) <==> c == b || Used(bitmap, c)
  {
    if c / BIT_PER_BLOCK == b / BIT_PER_BLOCK && c % BIT_PER_BLOCK / 8 == b % BIT_PER_BLOCK / 8 {
      BitsAfterSet(bitmap[b / BIT_PER_BLOCK][b % BIT_PER_BLOCK / 8], b % 8, c % 8);
      if c % 8 == b % 8 {
        SamePlace(c, b);
      }
    }
  }

  lemma UsedAfterUnmark(bitmap: Bitmap, b: nat, c: nat)
    requires b < BIT_PER_BLOCK * |bitmap| && Used(bitmap, b) && c < BIT_PER_BLOCK * |bitmap|
    ensures Used(Unmark(bitmap, b), c) <==> c != b && Used(bitmap, c)
  {
    if c / BIT_PER_BLOCK == b / BIT_PER_BLOCK && c % BIT_PER_BLOCK / 8 == b % BIT_PER_BLOCK / 8 {
      BitsAfterClear(bitmap[b / BIT_PER_BLOCK][b % BIT_PER_BLOCK / 8], b % 8, c % 8);
      if c % 8 == b % 8 {
        SamePlace(c, b);
      }
    }
  }

  // ---------------------------------------------- primitive changes

  /** Every pointer of `e` and the contents of its blocks are as before. */
  ghost predicate SameFile(blocks: seq<Block>, blocks': seq<Block>, e: Entry)
    requires ValidEntry(e)
  {
    && |blocks'| == |blocks|
    && (forall s :: 0 <= s < SLOTS ==> Addr(blocks', e, s) == Addr(blocks, e, s))
    && (forall s :: 0 <= s < SLOTS ==>
          var a := Addr(blocks, e, s); 0 < a < |blocks| ==> blocks'[a] == blocks[a])
  }

  /** Writing a block that no slot of `e` points to does not change its file. */
  lemma OtherBlock(blocks: seq<Block>, e: Entry, b: nat, data: Block)
    requires ValidEntry(e) && b < |blocks|
    requires forall s :: 0 <= s < SLOTS ==> Addr(blocks, e, s) != b
    ensures SameFile(blocks, blocks[b := data], e)
  {
    assert Addr(blocks, e, INDIRECT_SLOT) == e.indirect;
  }

  /** Nothing points to a block that is not marked, or that is loose. */
  lemma NotPointed(sb: Super, blocks: seq<Block>, bitmap: Bitmap, tab: Table, loose: set<nat>, b: nat)
    requires Owned(sb, blocks, bitmap, tab, loose) && 0 < b < sb.numBlocks
    requires !Used(bitmap, b) || b in loose || b < sb.dataStart
    ensures forall i: nat, s: nat :: !Points(blocks, tab, i, s, b)
  {
  }

  /** A free block is a data block. */
  lemma FreeIsData(sb: Super, blocks: seq<Block>, bitmap: Bitmap, tab: Table, loose: set<nat>, b: nat)
    requires Owned(sb, blocks, bitmap, tab, loose) && b < sb.numBlocks && !Used(bitmap, b)
    ensures sb.dataStart <= b
  {
  }

  /** Writing a block that nothing points to changes no file. */
  lemma UnpointedWrite(blocks: seq<Block>, tab: Table, b: nat, data: Block)
    requires b < |blocks| && forall i: nat, s: nat :: !Points(blocks, tab, i, s, b)
    ensures forall i :: 0 <= i < |tab| ==> SameFile(blocks, blocks[b := data], tab[i])
  {
    forall i | 0 <= i < |tab| ensures SameFile(blocks, blocks[b := data], tab[i]) {
      forall s | 0 <= s < SLOTS ensures Addr(blocks, tab[i], s) != b {
        assert !Points(blocks, tab, i, s, b);
      }
      OtherBlock(blocks, tab[i], b, data);
    }
  }

  /** Ownership only depends on what the slots point to. */
  lemma SamePointsOwned(sb: Super, blocks: seq<Block>, blocks': seq<Block>, bitmap: Bitmap, tab: Table,
                        tab': Table, loose: set<nat>)
    requires Owned(sb, blocks, bitmap, tab, loose) && |blocks'| == |blocks|
    requires forall i: nat, s: nat, c: nat :: Points(blocks', tab', i, s, c) <==> Points(blocks, tab, i, s, c)
    ensures Owned(sb, blocks', bitmap, tab', loose)
  {
    forall c: nat | sb.dataStart <= c < sb.numBlocks && Used(bitmap, c)
      ensures c in loose || PointedTo(blocks', tab', c)
    {
      if c !in loose {
        var i: nat, s: nat :| Points(blocks, tab, i, s, c);
        assert Points(blocks', tab', i, s, c);
      }
    }
  }

  lemma SameFilesPoints(blocks: seq<Block>, blocks': seq<Block>, tab: Table)
    requires forall i :: 0 <= i < |tab| ==> SameFile(blocks, blocks', tab[i])
    ensures forall i: nat, s: nat, c: nat :: Points(blocks', tab, i, s, c) <==> Points(blocks, tab, i, s, c)
  {
  }

  /** cache_alloc: the block becomes loose, and no file changes. */
  lemma AllocKeeps(sb: Super, blocks: seq<Block>, bitmap: Bitmap, tab: Table, loose: set<nat>, b: nat)
    requires Owned(sb, blocks, bitmap, tab, loose) && b < sb.numBlocks && !Used(bitmap, b)
    ensures Owned(sb, blocks[b := ZeroBlock()], Mark(bitmap, b), tab, loose + {b})
    ensures forall i :: 0 <= i < |tab| ==> SameFile(blocks, blocks[b := ZeroBlock()], tab[i])
    ensures sb.dataStart <= b && b !in loose
  {
    var blocks' := blocks[b := ZeroBlock()];
    FreeIsData(sb, blocks, bitmap, tab, loose, b);
    NotPointed(sb, blocks, bitmap, tab, loose, b);
    UnpointedWrite(blocks, tab, b, ZeroBlock());
    SameFilesPoints(blocks, blocks', tab);
    SamePointsOwned(sb, blocks, blocks', bitmap, tab, tab, loose);
    MarkKeeps(sb, blocks', bitmap, tab, loose, b);
  }

  lemma MarkKeeps(sb: Super, blocks: seq<Block>, bitmap: Bitmap, tab: Table, loose: set<nat>, b: nat)
    requires Owned(sb, blocks, bitmap, tab, loose) && sb.dataStart <= b < sb.numBlocks && !Used(bitmap, b)
    ensures Owned(sb, blocks, Mark(bitmap, b), tab, loose + {b})
  {
    forall c: nat | c < sb.numBlocks ensures Used(Mark(bitmap, b), c) <==> c == b || Used(bitmap, c) {
      UsedAfterMark(bitmap, b, c);
    }
  }

  /** cache_free of a loose block. */
  lemma FreeKeeps(sb: Super, blocks: seq<Block>, bitmap: Bitmap, tab: Table, loose: set<nat>, b: nat)
    requires Owned(sb, blocks, bitmap, tab, loose) && b in loose
    ensures b < sb.numBlocks && Used(bitmap, b)
    ensures Owned(sb, blocks, Unmark(bitmap, b), tab, loose - {b})
  {
    forall c: nat | c < sb.numBlocks ensures Used(Unmark(bitmap, b), c) <==> c != b && Used(bitmap, c) {
      UsedAfterUnmark(bitmap, b, c);
    }
  }

  /** Storing a loose block number in an empty slot. */
  lemma LinkKeeps(sb: Super, blocks: seq<Block>, blocks': seq<Block>, bitmap: Bitmap, tab: Table, tab': Table,
                  loose: set<nat>, ino: nat, slot: nat, b: nat)
    requires Owned(sb, blocks, bitmap, tab, loose) && b in loose && |blocks'| == |blocks|
    requires Points(blocks, tab, ino, slot, 0)
    requires forall i: nat, s: nat, c: nat :: Points(blocks', tab', i, s, c) <==>
      if i == ino && s == slot then c == b else Points(blocks, tab, i, s, c)
    ensures Owned(sb, blocks', bitmap, tab', loose - {b})
  {
    NotPointed(sb, blocks, bitmap, tab, loose, b);
    assert Points(blocks', tab', ino, slot, b);
    forall c: nat | sb.dataStart <= c < sb.numBlocks && Used(bitmap, c)
      ensures c in loose - {b} || PointedTo(blocks', tab', c)
    {
      if c !in loose {
        var i: nat, s: nat :| Points(blocks, tab, i, s, c);
        assert Points(blocks', tab', i, s, c);
      }
    }
  }

  /** entry->addrs[k] = b */
  lemma LinkDirect(sb: Super, blocks: seq<Block>, bitmap: Bitmap, tab: Table, loose: set<nat>, ino: nat, k: nat, b: nat)
    requires Owned(sb, blocks, bitmap, tab, loose) && b in loose
    requires ino < |tab| && k < INODE_NUM_DIRECT && tab[ino].addrs[k] == 0
    ensures var e := tab[ino].(addrs := tab[ino].addrs[k := b]);
      Owned(sb, blocks, bitmap, tab[ino := e], loose - {b})
  {
    var e := tab[ino].(addrs := tab[ino].addrs[k := b]);
    LinkKeeps(sb, blocks, blocks, bitmap, tab, tab[ino := e], loose, ino, k, b);
  }

  /** entry->indirect = b, for a zeroed block b */
  lemma LinkIndirect(sb: Super, blocks: seq<Block>, bitmap: Bitmap, tab: Table, loose: set<nat>, ino: nat, b: nat)
    requires Owned(sb, blocks, bitmap, tab, loose) && b in loose
    requires ino < |tab| && tab[ino].indirect == 0 && b < |blocks| && blocks[b] == ZeroBlock()
    ensures Owned(sb, blocks, bitmap, tab[ino := tab[ino].(indirect := b)], loose - {b})
    ensures forall s :: 0 <= s < INDIRECT_SLOT ==>
      Addr(blocks, tab[ino].(indirect := b), s) == Addr(blocks, tab[ino], s)
  {
    var e := tab[ino].(indirect := b);
    forall s | 0 <= s < INDIRECT_SLOT ensures Addr(blocks, e, s) == Addr(blocks, tab[ino], s) {
      if s >= INODE_NUM_DIRECT {
        ZeroWords(s - INODE_NUM_DIRECT);
      }
    }
    LinkKeeps(sb, blocks, blocks, bitmap, tab, tab[ino := e], loose, ino, INDIRECT_SLOT, b);
  }

  /** Addresses after a word of the indirect block was set. */
  lemma AddrAfterSet(blocks: seq<Block>, e: Entry, j: nat, b: nat, s: nat)
    requires ValidEntry(e) && 0 < e.indirect < |blocks| && j < INODE_NUM_INDIRECT && b < U32_LIMIT && s < SLOTS
    ensures Addr(blocks[e.indirect := SetWord(blocks[e.indirect], j, b)], e, s)
         == if s == INODE_NUM_DIRECT + j then b else Addr(blocks, e, s)
  {
    if INODE_NUM_DIRECT <= s < INDIRECT_SLOT {
      WordAfterSet(blocks[e.indirect], j, b, s - INODE_NUM_DIRECT);
    }
  }

  /** Blocks that inode `ino` points to are not pointed to by another one. */
  lemma OthersElsewhere(sb: Super, blocks: seq<Block>, bitmap: Bitmap, tab: Table, loose: set<nat>,
                        ino: nat, slot: nat, data: Block)
    requires Owned(sb, blocks, bitmap, tab, loose) && ino < |tab| && slot < SLOTS
    requires Addr(blocks, tab[ino], slot) != 0
    ensures var a := Addr(blocks, tab[ino], slot);
      && sb.dataStart <= a < |blocks|
      && forall i :: 0 <= i < |tab| && i != ino ==> SameFile(blocks, blocks[a := data], tab[i])
  {
    var a := Addr(blocks, tab[ino], slot);
    assert Points(blocks, tab, ino, slot, a);
    forall i | 0 <= i < |tab| && i != ino ensures SameFile(blocks, blocks[a := data], tab[i]) {
      forall s | 0 <= s < SLOTS ensures Addr(blocks, tab[i], s) != a {
        assert !Points(blocks, tab, i, s, a);
      }
      OtherBlock(blocks, tab[i], a, data);
    }
  }

  /** a[j] = b in the indirect block */
  lemma LinkWord(sb: Super, blocks: seq<Block>, bitmap: Bitmap, tab: Table, loose: set<nat>, ino: nat, j: nat, b: nat)
    requires Owned(sb, blocks, bitmap, tab, loose) && b in loose
    requires ino < |tab| && j < INODE_NUM_INDIRECT
    requires 0 < tab[ino].indirect < |blocks| && Word(blocks[tab[ino].indirect], j) == 0
    ensures b < U32_LIMIT
    ensures Owned(sb, blocks[tab[ino].indirect := SetWord(blocks[tab[ino].indirect], j, b)], bitmap, tab, loose - {b})
    ensures forall i :: 0 <= i < |tab| && i != ino ==>
      SameFile(blocks, blocks[tab[ino].indirect := SetWord(blocks[tab[ino].indirect], j, b)], tab[i])
  {
    var a := tab[ino].indirect;
    var blocks' := blocks[a := SetWord(blocks[a], j, b)];
    OthersElsewhere(sb, blocks, bitmap, tab, loose, ino, INDIRECT_SLOT, SetWord(blocks[a], j, b));
    forall s: nat | s < SLOTS
      ensures Addr(blocks', tab[ino], s) == if s == INODE_NUM_DIRECT + j then b else Addr(blocks, tab[ino], s)
    {
      AddrAfterSet(blocks, tab[ino], j, b, s);
    }
    LinkKeeps(sb, blocks, blocks', bitmap, tab, tab, loose, ino, INODE_NUM_DIRECT + j, b);
  }

  /** Writing a data block of inode `ino`. */
  lemma DataWrite(sb: Super, blocks: seq<Block>, bitmap: Bitmap, tab: Table, loose: set<nat>,
                  ino: nat, k: nat, data: Block)
    requires Owned(sb, blocks, bitmap, tab, loose) && ino < |tab| && k < INODE_MAX_BLOCKS
    requires Addr(blocks, tab[ino], k) != 0
    ensures var a := Addr(blocks, tab[ino], k);
      && a < |blocks|
      && Owned(sb, blocks[a := data], bitmap, tab, loose)
      && (forall i :: 0 <= i < |tab| && i != ino ==> SameFile(blocks, blocks[a := data], tab[i]))
      && (forall s :: 0 <= s < SLOTS ==> Addr(blocks[a := data], tab[ino], s) == Addr(blocks, tab[ino], s))
      && (forall s :: 0 <= s < SLOTS && s != k && Addr(blocks, tab[ino], s) != 0 ==> Addr(blocks, tab[ino], s) != a)
  {
    var a := Addr(blocks, tab[ino], k);
    OthersElsewhere(sb, blocks, bitmap, tab, loose, ino, k, data);
    assert Points(blocks, tab, ino, k, a);
    forall s: nat | s < SLOTS && s != k ensures Addr(blocks, tab[ino], s) != a {
      assert !Points(blocks, tab, ino, s, a);
    }
    assert Addr(blocks, tab[ino], INDIRECT_SLOT) == tab[ino].indirect;
    SamePointsOwned(sb, blocks, blocks[a := data], bitmap, tab, tab, loose);
  }

  // ---------------------------------------------------- unlinking a file

  /** The blocks that entry `e` points to. */
  function BlocksOf(blocks: seq<Block>, e: Entry): set<nat>
    requires |e.addrs| == INODE_NUM_DIRECT
  {
    (set s | 0 <= s < SLOTS :: Addr(blocks, e, s)) - {0}
  }

  function Truncated(e: Entry): Entry {
    e.(addrs := seq(INODE_NUM_DIRECT, _ => 0), indirect := 0, numBytes := 0)
  }

  lemma TruncatedAddr(blocks: seq<Block>, e: Entry, s: nat)
    requires s < SLOTS
    ensures |Truncated(e).addrs| == INODE_NUM_DIRECT && Addr(blocks, Truncated(e), s) == 0
  {
  }

  /** Emptying an entry makes exactly its blocks loose. */
  lemma UnlinkAll(sb: Super, blocks: seq<Block>, bitmap: Bitmap, tab: Table, ino: nat)
    requires Owned(sb, blocks, bitmap, tab, {}) && ino < |tab|
    ensures Owned(sb, blocks, bitmap, tab[ino := Truncated(tab[ino])], BlocksOf(blocks, tab[ino]))
  {
    var tab' := tab[ino := Truncated(tab[ino])];
    var gone := BlocksOf(blocks, tab[ino]);
    forall i: nat, s: nat, c: nat
      ensures Points(blocks, tab', i, s, c) <==>
        i < |tab| && s < SLOTS && if i == ino then c == 0 else Points(blocks, tab, i, s, c)
    {
      if i == ino && s < SLOTS {
        TruncatedAddr(blocks, tab[ino], s);
      }
    }
    GoneBlocks(sb, blocks, bitmap, tab, ino);
    forall c: nat | sb.dataStart <= c < sb.numBlocks && Used(bitmap, c)
      ensures c in gone || PointedTo(blocks, tab', c)
    {
      var i: nat, s: nat :| Points(blocks, tab, i, s, c);
      if i != ino {
        assert Points(blocks, tab', i, s, c);
      }
    }
  }

  /** A block is gone exactly when a slot of the inode points to it. */
  lemma GoneBlocks(sb: Super, blocks: seq<Block>, bitmap: Bitmap, tab: Table, ino: nat)
    requires Owned(sb, blocks, bitmap, tab, {}) && ino < |tab|
    ensures forall c: nat :: c in BlocksOf(blocks, tab[ino]) ==>
      && sb.dataStart <= c < sb.numBlocks && Used(bitmap, c)
      && forall i: nat, s: nat :: Points(blocks, tab, i, s, c) ==> i == ino
  {
    forall c: nat | c in BlocksOf(blocks, tab[ino])
      ensures sb.dataStart <= c < sb.numBlocks && Used(bitmap, c)
      ensures forall i: nat, s: nat :: Points(blocks, tab, i, s, c) ==> i == ino
    {
      var s :| 0 <= s < SLOTS && Addr(blocks, tab[ino], s) == c;
      assert Points(blocks, tab, ino, s, c);
    }
  }
}
