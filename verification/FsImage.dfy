/**
  The blocks of the file system as bytes, as the block cache presents them: the
  inode blocks (src/fs/defines.h), the bitmap blocks and the others; and what the
  syncs of an operation do to them.
 */
module FsImage {
  import opened FsLayout
  import opened FsOwnership

  // ------------------------------------------------------- inode entries

  const U16_MAX := 0x1_0000
  const ENTRY_SIZE := 64

  function Half(x: nat): (r: seq<Byte>)
    ensures |r| == 2
  {
    [x % 0x100, x / 0x100 % 0x100]
  }

  function Quad(x: nat): (r: seq<Byte>)
    ensures |r| == 4
  {
    Half(x) + Half(x / U16_MAX)
  }

  function Quads(a: seq<nat>): (r: seq<Byte>)
    ensures |r| == 4 * |a|
  {
    if a == [] then [] else Quads(a[..|a| - 1]) + Quad(a[|a| - 1])
  }

  function Word16(bytes: seq<Byte>, i: nat): (w: nat)
    requires i + 1 < |bytes|
    ensures w < U16_MAX
  {
    var low: nat, high: nat := bytes[i], bytes[i + 1];
    low + 0x100 * high
  }

  function Word32(bytes: seq<Byte>, i: nat): (w: nat)
    requires i + 3 < |bytes|
    ensures w < U32_LIMIT
  {
    Word16(bytes, i) + U16_MAX * Word16(bytes, i + 2)
  }

  /** The fields of an entry have 16 and 32 bits. */
  ghost predicate FieldsFit(e: Entry) {
    && e.kind < U16_MAX && e.major < U16_MAX && e.minor < U16_MAX && e.numLinks < U16_MAX
    && e.numBytes < U32_LIMIT && e.indirect < U32_LIMIT && |e.addrs| == INODE_NUM_DIRECT
    && forall k :: 0 <= k < |e.addrs| ==> e.addrs[k] < U32_LIMIT
  }

  function EntryBytes(e: Entry): (r: seq<Byte>)
    requires |e.addrs| == INODE_NUM_DIRECT
    ensures |r| == ENTRY_SIZE
  {
    (Half(e.kind) + Half(e.major) + Half(e.minor) + Half(e.numLinks) + Quad(e.numBytes)) + Quads(e.addrs) + Quad(e.indirect)
  }

  function EntryOf(bytes: seq<Byte>): (e: Entry)
    requires |bytes| == ENTRY_SIZE
    ensures |e.addrs| == INODE_NUM_DIRECT
  {
    Entry(Word16(bytes, 0), Word16(bytes, 2), Word16(bytes, 4), Word16(bytes, 6), Word32(bytes, 8),
          seq(INODE_NUM_DIRECT, k requires 0 <= k < INODE_NUM_DIRECT => Word32(bytes, 12 + 4 * k)), Word32(bytes, 60))
  }

  lemma HalfWord(x: nat)
    requires x < U16_MAX
    ensures Word16(Half(x), 0) == x
  {
  }

  lemma QuadWord(x: nat)
    requires x < U32_LIMIT
    ensures Word32(Quad(x), 0) == x
  {
    var low, high := x % U16_MAX, x / U16_MAX;
    assert x == U16_MAX * high + low;
    LowHalf(x);
    assert Quad(x)[..2] == Half(x) && Quad(x)[2..] == Half(high);
    HalfWord(high);
  }

  lemma LowHalf(x: nat)
    ensures x % 0x100 + 0x100 * (x / 0x100 % 0x100) == x % U16_MAX
  {
    var q := x / 0x100;
    assert x == U16_MAX * (q / 0x100) + (0x100 * (q % 0x100) + x % 0x100);
  }

  /** Words of a part of a sequence. */
  lemma WordInside(a: seq<Byte>, b: seq<Byte>, c: seq<Byte>, i: nat)
    ensures i + 1 < |b| ==> Word16(a + b + c, |a| + i) == Word16(b, i)
    ensures i + 3 < |b| ==> Word32(a + b + c, |a| + i) == Word32(b, i)
  {
  }

  lemma {:induction false} QuadsWord(a: seq<nat>, k: nat)
    requires k < |a| && forall i :: 0 <= i < |a| ==> a[i] < U32_LIMIT
    ensures Word32(Quads(a), 4 * k) == a[k]
  {
    var n := |a| - 1;
    if k < n {
      QuadsWord(a[..n], k);
      WordInside([], Quads(a[..n]), Quad(a[n]), 4 * k);
      assert [] + Quads(a[..n]) + Quad(a[n]) == Quads(a);
    } else {
      QuadWord(a[n]);
      WordInside(Quads(a[..n]), Quad(a[n]), [], 0);
      assert Quads(a[..n]) + Quad(a[n]) + [] == Quads(a);
    }
  }

  /** The bytes of an entry read back as the entry. */
  lemma EntryRoundTrip(e: Entry)
    requires FieldsFit(e)
    ensures EntryOf(EntryBytes(e)) == e
  {
    hide Half, Quad, Quads, Word16, Word32;
    var head := Half(e.kind) + Half(e.major) + Half(e.minor) + Half(e.numLinks) + Quad(e.numBytes);
    var all := EntryBytes(e);
    HeadWords(e, head, Quads(e.addrs) + Quad(e.indirect));
    assert head + (Quads(e.addrs) + Quad(e.indirect)) == all;
    forall k | 0 <= k < INODE_NUM_DIRECT ensures Word32(all, 12 + 4 * k) == e.addrs[k] {
      QuadsWord(e.addrs, k);
      WordInside(head, Quads(e.addrs), Quad(e.indirect), 4 * k);
    }
    QuadWord(e.indirect);
    WordInside(head + Quads(e.addrs), Quad(e.indirect), [], 0);
    assert head + Quads(e.addrs) + Quad(e.indirect) + [] == all;
  }

  lemma HeadWords(e: Entry, head: seq<Byte>, tail: seq<Byte>)
    requires FieldsFit(e) && |tail| == 52
    requires head == Half(e.kind) + Half(e.major) + Half(e.minor) + Half(e.numLinks) + Quad(e.numBytes)
    ensures Word16(head + tail, 0) == e.kind && Word16(head + tail, 2) == e.major && Word16(head + tail, 4) == e.minor
    ensures Word16(head + tail, 6) == e.numLinks && Word32(head + tail, 8) == e.numBytes
  {
    hide Half, Quad, Word16, Word32;
    var k, a, i, l, b := Half(e.kind), Half(e.major), Half(e.minor), Half(e.numLinks), Quad(e.numBytes);
    HalfWord(e.kind);
    HalfWord(e.major);
    HalfWord(e.minor);
    HalfWord(e.numLinks);
    QuadWord(e.numBytes);
    WordInside([], k, a + i + l + b + tail, 0);
    assert [] + k + (a + i + l + b + tail) == head + tail;
    WordInside(k, a, i + l + b + tail, 0);
    assert k + a + (i + l + b + tail) == head + tail;
    WordInside(k + a, i, l + b + tail, 0);
    assert (k + a) + i + (l + b + tail) == head + tail;
    WordInside(k + a + i, l, b + tail, 0);
    assert (k + a + i) + l + (b + tail) == head + tail;
    WordInside(k + a + i + l, b, tail, 0);
    assert (k + a + i + l) + b + tail == head + tail;
  }

  /** Entry `j` of an inode block. */
  function EntryAt(block: Block, j: nat): (e: Entry)
    requires j < INODE_PER_BLOCK
    ensures |e.addrs| == INODE_NUM_DIRECT
  {
    EntryOf(block[ENTRY_SIZE * j..ENTRY_SIZE * (j + 1)])
  }

  function PutEntry(block: Block, j: nat, e: Entry): Block
    requires j < INODE_PER_BLOCK && |e.addrs| == INODE_NUM_DIRECT
  {
    block[..ENTRY_SIZE * j] + EntryBytes(e) + block[ENTRY_SIZE * (j + 1)..]
  }

  /** Where the fields of inode `i` are in the image, lowest byte first. */
  lemma InodeBytes(sb: Super, image: seq<Block>, i: nat)
    requires ValidSuper(sb) && |image| == sb.numBlocks && i <= sb.numInodes
    ensures var e, b, at := InodesOf(sb, image)[i], sb.inodeStart + i / 8, 64 * (i % 8);
      && b < |image| && at + 64 <= 512
      && e.kind == LowFirst(image[b][at..at + 2]) && e.major == LowFirst(image[b][at + 2..at + 4])
      && e.minor == LowFirst(image[b][at + 4..at + 6]) && e.numLinks == LowFirst(image[b][at + 6..at + 8])
      && e.numBytes == LowFirst(image[b][at + 8..at + 12]) && e.indirect == LowFirst(image[b][at + 60..at + 64])
      && |e.addrs| == 12
      && forall k :: 0 <= k < 12 ==> e.addrs[k] == LowFirst(image[b][at + 12 + 4 * k..at + 16 + 4 * k])
  {
    hide Word16, Word32, LowFirst;
    SomeBitmap(sb);
    Regions(sb, 0, i);
    var e, block, at := InodesOf(sb, image)[i], image[sb.inodeStart + i / 8], 64 * (i % 8);
    FieldBytes(block, at, 0);
    FieldBytes(block, at, 2);
    FieldBytes(block, at, 4);
    FieldBytes(block, at, 6);
    FieldBytes(block, at, 8);
    FieldBytes(block, at, 60);
    forall k | 0 <= k < 12 ensures e.addrs[k] == LowFirst(block[at + 12 + 4 * k..at + 16 + 4 * k]) {
      FieldBytes(block, at, 12 + 4 * k);
    }
  }

  /** The number that bytes spell, lowest byte first. */
  function LowFirst(bytes: seq<Byte>): nat {
    if bytes == [] then 0 else var low: nat := bytes[0]; low + 256 * LowFirst(bytes[1..])
  }

  lemma FieldBytes(block: Block, at: nat, i: nat)
    requires at + 64 <= 512 && i + 4 <= 64
    ensures var bytes := block[at..at + 64];
      Word16(bytes, i) == LowFirst(block[at + i..at + i + 2]) && Word32(bytes, i) == LowFirst(block[at + i..at + i + 4])
  {
    var bytes := block[at..at + 64];
    TwoBytes(block[at + i..at + i + 2]);
    FourBytes(block[at + i..at + i + 4]);
  }

  lemma TwoBytes(b: seq<Byte>)
    requires |b| == 2
    ensures LowFirst(b) == Word16(b, 0)
  {
    assert b[1..][1..] == [];
    assert LowFirst(b[1..]) == b[1];
  }

  lemma FourBytes(b: seq<Byte>)
    requires |b| == 4
    ensures LowFirst(b) == Word32(b, 0)
  {
    TwoBytes(b[2..]);
    assert b[1..][1..] == b[2..];
    assert LowFirst(b[1..]) == (var x: nat := b[1]; x) + 256 * LowFirst(b[2..]);
  }

  lemma EntryFits(block: Block, j: nat)
    requires j < INODE_PER_BLOCK
    ensures FieldsFit(EntryAt(block, j))
  {
  }

  /** A stored entry reads back, and the other entries of the block are kept. */
  lemma EntryAfterPut(block: Block, i: nat, e: Entry, j: nat)
    requires i < INODE_PER_BLOCK && j < INODE_PER_BLOCK && FieldsFit(e)
    ensures EntryAt(PutEntry(block, i, e), j) == if j == i then e else EntryAt(block, j)
  {
    hide EntryOf, EntryBytes;
    var after := PutEntry(block, i, e);
    var slice := after[ENTRY_SIZE * j..ENTRY_SIZE * (j + 1)];
    if j == i {
      assert slice == EntryBytes(e);
      EntryRoundTrip(e);
    } else {
      assert slice == block[ENTRY_SIZE * j..ENTRY_SIZE * (j + 1)];
    }
  }

  // ------------------------------------------------------------- syncs

  /** A call of cache->sync: the block and its contents at that moment. */
  datatype Sync = Sync(block: nat, data: Block)

  function Numbers(q: seq<Sync>): set<nat> {
    set i | 0 <= i < |q| :: q[i].block
  }

  /** The blocks after the syncs. */
  function Applied(image: seq<Block>, q: seq<Sync>): (r: seq<Block>)
    ensures |r| == |image|
  {
    if q == [] then image
    else
      var a, x := Applied(image, q[..|q| - 1]), q[|q| - 1];
      if x.block < |image| then a[x.block := x.data] else a
  }

  lemma SyncMore(image: seq<Block>, q: seq<Sync>, x: Sync)
    ensures Numbers(q + [x]) == Numbers(q) + {x.block}
    ensures x.block < |image| ==> Applied(image, q + [x]) == Applied(image, q)[x.block := x.data]
  {
    var r := q + [x];
    assert r[..|r| - 1] == q;
    forall b ensures b in Numbers(r) <==> b in Numbers(q) || b == x.block {
      if b in Numbers(q) {
        var i :| 0 <= i < |q| && q[i].block == b;
        assert r[i].block == b;
      }
      if b == x.block {
        assert r[|q|].block == b;
      }
    }
  }

  lemma {:induction false} AppliedConcat(image: seq<Block>, p: seq<Sync>, q: seq<Sync>)
    ensures Applied(image, p + q) == Applied(Applied(image, p), q)
  {
    if q == [] {
      assert p + q == p;
    } else {
      AppliedConcat(image, p, q[..|q| - 1]);
      assert (p + q)[..|p + q| - 1] == p + q[..|q| - 1];
    }
  }

  lemma NumbersPrefix(q: seq<Sync>, i: nat)
    requires i <= |q|
    ensures Numbers(q[..i]) <= Numbers(q)
  {
  }

  // ------------------------------------------- the image and its parts

  function BitmapCount(sb: Super): nat {
    (sb.numBlocks + BIT_PER_BLOCK - 1) / BIT_PER_BLOCK
  }

  /** `image` holds the data blocks, the bitmap and the inodes. */
  ghost predicate Agrees(sb: Super, image: seq<Block>, blocks: seq<Block>, bitmap: Bitmap, dinode: Table) {
    && ValidSuper(sb) && |image| == sb.numBlocks && |blocks| == sb.numBlocks
    && |bitmap| == BitmapCount(sb) && |dinode| == sb.numInodes + 1
    && (forall b :: sb.dataStart <= b < sb.numBlocks ==> image[b] == blocks[b])
    && (forall i :: 0 <= i < |bitmap| ==> HoldsBitmap(sb, image, bitmap, i))
    && (forall i :: 0 <= i < |dinode| ==> HoldsInode(sb, image, dinode, i))
  }

  ghost predicate HoldsBitmap(sb: Super, image: seq<Block>, bitmap: Bitmap, i: nat)
    requires i < |bitmap|
  {
    sb.bitmapStart + i < |image| && image[sb.bitmapStart + i] == bitmap[i]
  }

  ghost predicate HoldsInode(sb: Super, image: seq<Block>, dinode: Table, i: nat)
    requires i < |dinode|
  {
    InodeBlock(sb, i) < |image| && EntryAt(image[InodeBlock(sb, i)], i % INODE_PER_BLOCK) == dinode[i]
  }

  /** Inode blocks, bitmap blocks and data blocks are different blocks. */
  lemma Regions(sb: Super, i: nat, ino: nat)
    requires ValidSuper(sb) && i < BitmapCount(sb) && ino <= sb.numInodes
    ensures InodeBlock(sb, ino) < sb.bitmapStart <= sb.bitmapStart + i < sb.dataStart <= sb.numBlocks
  {
    assert i <= (sb.numBlocks - 1) / BIT_PER_BLOCK;
    assert ino / INODE_PER_BLOCK <= sb.numInodes / INODE_PER_BLOCK;
  }

  lemma AgreesShape(sb: Super, image: seq<Block>, blocks: seq<Block>, bitmap: Bitmap, dinode: Table)
    requires Agrees(sb, image, blocks, bitmap, dinode)
    ensures ValidSuper(sb) && ValidBitmap(sb, bitmap) && |image| == |blocks| == sb.numBlocks
    ensures |dinode| == sb.numInodes + 1 && |bitmap| == BitmapCount(sb)
  {
  }

  lemma SyncData(sb: Super, image: seq<Block>, blocks: seq<Block>, bitmap: Bitmap, dinode: Table, b: nat, data: Block)
    requires Agrees(sb, image, blocks, bitmap, dinode) && sb.dataStart <= b < sb.numBlocks
    ensures Agrees(sb, image[b := data], blocks[b := data], bitmap, dinode)
  {
    hide EntryAt, InodeBlock;
    var image', blocks' := image[b := data], blocks[b := data];
    forall i | 0 <= i < |bitmap| ensures HoldsBitmap(sb, image', bitmap, i) {
      assert HoldsBitmap(sb, image, bitmap, i);
      Regions(sb, i, 0);
    }
    forall i | 0 <= i < |dinode| ensures HoldsInode(sb, image', dinode, i) {
      assert HoldsInode(sb, image, dinode, i);
      SomeBitmap(sb);
      Regions(sb, 0, i);
    }
  }

  lemma SomeBitmap(sb: Super)
    requires ValidSuper(sb)
    ensures 0 < BitmapCount(sb)
  {
  }

  lemma SyncBitmap(sb: Super, image: seq<Block>, blocks: seq<Block>, bitmap: Bitmap, dinode: Table, k: nat, data: Block)
    requires Agrees(sb, image, blocks, bitmap, dinode) && k < |bitmap|
    ensures sb.bitmapStart + k < |image|
    ensures Agrees(sb, image[sb.bitmapStart + k := data], blocks, bitmap[k := data], dinode)
  {
    hide EntryAt, InodeBlock;
    Regions(sb, k, 0);
    var image', bitmap' := image[sb.bitmapStart + k := data], bitmap[k := data];
    forall i | 0 <= i < |bitmap'| ensures HoldsBitmap(sb, image', bitmap', i) {
      assert HoldsBitmap(sb, image, bitmap, i);
    }
    forall i | 0 <= i < |dinode| ensures HoldsInode(sb, image', dinode, i) {
      assert HoldsInode(sb, image, dinode, i);
      Regions(sb, k, i);
    }
  }

  lemma SyncInode(sb: Super, image: seq<Block>, blocks: seq<Block>, bitmap: Bitmap, dinode: Table, ino: nat, e: Entry)
    requires Agrees(sb, image, blocks, bitmap, dinode) && ino < |dinode| && FieldsFit(e)
    ensures InodeBlock(sb, ino) < |image|
    ensures var b := InodeBlock(sb, ino);
      Agrees(sb, image[b := PutEntry(image[b], ino % INODE_PER_BLOCK, e)], blocks, bitmap, dinode[ino := e])
  {
    hide EntryAt, PutEntry;
    var b := InodeBlock(sb, ino);
    SomeBitmap(sb);
    Regions(sb, 0, ino);
    var image', dinode' := image[b := PutEntry(image[b], ino % INODE_PER_BLOCK, e)], dinode[ino := e];
    forall i | 0 <= i < |bitmap| ensures HoldsBitmap(sb, image', bitmap, i) {
      assert HoldsBitmap(sb, image, bitmap, i);
      Regions(sb, i, ino);
    }
    forall i | 0 <= i < |dinode'| ensures HoldsInode(sb, image', dinode', i) {
      assert HoldsInode(sb, image, dinode, i);
      if InodeBlock(sb, i) == b {
        EntryAfterPut(image[b], ino % INODE_PER_BLOCK, e, i % INODE_PER_BLOCK);
        SameInode(sb, i, ino);
      }
    }
  }

  lemma SameInode(sb: Super, i: nat, j: nat)
    requires InodeBlock(sb, i) == InodeBlock(sb, j)
    ensures i % INODE_PER_BLOCK == j % INODE_PER_BLOCK <==> i == j
  {
  }

  lemma InodesFit(sb: Super, image: seq<Block>, blocks: seq<Block>, bitmap: Bitmap, dinode: Table, i: nat)
    requires Agrees(sb, image, blocks, bitmap, dinode) && i < |dinode|
    ensures FieldsFit(dinode[i])
  {
    hide EntryAt, FieldsFit;
    assert HoldsInode(sb, image, dinode, i);
    EntryFits(image[InodeBlock(sb, i)], i % INODE_PER_BLOCK);
  }

  // -------------------------------------------------------- free blocks

  ghost function FreeSet(sb: Super, bitmap: Bitmap): set<nat> {
    set b: nat | b < sb.numBlocks && b < BIT_PER_BLOCK * |bitmap| && !Used(bitmap, b)
  }

  /** The number of blocks that are not marked. */
  ghost function FreeCount(sb: Super, bitmap: Bitmap): nat {
    |FreeSet(sb, bitmap)|
  }

  lemma FreeAfterMark(sb: Super, bitmap: Bitmap, b: nat)
    requires ValidBitmap(sb, bitmap) && b < sb.numBlocks && !Used(bitmap, b)
    ensures ValidBitmap(sb, Mark(bitmap, b)) && FreeCount(sb, Mark(bitmap, b)) + 1 == FreeCount(sb, bitmap)
  {
    hide Used, Mark;
    forall c: nat | c < sb.numBlocks ensures Used(Mark(bitmap, b), c) <==> c == b || Used(bitmap, c) {
      UsedAfterMark(bitmap, b, c);
    }
    assert FreeSet(sb, Mark(bitmap, b)) == FreeSet(sb, bitmap) - {b};
    assert b in FreeSet(sb, bitmap);
  }

  lemma NoneFree(sb: Super, bitmap: Bitmap)
    requires ValidBitmap(sb, bitmap)
    ensures FreeCount(sb, bitmap) == 0 <==> forall b: nat :: b < sb.numBlocks ==> Used(bitmap, b)
  {
    hide Used;
    if FreeCount(sb, bitmap) != 0 {
      var b :| b in FreeSet(sb, bitmap);
    } else {
      forall b: nat | b < sb.numBlocks ensures Used(bitmap, b) {
        assert b !in FreeSet(sb, bitmap);
      }
    }
  }

  // ------------------------------------------------- reading an image

  function BlockAt(image: seq<Block>, b: nat): Block {
    if b < |image| then image[b] else ZeroBlock()
  }

  function BitmapOf(sb: Super, image: seq<Block>): (r: Bitmap)
    ensures |r| == BitmapCount(sb)
  {
    seq<Block>(BitmapCount(sb), i requires 0 <= i => BlockAt(image, sb.bitmapStart + i))
  }

  /** All inodes, and the one behind the last that inode_alloc looks at. */
  function InodesOf(sb: Super, image: seq<Block>): (t: Table)
    ensures |t| == sb.numInodes + 1
  {
    seq(sb.numInodes + 1, i requires 0 <= i => EntryAt(BlockAt(image, InodeBlock(sb, i)), i % INODE_PER_BLOCK))
  }

  lemma ImageAgrees(sb: Super, image: seq<Block>)
    requires ValidSuper(sb) && |image| == sb.numBlocks
    ensures Agrees(sb, image, image, BitmapOf(sb, image), InodesOf(sb, image))
  {
    hide EntryAt, InodeBlock;
    forall i | 0 <= i < BitmapCount(sb) ensures HoldsBitmap(sb, image, BitmapOf(sb, image), i) {
      Regions(sb, i, 0);
    }
    forall i | 0 <= i < sb.numInodes + 1 ensures HoldsInode(sb, image, InodesOf(sb, image), i) {
      SomeBitmap(sb);
      Regions(sb, 0, i);
    }
  }

  /** The parts determine what is read. */
  lemma AgreesReads(sb: Super, image: seq<Block>, blocks: seq<Block>, bitmap: Bitmap, dinode: Table)
    requires Agrees(sb, image, blocks, bitmap, dinode)
    ensures BitmapOf(sb, image) == bitmap && InodesOf(sb, image) == dinode
  {
    hide EntryAt, InodeBlock;
    forall i | 0 <= i < |bitmap| ensures BitmapOf(sb, image)[i] == bitmap[i] {
      assert HoldsBitmap(sb, image, bitmap, i);
    }
    forall i | 0 <= i < |dinode| ensures InodesOf(sb, image)[i] == dinode[i] {
      assert HoldsInode(sb, image, dinode, i);
    }
  }
}
