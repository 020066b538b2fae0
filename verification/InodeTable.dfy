/**
  Handles to in-memory inodes (inode_get, inode_share, inode_put in
  src/fs/inode.c) and writing through an open file (filewrite in
  src/fs/file.c).
 */
module InodeTable {
  import opened FsLayout
  import opened FsOwnership
  import opened FsFiles
  import opened FsImage
  import opened FileSystem

  type Ptr = nat

  /** An in-memory inode; its entry is the `mem` of the file system. */
  datatype Node = Node(ino: nat, rc: nat, valid: bool)

  class InodeTable {
    const fs: FileSystem
    /** The nodes after `head`. */
    var list: seq<Ptr>
    var node: map<Ptr, Node>
    /** The handles that were handed out and not yet put. */
    ghost var handles: multiset<Ptr>
    /** The nodes that an inode_put has found to be unused and works on, without the
        lock of the list. */
    ghost var closing: set<Ptr>

    ghost predicate Valid()
      reads this, fs
    {
      && fs.Valid() && FreeAreEmpty(fs.mem)
      && GoodTable(list, node, handles, |fs.mem|)
      && forall p :: p in closing ==> p in handles
    }

    constructor (fs: FileSystem)
      requires fs.Valid() && FreeAreEmpty(fs.mem)
      ensures Valid() && this.fs == fs && handles == multiset{} && closing == {}
    {
      this.fs := fs;
      list, node, handles, closing := [], map[], multiset{}, {};
    }

    /** inode_get: the live node of the inode if there is one, otherwise a node
        without handles or a new one (`page` is what the arena returns). */
    method InodeGet(ino: nat, page: Ptr) returns (p: Ptr)
      requires Valid() && 0 < ino < fs.sb.numInodes && page !in node
      modifies this
      ensures Valid() && handles == old(handles) + multiset{p} && closing == old(closing)
      ensures p in node && node[p].ino == ino && node[p].valid
      ensures forall q :: q in old(node) && old(node)[q].rc > 0 ==> q in node && node[q].ino == old(node)[q].ino
      ensures forall q :: q in old(node) && old(node)[q].rc > 0 && old(node)[q].ino == ino ==> p == q
    {
      hide Consistent, FreeAreEmpty, Agrees, Applied, GoodTable;
      Sizes(fs.sb, fs.blocks, fs.bitmap, fs.dinode, fs.mem);
      var found, empty := FindNode(ino);
      if found < |list| {
        p := list[found];
        Bumped(list, node, handles, |fs.mem|, p);
        node := node[p := node[p].(rc := node[p].rc + 1)];
        handles := handles + multiset{p};
        return;
      }
      p := if empty >= 0 then list[empty] else page;
      TakeNode(p, ino);
    }

    /** The end of inode_get: a node without handles, or a new one, becomes the node of
        an inode that has none. */
    method TakeNode(p: Ptr, ino: nat)
      requires Valid() && 0 < ino < |fs.mem| && (p in node ==> node[p].rc == 0)
      requires forall q :: q in node ==> node[q].rc == 0 || node[q].ino != ino
      modifies this`list, this`node, this`handles
      ensures Valid() && handles == old(handles) + multiset{p} && node == old(node)[p := Node(ino, 1, true)]
    {
      hide Consistent, FreeAreEmpty, Agrees, Applied, GoodTable;
      Taken(list, node, handles, |fs.mem|, p, ino);
      if p !in node {
        list := [p] + list;
      }
      node := node[p := Node(ino, 1, true)];
      handles := handles + multiset{p};
    }

    /** The search of inode_get: a live node of the inode, or else the first node
        without handles. */
    method FindNode(ino: nat) returns (found: nat, empty: int)
      requires GoodTable(list, node, handles, |fs.mem|)
      ensures found <= |list|
      ensures found < |list| ==> list[found] in node && node[list[found]].rc > 0 && node[list[found]].ino == ino
      ensures found == |list| ==> forall q :: q in node ==> node[q].rc == 0 || node[q].ino != ino
      ensures -1 <= empty < |list| && (empty >= 0 ==> list[empty] in node && node[list[empty]].rc == 0)
    {
      hide GoodTable;
      ListNodes(list, node, handles, |fs.mem|);
      found, empty := 0, -1;
      while found < |list|
        invariant 0 <= found <= |list| && -1 <= empty < found && (empty >= 0 ==> node[list[empty]].rc == 0)
        invariant forall j :: 0 <= j < found ==> node[list[j]].rc == 0 || node[list[j]].ino != ino
      {
        var p := list[found];
        if node[p].rc > 0 && node[p].ino == ino {
          return;
        }
        if empty == -1 && node[p].rc == 0 {
          empty := found;
        }
        found := found + 1;
      }
    }

    /** inode_share */
    method InodeShare(p: Ptr)
      requires Valid() && p in handles
      modifies this`node, this`handles
      ensures Valid() && handles == old(handles) + multiset{p}
      ensures node == old(node)[p := old(node)[p].(rc := old(node)[p].rc + 1)]
    {
      hide Consistent, FreeAreEmpty, Agrees, Applied, GoodTable;
      Handled(list, node, handles, |fs.mem|, p);
      Bumped(list, node, handles, |fs.mem|, p);
      node := node[p := node[p].(rc := node[p].rc + 1)];
      handles := handles + multiset{p};
    }

    /** inode_put up to where it releases the lock of the list.  It goes on to free the
        inode exactly when this was the last handle and the inode has no links. */
    method PutBegin(p: Ptr) returns (last: bool)
      requires Valid() && p in handles && (p in closing ==> handles[p] > 1)
      modifies this
      ensures Valid() && list == old(list) && node.Keys == old(node).Keys
      ensures forall q :: q in node ==> node[q].ino == old(node)[q].ino && (q != p ==> node[q] == old(node)[q])
      ensures node[p].ino < |fs.mem| && (last <==> old(handles)[p] == 1 && fs.mem[node[p].ino].numLinks == 0)
      ensures handles == if last then old(handles) else old(handles) - multiset{p}
      ensures closing == if last then old(closing) + {p} else old(closing)
    {
      hide Consistent, FreeAreEmpty, Agrees, Applied, GoodTable;
      Handled(list, node, handles, |fs.mem|, p);
      if node[p].rc == 1 && node[p].valid && fs.mem[node[p].ino].numLinks == 0 {
        closing := closing + {p};
        return true;
      }
      Dropped(list, node, handles, |fs.mem|, p);
      node := node[p := node[p].(rc := node[p].rc - 1)];
      handles := handles - multiset{p};
      return false;
    }

    /** The rest of inode_put.  The inode and its blocks become free and the node goes.
        The table stays good exactly when nobody got the inode in between: otherwise
        there is a handle to a node that is no longer there. */
    method PutEnd(p: Ptr)
      requires Valid() && p in closing
      modifies this, fs`bitmap, fs`dinode, fs`mem, fs`image, fs`synced
      ensures Valid() <==> old(handles)[p] == 1
      ensures handles == old(handles) - multiset{p} && node == old(node) - {p} && closing == old(closing) - {p}
      ensures fs.Valid() && |fs.mem| == old(|fs.mem|)
      ensures p in old(node) && old(node)[p].ino < |fs.mem| && Released(old(node)[p].ino)
    {
      hide Consistent, FreedExcept, BlocksOf, FreeAreEmpty, Truncated, Agrees, Applied, GoodTable, Numbers, BitmapBlocks;
      Handled(list, node, handles, |fs.mem|, p);
      var ino := node[p].ino;
      FreedIsEmpty(fs.mem, ino);
      fs.InodeFree(ino);
      var i := Position(p);
      if node[p].rc == 1 {
        Removed(list, node, handles, |fs.mem|, i);
      }
      node := node - {p};
      list := list[..i] + list[i + 1..];
      handles := handles - multiset{p};
      closing := closing - {p};
      if p in handles {
        DanglingHandle(list, node, handles, |fs.mem|, p);
      }
    }

    /** The inode is free on disk and exactly its blocks became free. */
    twostate predicate Released(ino: nat)
      requires ino < old(|fs.mem|)
      reads this, fs
    {
      && fs.mem == old(fs.mem)[ino := Truncated(old(fs.mem)[ino]).(kind := INODE_INVALID)]
      && ValidBitmap(fs.sb, old(fs.bitmap))
      && FreedExcept(fs.sb, old(fs.bitmap), fs.bitmap, BlocksOf(fs.blocks, old(fs.mem)[ino]), {})
      && Numbers(fs.synced) ==
        Numbers(old(fs.synced)) + BitmapBlocks(fs.sb, BlocksOf(fs.blocks, old(fs.mem)[ino])) + {InodeBlock(fs.sb, ino)}
    }

    /** inode_put, when nobody else gets an inode meanwhile: the inode is freed on
        disk exactly when this was its last handle and it has no links. */
    method InodePut(p: Ptr)
      requires Valid() && p in handles && p !in closing
      modifies this, fs`bitmap, fs`dinode, fs`mem, fs`image, fs`synced
      ensures Valid() && handles == old(handles) - multiset{p} && closing == old(closing)
      ensures forall q :: q in old(node) && q != p ==> q in node && node[q] == old(node)[q]
      ensures |fs.mem| == old(|fs.mem|)
      ensures p in old(node) && old(node)[p].ino < |fs.mem|
      ensures if old(handles)[p] == 1 && old(fs.mem)[old(node)[p].ino].numLinks == 0
              then Released(old(node)[p].ino)
              else fs.mem == old(fs.mem) && fs.bitmap == old(fs.bitmap)
    {
      hide Consistent, FreeAreEmpty, Agrees, Applied, GoodTable;
      Handled(list, node, handles, |fs.mem|, p);
      var last := PutBegin(p);
      if last {
        PutEnd(p);
      }
    }

    /** inode_put as fileclose calls it, in a transaction of its own. */
    method PutTransaction(p: Ptr)
      requires Valid() && p in handles && p !in closing
      modifies this, fs
      ensures Valid() && handles == old(handles) - multiset{p}
      ensures KeepsGood(fs.sb, old(fs.image), fs.synced) && fs.image == Applied(old(fs.image), fs.synced)
    {
      hide Consistent, FreeAreEmpty, Agrees, Applied, GoodTable, KeepsGood, GoodBlocks;
      fs.BeginOp();
      InodePut(p);
      TransactionKeepsGood(fs);
    }

    /** inode_get between the two halves of inode_put: it returns the node, which is
        then freed under its new handle. */
    method GetWhileClosing(p: Ptr, page: Ptr) returns (q: Ptr)
      requires Valid() && p in handles && p !in closing && page !in node
      requires handles[p] == 1 && p in node && node[p].ino < |fs.mem| && fs.mem[node[p].ino].numLinks == 0
      modifies this, fs`bitmap, fs`dinode, fs`mem, fs`image, fs`synced
      ensures q == p && q in handles && q !in node && !Valid()
      ensures old(node)[p].ino < |fs.mem| && fs.mem[old(node)[p].ino].kind == INODE_INVALID
    {
      hide Consistent, FreeAreEmpty, Agrees, Applied, GoodTable;
      Handled(list, node, handles, |fs.mem|, p);
      Sizes(fs.sb, fs.blocks, fs.bitmap, fs.dinode, fs.mem);
      var ino := node[p].ino;
      var last := PutBegin(p);
      Handled(list, node, handles, |fs.mem|, p);
      q := InodeGet(ino, page);
      PutEnd(p);
    }

    /** Where detach_from_list takes the node out. */
    method Position(p: Ptr) returns (i: nat)
      requires GoodTable(list, node, handles, |fs.mem|) && p in node
      ensures i < |list| && list[i] == p
    {
      i := 0;
      while list[i] != p
        invariant i < |list| && p in list[i..]
        decreases |list| - i
      {
        i := i + 1;
      }
    }
  }

  /** `list` holds the nodes, each once. */
  ghost predicate Linked(list: seq<Ptr>, node: map<Ptr, Node>) {
    (forall i, j :: 0 <= i < j < |list| ==> list[i] != list[j]) && (forall p :: p in node <==> p in list)
  }

  /** The count of a node is the number of its handles. */
  ghost predicate Counted(node: map<Ptr, Node>, handles: multiset<Ptr>) {
    && (forall p :: p in node ==> node[p].rc == handles[p])
    && (forall p :: p in handles ==> p in node)
  }

  ghost predicate LiveNodes(node: map<Ptr, Node>, n: nat) {
    forall p :: p in node && node[p].rc > 0 ==> node[p].valid && 0 < node[p].ino < n
  }

  /** Each inode number has at most one node with handles. */
  ghost predicate OneLivePerInode(node: map<Ptr, Node>) {
    forall p, q :: p in node && q in node && node[p].rc > 0 && node[q].rc > 0 && node[p].ino == node[q].ino ==> p == q
  }

  ghost predicate GoodTable(list: seq<Ptr>, node: map<Ptr, Node>, handles: multiset<Ptr>, n: nat) {
    Linked(list, node) && Counted(node, handles) && LiveNodes(node, n) && OneLivePerInode(node)
  }

  lemma Sizes(sb: Super, blocks: seq<Block>, bitmap: Bitmap, dinode: Table, mem: Table)
    requires Consistent(sb, blocks, bitmap, dinode, mem)
    ensures |mem| == sb.numInodes
  {
  }

  lemma ListNodes(list: seq<Ptr>, node: map<Ptr, Node>, handles: multiset<Ptr>, n: nat)
    requires GoodTable(list, node, handles, n)
    ensures forall i :: 0 <= i < |list| ==> list[i] in node
    ensures forall p :: p in node ==> exists i :: 0 <= i < |list| && list[i] == p
  {
  }

  lemma Handled(list: seq<Ptr>, node: map<Ptr, Node>, handles: multiset<Ptr>, n: nat, p: Ptr)
    requires GoodTable(list, node, handles, n) && p in handles
    ensures p in node && node[p].rc == handles[p] > 0 && 0 < node[p].ino < n && node[p].valid
  {
  }

  lemma DanglingHandle(list: seq<Ptr>, node: map<Ptr, Node>, handles: multiset<Ptr>, n: nat, p: Ptr)
    requires p in handles && p !in node
    ensures !GoodTable(list, node, handles, n)
  {
  }

  lemma Bumped(list: seq<Ptr>, node: map<Ptr, Node>, handles: multiset<Ptr>, n: nat, p: Ptr)
    requires GoodTable(list, node, handles, n) && p in node && node[p].rc > 0
    ensures GoodTable(list, node[p := node[p].(rc := node[p].rc + 1)], handles + multiset{p}, n)
    ensures forall q :: q in node && node[q].rc > 0 && node[q].ino == node[p].ino ==> q == p
    ensures node[p].valid
  {
  }

  lemma Dropped(list: seq<Ptr>, node: map<Ptr, Node>, handles: multiset<Ptr>, n: nat, p: Ptr)
    requires GoodTable(list, node, handles, n) && p in node && node[p].rc > 0
    ensures GoodTable(list, node[p := node[p].(rc := node[p].rc - 1)], handles - multiset{p}, n)
  {
  }

  /** A node without handles, or a new one, becomes the node of `ino`. */
  lemma Taken(list: seq<Ptr>, node: map<Ptr, Node>, handles: multiset<Ptr>, n: nat, p: Ptr, ino: nat)
    requires GoodTable(list, node, handles, n) && (p in node ==> node[p].rc == 0) && 0 < ino < n
    requires forall q :: q in node ==> node[q].rc == 0 || node[q].ino != ino
    ensures GoodTable(if p in node then list else [p] + list, node[p := Node(ino, 1, true)], handles + multiset{p}, n)
  {
    hide Linked, OneLivePerInode;
    TakenLinked(list, node, p, Node(ino, 1, true));
    TakenAlone(node, p, ino);
  }

  lemma TakenLinked(list: seq<Ptr>, node: map<Ptr, Node>, p: Ptr, v: Node)
    requires Linked(list, node)
    ensures Linked(if p in node then list else [p] + list, node[p := v])
  {
    assert p !in node ==> p !in list;
  }

  lemma TakenAlone(node: map<Ptr, Node>, p: Ptr, ino: nat)
    requires OneLivePerInode(node) && forall q :: q in node ==> node[q].rc == 0 || node[q].ino != ino
    ensures OneLivePerInode(node[p := Node(ino, 1, true)])
  {
  }

  lemma Removed(list: seq<Ptr>, node: map<Ptr, Node>, handles: multiset<Ptr>, n: nat, i: nat)
    requires GoodTable(list, node, handles, n) && i < |list| && list[i] in node && node[list[i]].rc == 1
    ensures GoodTable(list[..i] + list[i + 1..], node - {list[i]}, handles - multiset{list[i]}, n)
  {
    var p := list[i];
    var list' := list[..i] + list[i + 1..];
    forall q ensures q in list' <==> q in list && q != p {
      if q in list && q != p {
        var j :| 0 <= j < |list| && list[j] == q;
        assert list'[if j < i then j else j - 1] == q;
      }
    }
  }

  lemma FreedIsEmpty(mem: Table, ino: nat)
    requires FreeAreEmpty(mem) && ino < |mem|
    ensures FreeAreEmpty(mem[ino := Truncated(mem[ino]).(kind := INODE_INVALID)])
  {
  }

  // --------------------------------------------------------- filewrite

  datatype WriteResult = Returned(value: int) | Panicked

  const MAX_WRITE := (10 - 1 - 1 - 2) / 2 * 512

  /** `n` as a usize. */
  function Unsigned(n: int): (u: nat)
    requires -SIGN_LIMIT <= n < SIGN_LIMIT
    ensures u < USIZE_LIMIT && (n < 0 <==> u >= SIGN_LIMIT) && (u - n) % USIZE_LIMIT == 0
  {
    if n < 0 then n + USIZE_LIMIT else n
  }

  const SIGN_LIMIT := 0x8000_0000_0000_0000

  /** An open file; `isInode` says that its type is FD_INODE. */
  class OpenFile {
    const writable: bool
    const isInode: bool
    const ino: nat
    var off: nat

    /** What one write of `n` bytes to a regular file or directory leaves behind. */
    twostate predicate FileChanged(fs: FileSystem, data: seq<Byte>)
      requires old(fs.Valid()) && ino < old(|fs.mem|)
      reads this, fs
    {
      && old(off) <= old(fs.mem)[ino].numBytes && old(off) + |data| <= INODE_MAX_BYTES
      && fs.Valid() && |fs.mem| == old(|fs.mem|) && off == old(off) + |data|
      && |Numbers(fs.synced)| <= 10 && TenthIsLast(fs.synced) && KeepsGood(fs.sb, old(fs.image), fs.synced)
      && Contents(fs, ino) == Splice(old(Contents(fs, ino)), old(off), data)
      && forall i :: 0 <= i < |fs.mem| && i != ino ==>
        fs.mem[i] == old(fs.mem)[i] && SameFile(old(fs.blocks), fs.blocks, fs.mem[i])
    }

    /** filewrite passes the whole count to inode_write in its first transaction.
        So a write of 0 to 1536 bytes takes one transaction that syncs at most ten
        blocks, and every other count ends in a panic.  `sent` is what went to the
        console. */
    method FileWrite(fs: FileSystem, addr: seq<Byte>, n: int) returns (r: WriteResult, sent: seq<Byte>)
      requires fs.Valid() && ino < |fs.mem| && off < USIZE_LIMIT && n <= |addr|
      requires -SIGN_LIMIT <= n < SIGN_LIMIT
      modifies this, fs
      ensures !writable ==> r == Returned(-1)
      ensures writable && !isInode ==> r.Panicked?
      ensures !writable || !isInode || n == 0 ==> off == old(off) && unchanged(fs) && sent == []
      ensures writable && r.Returned? ==> isInode && 0 <= n <= 1536 && r.value == n
      ensures writable && isInode && n == 0 ==> r == Returned(0)
      ensures old(fs.mem)[ino].kind == INODE_DEVICE ==>
        fs.Valid() && fs.mem == old(fs.mem) && fs.blocks == old(fs.blocks) && fs.bitmap == old(fs.bitmap)
      ensures writable && isInode && 0 < n <= 1536 && old(fs.mem)[ino].kind == INODE_DEVICE ==>
        && (r.Returned? <==> old(fs.mem)[ino].major == CONSOLE)
        && (r.Returned? ==> sent == addr[..n] && off == (old(off) + n) % USIZE_LIMIT)
      ensures writable && r.Returned? && n > 0 && old(fs.mem)[ino].kind != INODE_DEVICE ==>
        sent == [] && FileChanged(fs, addr[..n])
      ensures writable && isInode && 0 < n <= 1536 && old(fs.mem)[ino].kind != INODE_DEVICE ==>
        (r.Returned? <==> old(off <= fs.mem[ino].numBytes && off + n <= INODE_MAX_BYTES
                              && FreeCount(fs.sb, fs.bitmap) >= WriteNeeds(fs.mem[ino].numBytes, off + n)))
    {
      hide Consistent, FileBytes, Splice, SameFile, Agrees, Applied, Numbers, FreeCount, WriteNeeds, TenthIsLast;
      hide KeepsGood, GoodBlocks;
      sent := [];
      if !writable {
        return Returned(-1), sent;
      }
      if !isInode {
        return Panicked, sent;
      }
      var un, i := Unsigned(n), 0;
      ghost var device := fs.mem[ino].kind == INODE_DEVICE;
      while i < un
        invariant i == 0 || i == un
        invariant i == 0 ==> off == old(off) && unchanged(fs) && sent == []
        invariant i == un && un > 0 ==>
          && un <= MAX_WRITE
          && (device ==>
            && fs.Valid() && fs.mem == old(fs.mem) && fs.blocks == old(fs.blocks) && fs.bitmap == old(fs.bitmap)
            && fs.mem[ino].major == CONSOLE && sent == addr[..un] && off == (old(off) + un) % USIZE_LIMIT)
          && (!device ==>
            && sent == [] && FileChanged(fs, addr[..un])
            && old(FreeCount(fs.sb, fs.bitmap) >= WriteNeeds(fs.mem[ino].numBytes, off + un)))
        decreases un - i
      {
        var n1 := if un - i > MAX_WRITE then MAX_WRITE else un - i;
        fs.BeginOp();
        SizeFits(fs.sb, fs.blocks, fs.bitmap, fs.dinode, fs.mem, ino);
        var res := fs.InodeWrite(ino, addr[i..], off, un);
        if res == WritePanic {
          return Panicked, sent;
        }
        var sz := un;
        if res == ToConsole && n > 0 {
          sent := addr[..n];
        }
        off := (off + sz) % USIZE_LIMIT;
        if sz != n1 {
          return Panicked, sent;
        }
        SizeFits(fs.sb, fs.blocks, fs.bitmap, fs.dinode, fs.mem, ino);
        TransactionKeepsGood(fs);
        assert addr[i..][..un] == addr[..un];
        i := i + sz;
      }
      return Returned(if i == un then n else -1), sent;
    }
  }
}
