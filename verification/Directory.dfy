/**
  Directories (inode_lookup, inode_insert, inode_remove in src/fs/inode.c) as
  finite maps from names to inode numbers.  A directory is a file of 16-byte
  slots, each a 16-bit inode number and 14 bytes of name.
 */
module Directory {
  import opened FsLayout
  import opened FsOwnership
  import opened FsFiles
  import opened FsImage
  import opened FileSystem

  const FILE_NAME_MAX_LENGTH := 14
  const SLOT_SIZE := 16
  const U16_LIMIT := 0x1_0000
  const INODE_DIRECTORY := 1

  // ------------------------------------------------------------- names

  /** The part of a C string that strncmp and strncpy look at: the bytes before
      the first NUL, at most `n` of them. */
  function KeyOf(s: seq<Byte>, n: nat): (k: seq<Byte>)
    ensures |k| <= n && |k| <= |s|
  {
    if n == 0 || s == [] || s[0] == 0 then [] else [s[0]] + KeyOf(s[1..], n - 1)
  }

  lemma {:induction false} KeyIs(s: seq<Byte>, n: nat)
    ensures var k := KeyOf(s, n);
      && k == s[..|k|] && (forall i :: 0 <= i < |k| ==> k[i] != 0) && (|k| == n || |k| == |s| || s[|k|] == 0)
    decreases n
  {
    if n > 0 && s != [] && s[0] != 0 {
      KeyIs(s[1..], n - 1);
    }
  }

  /** Byte `i` of a string that ends with a NUL. */
  function CharAt(s: seq<Byte>, i: nat): Byte {
    if i < |s| then s[i] else 0
  }

  lemma {:induction false} KeyStep(s: seq<Byte>, i: nat, n: nat)
    requires i <= |s| && i < n
    ensures KeyOf(s[i..], n - i)
         == if CharAt(s, i) == 0 then [] else [s[i]] + KeyOf(s[i + 1..], n - i - 1)
  {
    if i < |s| && s[i] != 0 {
      assert s[i..][1..] == s[i + 1..];
    }
  }

  /** strncmp(a, b, 14) == 0. */
  method SameName(a: seq<Byte>, b: seq<Byte>) returns (same: bool)
    ensures same <==> KeyOf(a, FILE_NAME_MAX_LENGTH) == KeyOf(b, FILE_NAME_MAX_LENGTH)
  {
    hide KeyOf;
    var i, n := 0, FILE_NAME_MAX_LENGTH;
    assert a[0..] == a && b[0..] == b;
    while i < n
      invariant 0 <= i <= n && i <= |a| && i <= |b|
      invariant KeyOf(a, n) == KeyOf(b, n) <==> KeyOf(a[i..], n - i) == KeyOf(b[i..], n - i)
    {
      KeyStep(a, i, n);
      KeyStep(b, i, n);
      Heads(CharAt(a, i), CharAt(b, i), KeyOf(if i < |a| then a[i + 1..] else [], n - i - 1),
            KeyOf(if i < |b| then b[i + 1..] else [], n - i - 1));
      if CharAt(a, i) != CharAt(b, i) {
        return false;
      }
      if CharAt(a, i) == 0 || CharAt(b, i) == 0 {
        return true;
      }
      i := i + 1;
    }
    KeyEmpty(a[i..]);
    KeyEmpty(b[i..]);
    return true;
  }

  lemma Heads(x: Byte, y: Byte, s: seq<Byte>, t: seq<Byte>)
    ensures [x] + s == [y] + t <==> x == y && s == t
    ensures [x] + s != [] && [y] + t != []
  {
    assert ([x] + s)[1..] == s && ([y] + t)[1..] == t;
    assert ([x] + s)[0] == x && ([y] + t)[0] == y;
  }

  lemma KeyEmpty(s: seq<Byte>)
    ensures KeyOf(s, 0) == []
  {
  }

  /** strncpy(dest, name, 14): the key and NUL bytes up to 14. */
  method StoreName(name: seq<Byte>) returns (dest: seq<Byte>)
    ensures |dest| == FILE_NAME_MAX_LENGTH
    ensures KeyOf(dest, FILE_NAME_MAX_LENGTH) == KeyOf(name, FILE_NAME_MAX_LENGTH)
    ensures forall i :: |KeyOf(name, FILE_NAME_MAX_LENGTH)| <= i < |dest| ==> dest[i] == 0
  {
    hide KeyOf;
    var i, n := 0, FILE_NAME_MAX_LENGTH;
    ghost var key := KeyOf(name, n);
    dest := [];
    assert name[0..] == name;
    while i < n && CharAt(name, i) != 0
      invariant 0 <= i <= n && i <= |name| && |dest| == i && (forall j :: 0 <= j < i ==> dest[j] != 0)
      invariant key == dest + KeyOf(name[i..], n - i)
    {
      KeyStep(name, i, n);
      dest := dest + [name[i]];
      i := i + 1;
    }
    if i < n {
      KeyStep(name, i, n);
    } else {
      KeyEmpty(name[i..]);
    }
    assert key == dest;
    while i < n
      invariant |key| <= i <= n && |dest| == i && dest[..|key|] == key
      invariant forall j :: |key| <= j < i ==> dest[j] == 0
    {
      dest := dest + [0];
      i := i + 1;
    }
    PaddedKey(dest, key, 0, n);
    assert dest[0..] == dest && key[0..] == key;
  }

  lemma {:induction false} PaddedKey(s: seq<Byte>, key: seq<Byte>, i: nat, n: nat)
    requires i <= |key| <= |s| == n && s[..|key|] == key
    requires (forall j :: 0 <= j < |key| ==> key[j] != 0) && (forall j :: |key| <= j < n ==> s[j] == 0)
    ensures KeyOf(s[i..], n - i) == key[i..]
    decreases |key| - i
  {
    if i < n {
      KeyStep(s, i, n);
      if i < |key| {
        PaddedKey(s, key, i + 1, n);
        assert s[i] == s[..|key|][i] == key[i];
        assert key[i..] == [key[i]] + key[i + 1..];
      } else {
        assert key[i..] == [];
      }
    } else {
      assert s[i..] == [] && key[i..] == [];
    }
  }

  // ------------------------------------------------------------- slots

  predicate DirShape(f: seq<Byte>) {
    |f| % SLOT_SIZE == 0
  }

  function NumSlots(f: seq<Byte>): nat {
    |f| / SLOT_SIZE
  }

  /** The bytes of slot `k`. */
  function Slot(f: seq<Byte>, k: nat): (s: seq<Byte>)
    requires k < NumSlots(f)
    ensures |s| == SLOT_SIZE
  {
    f[SLOT_SIZE * k..SLOT_SIZE * k + SLOT_SIZE]
  }

  function SlotInode(s: seq<Byte>): (v: nat)
    requires |s| == SLOT_SIZE
  {
    var lo: nat, hi: nat := s[0], s[1];
    lo + 0x100 * hi
  }

  function SlotKey(s: seq<Byte>): seq<Byte>
    requires |s| == SLOT_SIZE
  {
    KeyOf(s[2..], FILE_NAME_MAX_LENGTH)
  }

  /** Slot `k` is the sixteen bytes from 16 * k on: the number, lowest byte first, and the
      name. */
  lemma SlotLayout(f: seq<Byte>, k: nat)
    requires 16 * k + 16 <= |f|
    ensures var low: nat, high: nat := f[16 * k], f[16 * k + 1];
      k < NumSlots(f) && SlotInode(Slot(f, k)) == low + 256 * high
    ensures SlotKey(Slot(f, k)) == KeyOf(f[16 * k + 2..16 * k + 16], 14)
  {
    hide KeyOf;
    assert Slot(f, k)[2..] == f[16 * k + 2..16 * k + 16];
  }

  /** Slot `k` binds `key`. */
  predicate Binds(f: seq<Byte>, k: nat, key: seq<Byte>) {
    k < NumSlots(f) && SlotInode(Slot(f, k)) != 0 && SlotKey(Slot(f, k)) == key
  }

  ghost predicate UniqueNames(f: seq<Byte>) {
    forall j: nat, k: nat, key :: Binds(f, j, key) && Binds(f, k, key) ==> j == k
  }

  /** The map that the first `n` slots stand for. */
  function Bindings(f: seq<Byte>, n: nat): map<seq<Byte>, nat>
    requires n <= NumSlots(f)
  {
    if n == 0 then map[]
    else
      var s := Slot(f, n - 1);
      if SlotInode(s) == 0 then Bindings(f, n - 1) else Bindings(f, n - 1)[SlotKey(s) := SlotInode(s)]
  }

  function DirMap(f: seq<Byte>): map<seq<Byte>, nat> {
    Bindings(f, NumSlots(f))
  }

  /** A key is bound when a slot binds it, to the number in that slot. */
  lemma {:induction false} BoundBySlot(f: seq<Byte>, n: nat, k: nat, key: seq<Byte>)
    requires UniqueNames(f) && k < n <= NumSlots(f) && Binds(f, k, key)
    ensures key in Bindings(f, n) && Bindings(f, n)[key] == SlotInode(Slot(f, k))
  {
    if k < n - 1 {
      BoundBySlot(f, n - 1, k, key);
      assert !Binds(f, n - 1, key);
    }
  }

  lemma {:induction false} SlotOfKey(f: seq<Byte>, n: nat, key: seq<Byte>) returns (k: nat)
    requires n <= NumSlots(f) && key in Bindings(f, n)
    ensures k < n && Binds(f, k, key)
  {
    if Binds(f, n - 1, key) {
      k := n - 1;
    } else {
      k := SlotOfKey(f, n - 1, key);
    }
  }

  lemma UnboundKey(f: seq<Byte>, key: seq<Byte>)
    requires forall k: nat :: k < NumSlots(f) ==> !Binds(f, k, key)
    ensures key !in DirMap(f)
  {
    if key in DirMap(f) {
      var k := SlotOfKey(f, NumSlots(f), key);
    }
  }

  // ------------------------------------------------ changing one slot

  lemma SlotsAfterSplice(f: seq<Byte>, k: nat, s: seq<Byte>)
    requires DirShape(f) && |s| == SLOT_SIZE && k <= NumSlots(f)
    ensures var g := Splice(f, SLOT_SIZE * k, s);
      && DirShape(g) && NumSlots(g) == (if k < NumSlots(f) then NumSlots(f) else k + 1)
      && Slot(g, k) == s
      && forall j: nat :: j < NumSlots(f) && j != k ==> Slot(g, j) == Slot(f, j)
  {
    var g := Splice(f, SLOT_SIZE * k, s);
    forall j: nat | j < NumSlots(f) && j != k ensures Slot(g, j) == Slot(f, j) {
      assert SLOT_SIZE * j + SLOT_SIZE <= SLOT_SIZE * k || SLOT_SIZE * k + SLOT_SIZE <= SLOT_SIZE * j;
    }
  }

  lemma BindsAfterSplice(f: seq<Byte>, k: nat, s: seq<Byte>)
    requires DirShape(f) && |s| == SLOT_SIZE && k <= NumSlots(f)
    ensures var g := Splice(f, SLOT_SIZE * k, s);
      forall j: nat, key :: Binds(g, j, key) <==>
        if j == k then SlotInode(s) != 0 && SlotKey(s) == key else Binds(f, j, key)
  {
    SlotsAfterSplice(f, k, s);
  }

  /** Writing a fresh name into a free slot adds one binding. */
  lemma InsertBinds(f: seq<Byte>, k: nat, s: seq<Byte>)
    requires DirShape(f) && UniqueNames(f) && |s| == SLOT_SIZE && k <= NumSlots(f)
    requires k < NumSlots(f) ==> SlotInode(Slot(f, k)) == 0
    requires SlotKey(s) !in DirMap(f)
    ensures var g := Splice(f, SLOT_SIZE * k, s);
      && DirShape(g) && UniqueNames(g)
      && DirMap(g) == if SlotInode(s) == 0 then DirMap(f) else DirMap(f)[SlotKey(s) := SlotInode(s)]
  {
    hide Splice, SlotKey, SlotInode, Slot, Bindings;
    var g := Splice(f, SLOT_SIZE * k, s);
    var m := if SlotInode(s) == 0 then DirMap(f) else DirMap(f)[SlotKey(s) := SlotInode(s)];
    SlotsAfterSplice(f, k, s);
    BindsAfterSplice(f, k, s);
    forall j: nat ensures !Binds(f, j, SlotKey(s)) {
      if Binds(f, j, SlotKey(s)) {
        BoundBySlot(f, NumSlots(f), j, SlotKey(s));
      }
    }
    forall key ensures key in DirMap(g) <==> key in m
      ensures key in DirMap(g) && key in m ==> DirMap(g)[key] == m[key]
    {
      if key in m {
        var j := k;
        if SlotInode(s) == 0 || key != SlotKey(s) {
          j := SlotOfKey(f, NumSlots(f), key);
        }
        assert Binds(g, j, key);
        BoundBySlot(g, NumSlots(g), j, key);
        if j != k {
          BoundBySlot(f, NumSlots(f), j, key);
        }
      }
      if key in DirMap(g) {
        var j := SlotOfKey(g, NumSlots(g), key);
        if j != k {
          BoundBySlot(f, NumSlots(f), j, key);
        }
      }
    }
  }

  /** Zeroing a slot deletes exactly its binding. */
  lemma RemoveBinds(f: seq<Byte>, k: nat, s: seq<Byte>)
    requires DirShape(f) && UniqueNames(f) && |s| == SLOT_SIZE && SlotInode(s) == 0 && k < NumSlots(f)
    ensures var g := Splice(f, SLOT_SIZE * k, s);
      && DirShape(g) && UniqueNames(g)
      && DirMap(g) == if SlotInode(Slot(f, k)) == 0 then DirMap(f) else DirMap(f) - {SlotKey(Slot(f, k))}
  {
    hide Splice, SlotKey, SlotInode, Slot, Bindings;
    var g := Splice(f, SLOT_SIZE * k, s);
    var m := if SlotInode(Slot(f, k)) == 0 then DirMap(f) else DirMap(f) - {SlotKey(Slot(f, k))};
    SlotsAfterSplice(f, k, s);
    BindsAfterSplice(f, k, s);
    forall key ensures key in DirMap(g) <==> key in m
      ensures key in DirMap(g) && key in m ==> DirMap(g)[key] == m[key]
    {
      if key in m {
        var j := SlotOfKey(f, NumSlots(f), key);
        assert j != k && Binds(g, j, key);
        BoundBySlot(g, NumSlots(g), j, key);
        BoundBySlot(f, NumSlots(f), j, key);
      }
      if key in DirMap(g) {
        var j := SlotOfKey(g, NumSlots(g), key);
        BoundBySlot(f, NumSlots(f), j, key);
        assert Binds(f, j, key) && !Binds(f, k, key);
      }
    }
  }

  /** Removing what was just inserted gives the old map back. */
  lemma RemoveUndoesInsert(f: seq<Byte>, k: nat, s: seq<Byte>, zero: seq<Byte>)
    requires DirShape(f) && UniqueNames(f) && |s| == SLOT_SIZE && SlotInode(s) != 0 && k <= NumSlots(f)
    requires k < NumSlots(f) ==> SlotInode(Slot(f, k)) == 0
    requires SlotKey(s) !in DirMap(f)
    requires |zero| == SLOT_SIZE && SlotInode(zero) == 0
    ensures DirMap(Splice(Splice(f, SLOT_SIZE * k, s), SLOT_SIZE * k, zero)) == DirMap(f)
  {
    hide SlotInode, SlotKey, Splice, Slot, Bindings, UniqueNames;
    InsertBinds(f, k, s);
    SlotsAfterSplice(f, k, s);
    RemoveBinds(Splice(f, SLOT_SIZE * k, s), k, zero);
  }

  // ------------------------------------------------------ the operations

  ghost predicate IsDirectory(fs: FileSystem, ino: nat)
    reads fs
  {
    && fs.Valid() && ino < |fs.mem| && fs.mem[ino].kind == INODE_DIRECTORY
    && DirShape(Contents(fs, ino)) && UniqueNames(Contents(fs, ino))
  }

  twostate predicate Unchanged(fs: FileSystem)
    reads fs
  {
    && fs.blocks == old(fs.blocks) && fs.bitmap == old(fs.bitmap) && fs.dinode == old(fs.dinode)
    && fs.mem == old(fs.mem) && fs.image == old(fs.image) && fs.synced == old(fs.synced)
  }

  /** Reading slot `k`. */
  method ReadSlot(fs: FileSystem, ino: nat, k: nat) returns (s: seq<Byte>)
    requires IsDirectory(fs, ino) && k < NumSlots(Contents(fs, ino))
    modifies fs`blocks, fs`bitmap, fs`dinode, fs`mem, fs`image, fs`synced
    ensures Unchanged(fs) && IsDirectory(fs, ino) && s == Slot(Contents(fs, ino), k)
  {
    hide FileBytes, UniqueNames, Consistent;
    SizeFits(fs.sb, fs.blocks, fs.bitmap, fs.dinode, fs.mem, ino);
    var res := fs.InodeRead(ino, SLOT_SIZE * k, SLOT_SIZE);
    s := res.bytes;
  }

  /** inode_lookup: the number bound to the name, or 0 when there is none, and
      the offset of the slot that binds it. */
  method InodeLookup(fs: FileSystem, ino: nat, name: seq<Byte>) returns (inum: nat, index: nat)
    requires IsDirectory(fs, ino)
    modifies fs`blocks, fs`bitmap, fs`dinode, fs`mem, fs`image, fs`synced
    ensures Unchanged(fs) && IsDirectory(fs, ino)
    ensures var m := DirMap(Contents(fs, ino)); var key := KeyOf(name, FILE_NAME_MAX_LENGTH);
      && (inum != 0 <==> key in m) && (inum != 0 ==> inum == m[key])
    ensures inum != 0 ==> exists k: nat {:trigger Binds(Contents(fs, ino), k, KeyOf(name, FILE_NAME_MAX_LENGTH))} ::
      index == SLOT_SIZE * k && Binds(Contents(fs, ino), k, KeyOf(name, FILE_NAME_MAX_LENGTH))
  {
    hide Consistent, FileBytes, UniqueNames, KeyOf, Bindings;
    ghost var f := Contents(fs, ino);
    ghost var key := KeyOf(name, FILE_NAME_MAX_LENGTH);
    var off, k := 0, 0;
    while off < fs.mem[ino].numBytes
      invariant Unchanged(fs) && IsDirectory(fs, ino)
      invariant off == SLOT_SIZE * k && k <= NumSlots(f) && Contents(fs, ino) == f
      invariant forall j: nat :: j < k ==> !Binds(f, j, key)
    {
      var s := ReadSlot(fs, ino, k);
      if SlotInode(s) != 0 {
        var same := SameName(s[2..], name);
        if same {
          assert Binds(f, k, key);
          BoundBySlot(f, NumSlots(f), k, key);
          return SlotInode(s), off;
        }
      }
      off, k := off + SLOT_SIZE, k + 1;
    }
    UnboundKey(f, key);
    return 0, 0;
  }

  /** The first free slot of a directory, or the number of slots. */
  method FreeSlotIndex(fs: FileSystem, ino: nat) returns (off: nat)
    requires IsDirectory(fs, ino)
    modifies fs`blocks, fs`bitmap, fs`dinode, fs`mem, fs`image, fs`synced
    ensures Unchanged(fs) && IsDirectory(fs, ino)
    ensures var f := Contents(fs, ino);
      && off % SLOT_SIZE == 0 && off <= |f|
      && (forall j: nat :: SLOT_SIZE * j < off ==> j < NumSlots(f) && SlotInode(Slot(f, j)) != 0)
      && (off < |f| ==> SlotInode(Slot(f, off / SLOT_SIZE)) == 0)
  {
    hide Consistent, FileBytes, UniqueNames, Slot;
    ghost var f := Contents(fs, ino);
    var k := 0;
    off := 0;
    while off < fs.mem[ino].numBytes
      invariant Unchanged(fs) && IsDirectory(fs, ino)
      invariant off == SLOT_SIZE * k && k <= NumSlots(f) && Contents(fs, ino) == f
      invariant forall j: nat :: j < k ==> SlotInode(Slot(f, j)) != 0
    {
      var s := ReadSlot(fs, ino, k);
      if SlotInode(s) == 0 {
        break;
      }
      off, k := off + SLOT_SIZE, k + 1;
    }
  }

  /** inode_insert.  A name that is present is refused (-1).  Otherwise the first
      free slot, or a new one at the end, binds the name to the low 16 bits of the
      number.  It panics (`ok` is false) exactly when the name is new, no slot is free
      and a new one does not fit in the directory or needs more blocks than are
      free. */
  method InodeInsert(fs: FileSystem, ino: nat, name: seq<Byte>, inum: nat) returns (ok: bool, index: int)
    requires IsDirectory(fs, ino)
    modifies fs`blocks, fs`bitmap, fs`dinode, fs`mem, fs`image, fs`synced
    ensures ok <==>
      var f := old(Contents(fs, ino));
      || KeyOf(name, FILE_NAME_MAX_LENGTH) in DirMap(f) || HasFreeSlot(f)
      || (|f| + SLOT_SIZE <= INODE_MAX_BYTES && old(FreeCount(fs.sb, fs.bitmap)) >= WriteNeeds(|f|, |f| + SLOT_SIZE))
    ensures ok ==> IsDirectory(fs, ino) && |fs.mem| == old(|fs.mem|)
    ensures ok ==>
      var m := old(DirMap(Contents(fs, ino))); var key := KeyOf(name, FILE_NAME_MAX_LENGTH);
      && (index == -1 <==> key in m)
      && (index == -1 ==> Unchanged(fs))
      && DirMap(Contents(fs, ino)) == (
           if key in m || inum % U16_LIMIT == 0 then m else m[key := inum % U16_LIMIT])
    ensures ok && index != -1 ==>
      var f := old(Contents(fs, ino));
      && 0 <= index <= |f| && index % SLOT_SIZE == 0
      && (forall j: nat :: SLOT_SIZE * j < index ==> j < NumSlots(f) && SlotInode(Slot(f, j)) != 0)
      && (index < |f| ==> SlotInode(Slot(f, index / SLOT_SIZE)) == 0)
    ensures ok ==> forall i :: 0 <= i < |fs.mem| && i != ino ==>
      fs.mem[i] == old(fs.mem)[i] && SameFile(old(fs.blocks), fs.blocks, fs.mem[i])
  {
    hide Consistent, FileBytes, UniqueNames, KeyOf, Bindings, Slot, SlotInode, Splice, SameFile, Binds, DirMap;
    hide Agrees, Applied, Numbers, FreeCount, WriteNeeds, TenthIsLast;
    ghost var f := Contents(fs, ino);
    SameBlocks(fs.blocks, fs.mem);
    var there, at := InodeLookup(fs, ino, name);
    if there != 0 {
      return true, -1;
    }
    index := FreeSlotIndex(fs, ino);
    SizeFits(fs.sb, fs.blocks, fs.bitmap, fs.dinode, fs.mem, ino);
    FreeSlotOrEnd(f, index);
    ok := WriteSlot(fs, ino, name, inum, index);
  }

  ghost predicate HasFreeSlot(f: seq<Byte>) {
    exists k: nat :: k < NumSlots(f) && SlotInode(Slot(f, k)) == 0
  }

  lemma FreeSlotOrEnd(f: seq<Byte>, index: nat)
    requires DirShape(f) && index % SLOT_SIZE == 0 && index <= |f| <= INODE_MAX_BYTES
    requires forall j: nat :: SLOT_SIZE * j < index ==> j < NumSlots(f) && SlotInode(Slot(f, j)) != 0
    requires index < |f| ==> SlotInode(Slot(f, index / SLOT_SIZE)) == 0
    ensures index < |f| <==> HasFreeSlot(f)
    ensures index < |f| ==> index + SLOT_SIZE <= INODE_MAX_BYTES && WriteNeeds(|f|, index + SLOT_SIZE) == 0
  {
    hide Slot, SlotInode, WriteNeeds;
    if index < |f| {
      assert index / SLOT_SIZE < NumSlots(f);
      NoGrowth(|f|, index + SLOT_SIZE);
    }
  }

  /** A directory entry as bytes. */
  function SlotBytes(inum: nat, name: seq<Byte>): (s: seq<Byte>)
    requires |name| == FILE_NAME_MAX_LENGTH
    ensures |s| == SLOT_SIZE
  {
    [inum % 0x100, inum / 0x100 % 0x100] + name
  }

  lemma SlotOfBytes(inum: nat, name: seq<Byte>)
    requires |name| == FILE_NAME_MAX_LENGTH
    ensures SlotInode(SlotBytes(inum, name)) == inum % U16_LIMIT
    ensures SlotKey(SlotBytes(inum, name)) == KeyOf(name, FILE_NAME_MAX_LENGTH)
  {
    hide KeyOf;
    assert SlotBytes(inum, name)[2..] == name;
    LowTwoBytes(inum);
  }

  lemma LowTwoBytes(x: nat)
    ensures x % 0x100 + 0x100 * (x / 0x100 % 0x100) == x % U16_LIMIT
  {
    var q := x / 0x100;
    Residue(x, q / 0x100, x % 0x100 + 0x100 * (q % 0x100));
  }

  lemma Residue(x: nat, q: nat, r: nat)
    requires x == U16_LIMIT * q + r && r < U16_LIMIT
    ensures x % U16_LIMIT == r
  {
  }

  /** The end of inode_insert: the entry is written to a free place. */
  method WriteSlot(fs: FileSystem, ino: nat, name: seq<Byte>, inum: nat, index: nat) returns (ok: bool)
    requires IsDirectory(fs, ino) && index % SLOT_SIZE == 0 && index <= |Contents(fs, ino)|
    requires index < |Contents(fs, ino)| ==> SlotInode(Slot(Contents(fs, ino), index / SLOT_SIZE)) == 0
    requires KeyOf(name, FILE_NAME_MAX_LENGTH) !in DirMap(Contents(fs, ino))
    modifies fs`blocks, fs`bitmap, fs`dinode, fs`mem, fs`image, fs`synced
    ensures ok <==>
      && index + SLOT_SIZE <= INODE_MAX_BYTES
      && old(FreeCount(fs.sb, fs.bitmap) >= WriteNeeds(|Contents(fs, ino)|, index + SLOT_SIZE))
    ensures ok ==> IsDirectory(fs, ino) && |fs.mem| == old(|fs.mem|)
    ensures ok ==>
      var m := old(DirMap(Contents(fs, ino))); var key := KeyOf(name, FILE_NAME_MAX_LENGTH);
      DirMap(Contents(fs, ino)) == if inum % U16_LIMIT == 0 then m else m[key := inum % U16_LIMIT]
    ensures ok ==> forall i :: 0 <= i < |fs.mem| && i != ino ==>
      fs.mem[i] == old(fs.mem)[i] && SameFile(old(fs.blocks), fs.blocks, fs.mem[i])
  {
    hide Consistent, FileBytes, UniqueNames, KeyOf, Slot, SlotInode, SlotBytes, Splice, SameFile, Binds, DirMap;
    hide Agrees, Applied, Numbers, FreeCount, WriteNeeds, TenthIsLast;
    var stored := StoreName(name);
    var de := SlotBytes(inum, stored);
    SlotOfBytes(inum, stored);
    Aligned(index);
    InsertBinds(Contents(fs, ino), index / SLOT_SIZE, de);
    SizeFits(fs.sb, fs.blocks, fs.bitmap, fs.dinode, fs.mem, ino);
    var res := fs.InodeWrite(ino, de, index, SLOT_SIZE);
    assert de[..SLOT_SIZE] == de;
    ok := res == Stored;
  }

  lemma Aligned(index: nat)
    requires index % SLOT_SIZE == 0
    ensures SLOT_SIZE * (index / SLOT_SIZE) == index
  {
  }

  /** inode_remove.  Sixteen zero bytes go to the offset `index`; it panics (`ok` is
      false) exactly when they do not fit or need more blocks than are free.  At the
      offset of a slot this deletes exactly the binding of that slot; at the end of
      the directory it adds a slot that binds nothing. */
  method InodeRemove(fs: FileSystem, ino: nat, index: nat) returns (ok: bool)
    requires IsDirectory(fs, ino) && index < USIZE_LIMIT
    modifies fs`blocks, fs`bitmap, fs`dinode, fs`mem, fs`image, fs`synced
    ensures ok <==>
      && index <= old(|Contents(fs, ino)|) && index + SLOT_SIZE <= INODE_MAX_BYTES
      && old(FreeCount(fs.sb, fs.bitmap) >= WriteNeeds(|Contents(fs, ino)|, index + SLOT_SIZE))
    ensures index + SLOT_SIZE <= old(|Contents(fs, ino)|) ==> ok
    ensures ok ==>
      && fs.Valid() && |fs.mem| == old(|fs.mem|)
      && Contents(fs, ino) == Splice(old(Contents(fs, ino)), index, ZeroSlot())
      && forall i :: 0 <= i < |fs.mem| && i != ino ==>
        fs.mem[i] == old(fs.mem)[i] && SameFile(old(fs.blocks), fs.blocks, fs.mem[i])
    ensures ok && index % SLOT_SIZE == 0 ==> IsDirectory(fs, ino)
    ensures index % SLOT_SIZE == 0 && index < old(|Contents(fs, ino)|) ==>
      && ok
      && var f := old(Contents(fs, ino)); var s := Slot(f, index / SLOT_SIZE);
      DirMap(Contents(fs, ino)) == if SlotInode(s) == 0 then DirMap(f) else DirMap(f) - {SlotKey(s)}
    ensures ok && index == old(|Contents(fs, ino)|) ==> DirMap(Contents(fs, ino)) == old(DirMap(Contents(fs, ino)))
  {
    hide Consistent, FileBytes, UniqueNames, KeyOf, Bindings, Slot, Splice, SameFile, Binds, DirMap;
    hide Agrees, Applied, Numbers, FreeCount, WriteNeeds, TenthIsLast;
    var de := ZeroSlot();
    if index + SLOT_SIZE <= |Contents(fs, ino)| {
      NoGrowth(|Contents(fs, ino)|, index + SLOT_SIZE);
    }
    SizeFits(fs.sb, fs.blocks, fs.bitmap, fs.dinode, fs.mem, ino);
    ZeroedSlot(Contents(fs, ino), index);
    var res := fs.InodeWrite(ino, de, index, SLOT_SIZE);
    assert de[..SLOT_SIZE] == de;
    ok := res == Stored;
  }

  function ZeroSlot(): (s: seq<Byte>)
    ensures |s| == SLOT_SIZE && SlotInode(s) == 0 && forall i :: 0 <= i < |s| ==> s[i] == 0
  {
    seq(SLOT_SIZE, _ => 0)
  }

  /** What a zeroed slot does to the bindings. */
  lemma ZeroedSlot(f: seq<Byte>, index: nat)
    requires DirShape(f) && UniqueNames(f)
    ensures index % SLOT_SIZE == 0 && index <= |f| ==>
      var g := Splice(f, index, ZeroSlot());
      && DirShape(g) && UniqueNames(g)
      && (index < |f| ==> index + SLOT_SIZE <= |f|)
      && (index < |f| ==>
            var s := Slot(f, index / SLOT_SIZE);
            DirMap(g) == if SlotInode(s) == 0 then DirMap(f) else DirMap(f) - {SlotKey(s)})
      && (index == |f| ==> DirMap(g) == DirMap(f))
  {
    hide UniqueNames, KeyOf, Bindings, Slot, Splice, Binds, DirMap;
    if index % SLOT_SIZE == 0 && index < |f| {
      Aligned(index);
      RemoveBinds(f, index / SLOT_SIZE, ZeroSlot());
    } else if index == |f| {
      Aligned(index);
      AppendZero(f);
    }
  }

  lemma AppendZero(f: seq<Byte>)
    requires DirShape(f) && UniqueNames(f)
    ensures var g := Splice(f, |f|, ZeroSlot()); DirShape(g) && UniqueNames(g) && DirMap(g) == DirMap(f)
  {
    hide SlotKey, SlotInode, Slot, Bindings;
    var k, s := NumSlots(f), ZeroSlot();
    Aligned(|f|);
    var g := Splice(f, SLOT_SIZE * k, s);
    SlotsAfterSplice(f, k, s);
    BindsAfterSplice(f, k, s);
    forall key ensures key in DirMap(g) <==> key in DirMap(f)
      ensures key in DirMap(g) && key in DirMap(f) ==> DirMap(g)[key] == DirMap(f)[key]
    {
      if key in DirMap(f) {
        var j := SlotOfKey(f, NumSlots(f), key);
        assert Binds(g, j, key);
        BoundBySlot(g, NumSlots(g), j, key);
        BoundBySlot(f, NumSlots(f), j, key);
      }
      if key in DirMap(g) {
        var j := SlotOfKey(g, NumSlots(g), key);
        BoundBySlot(f, NumSlots(f), j, key);
      }
    }
  }
}
