/**
  The operations of src/core/virtual_memory.c on user address spaces: walk, map,
  unmap, copyout and the copy made by fork.
 */
module VirtualMemory {
  import opened Bits
  import opened PageTable
  import opened TableCount

  /** u64 wraps around at 2^64, so page numbers wrap around at 2^52. */
  const WORD := 0x1_0000_0000_0000_0000
  const WORD_PAGES := 0x10_0000_0000_0000
  type Word = x: nat | x < WORD

  type Byte = x: nat | x < 256
  type Page = s: seq<Byte> | |s| == PAGE_SIZE witness seq(PAGE_SIZE, _ => 0)

  // --------------------------------------------------- relating page maps

  /** Free frames, tables and data pages are different frames.  Frame 0 is memory
      that the allocator never hands out. */
  ghost predicate Disjoint(free: seq<Frame>, tables: Tables, data: map<Frame, Page>) {
    && (forall i, j :: 0 <= i < j < |free| ==> free[i] != free[j])
    && (forall f :: f in free ==> 0 < f < FRAME_LIMIT && f !in tables && f !in data)
    && (forall f :: f in tables ==> f !in data)
    && 0 in data
  }

  /** Every directory translates as before. */
  ghost predicate SameMaps(tables: Tables, tag: Tags, tables': Tables, tag': Tags) {
    && (forall r :: IsRoot(tables, tag, r) ==> IsRoot(tables', tag', r))
    && (forall r, v: nat :: IsRoot(tables, tag, r) ==> Translate(tables', r, v) == Translate(tables, r, v))
  }

  /** How far page `v` is above page `first`, modulo 2^36. */
  function Distance(first: nat, v: nat): (d: nat)
    ensures d < PAGES
  {
    (v - first) % PAGES
  }

  lemma DistanceIs(first: nat, v: nat, n: nat)
    requires n < PAGES
    ensures v % PAGES == (first + n) % PAGES <==> Distance(first, v) == n
  {
    var q, d := (v - first) / PAGES, (v - first) % PAGES;
    assert v == first + d + PAGES * q;
    SameResidue(v, first + d, q);
    SamePosition(first, n, d);
  }

  lemma SameResidue(x: int, y: int, q: int)
    requires x == y + PAGES * q
    ensures x % PAGES == y % PAGES
  {
  }

  lemma SamePosition(first: nat, n: nat, d: nat)
    requires n < PAGES && d < PAGES
    ensures (first + n) % PAGES == (first + d) % PAGES <==> n == d
  {
  }

  /** How many pages meet the range of `sz > 0` bytes from `va`, with wrap-around. */
  function PagesMet(va: Word, sz: Word): nat
    requires sz > 0
  {
    ((va + sz - 1) % WORD / PAGE_SIZE - va / PAGE_SIZE) % WORD_PAGES + 1
  }

  /** These are the pages that begin before the end of the range, unless the range comes
      back to its first page: then it is that page alone. */
  lemma PagesMetIs(va: Word, sz: Word, d: nat)
    requires sz > 0
    ensures va % PAGE_SIZE + sz <= WORD ==>
      (d < PagesMet(va, sz) <==> d == 0 || PAGE_SIZE * (va / PAGE_SIZE + d) < va + sz)
    ensures va % PAGE_SIZE + sz > WORD ==> PagesMet(va, sz) == 1
  {
    var q, x := va / PAGE_SIZE, va % PAGE_SIZE + sz - 1;
    var last := va + sz - 1;
    assert last == PAGE_SIZE * (q + x / PAGE_SIZE) + x % PAGE_SIZE;
    Quotient(last, q + x / PAGE_SIZE, x % PAGE_SIZE);
    WrapPage(last);
    if x < WORD {
      SmallDistance(q, x / PAGE_SIZE);
    } else {
      assert x / PAGE_SIZE == WORD_PAGES;
      SmallDistance(q, 0);
    }
  }

  lemma WrapPage(x: nat)
    ensures x % WORD / PAGE_SIZE == x / PAGE_SIZE % WORD_PAGES
  {
    var y, k := x % WORD, x / WORD;
    assert x == PAGE_SIZE * (WORD_PAGES * k + y / PAGE_SIZE) + y % PAGE_SIZE;
    Quotient(x, WORD_PAGES * k + y / PAGE_SIZE, y % PAGE_SIZE);
  }

  lemma SmallDistance(q: nat, n: nat)
    requires n < WORD_PAGES && q < WORD_PAGES
    ensures ((q + n) % WORD_PAGES - q) % WORD_PAGES == n && ((q + n + WORD_PAGES) % WORD_PAGES - q) % WORD_PAGES == n
  {
  }

  /** The rounds of `for (a = va; a < va + npages * PGSIZE; a += PGSIZE)`, which are
      none when the end wraps around. */
  function PagesBelow(first: nat, npages: nat): nat {
    var end := (first + npages) % WORD_PAGES;
    if first < end then end - first else 0
  }

  lemma PagesBelowIs(first: nat, npages: nat, d: nat)
    requires first < WORD_PAGES
    ensures first + npages < WORD_PAGES ==> PagesBelow(first, npages) == npages
    ensures d < PagesBelow(first, npages) <==> first + d < (first + npages) % WORD_PAGES
  {
  }

  /** The page after `n` rounds of `a += PGSIZE`. */
  function PageAt(first: nat, n: nat): (a: nat)
    ensures a < WORD_PAGES
  {
    (first + n) % WORD_PAGES
  }

  /** `pa` after `d` rounds of `pa += PGSIZE`. */
  function PhysicalAt(pa: Word, d: nat): Word {
    (pa + PAGE_SIZE * d) % WORD
  }

  /** Pages mapped from `pa` on have consecutive frames. */
  lemma ConsecutiveFrames(pa: Word, d: nat)
    ensures FrameOf(EntryFor(PhysicalAt(pa, d), PTE_USER_DATA)) == (pa / PAGE_SIZE + d) % FRAME_LIMIT
  {
    var x := pa + PAGE_SIZE * d;
    var q := x / WORD;
    EntryBits(x % WORD, PTE_USER_DATA);
    Quotient(x, pa / PAGE_SIZE + d, pa % PAGE_SIZE);
    assert x == PAGE_SIZE * (WORD_PAGES * q + x % WORD / PAGE_SIZE) + x % WORD % PAGE_SIZE;
    Quotient(x, WORD_PAGES * q + x % WORD / PAGE_SIZE, x % WORD % PAGE_SIZE);
    SameFrameBits(pa / PAGE_SIZE + d, x % WORD / PAGE_SIZE, q);
  }

  lemma SameFrameBits(x: nat, y: nat, q: nat)
    requires x == WORD_PAGES * q + y
    ensures x % FRAME_LIMIT == y % FRAME_LIMIT
  {
    assert x == y + FRAME_LIMIT * (0x1_0000_0000 * q);
  }

  /** Pages first, first + 1, .., first + n - 1 of directory `r` went from not
      mapped to consecutive frames from `pa` on, and nothing else changed. */
  ghost predicate RangeMapped(tables: Tables, tag: Tags, tables': Tables, tag': Tags, r: Frame, first: nat, n: nat,
                              pa: Word)
  {
    && n <= PAGES
    && (forall s :: IsRoot(tables, tag, s) ==> IsRoot(tables', tag', s))
    && (forall s, v: nat :: IsRoot(tables, tag, s) ==>
          Translate(tables', s, v) == if s == r && Distance(first, v) < n
                                      then EntryFor(PhysicalAt(pa, Distance(first, v)), PTE_USER_DATA)
                                      else Translate(tables, s, v))
    && (forall v: nat :: Distance(first, v) < n ==> Translate(tables, r, v) == 0)
  }

  /** Low bit `k` of an entry for a user page is that of a valid page, of normal memory,
      for users, outer shareable and accessed, or one of the address. */
  ghost predicate UserPage(x: nat, pa: nat) {
    forall k: nat :: k < 12 ==> (Bit(x, k) <==> k in {0, 1, 2, 6, 9, 10} || Bit(pa, k))
  }

  ghost predicate UserPages(tables: Tables, r: Frame, first: nat, n: nat, pa: nat) {
    forall v: nat :: Distance(first, v) < n ==> UserPage(Translate(tables, r, v), pa)
  }

  lemma UserBits(pa: Word, d: nat)
    ensures UserPage(EntryFor(PhysicalAt(pa, d), PTE_USER_DATA), pa)
  {
    hide Bit, EntryFor;
    FlagBits();
    var x := PhysicalAt(pa, d);
    SameOffset(pa, d);
    forall k: nat | k < 12
      ensures Bit(EntryFor(x, PTE_USER_DATA), k) <==> k in {0, 1, 2, 6, 9, 10} || Bit(pa, k)
    {
      EntryHasBits(x, PTE_USER_DATA, k);
      OffsetBits(x, k);
      OffsetBits(pa, k);
    }
  }

  lemma SameOffset(pa: Word, d: nat)
    ensures PhysicalAt(pa, d) % PAGE_SIZE == pa % PAGE_SIZE
  {
    var x := pa + PAGE_SIZE * d;
    assert x == PAGE_SIZE * (pa / PAGE_SIZE + d) + pa % PAGE_SIZE;
    Quotient(x, pa / PAGE_SIZE + d, pa % PAGE_SIZE);
    var y := x % WORD;
    assert x == PAGE_SIZE * (WORD_PAGES * (x / WORD) + y / PAGE_SIZE) + y % PAGE_SIZE;
    Quotient(x, WORD_PAGES * (x / WORD) + y / PAGE_SIZE, y % PAGE_SIZE);
  }

  lemma MappedForUser(t0: Tables, g0: Tags, t1: Tables, g1: Tags, r: Frame, first: nat, n: nat, pa: Word)
    requires IsRoot(t0, g0, r) && RangeMapped(t0, g0, t1, g1, r, first, n, pa)
    ensures UserPages(t1, r, first, n, pa)
  {
    hide Translate, EntryFor, PhysicalAt, UserPage, Distance;
    forall v: nat | Distance(first, v) < n ensures UserPage(Translate(t1, r, v), pa) {
      UserBits(pa, Distance(first, v));
    }
  }

  /** Every entry that is not as before is that of a table, with no other flag. */
  ghost predicate OnlyTables(t0: Tables, t1: Tables) {
    forall f, i :: f in t1 && 0 <= i < ENTRIES && t1[f][i] != (if f in t0 then t0[f][i] else 0) ==>
      LowBitsAre(t1[f][i], {0, 1})
  }

  lemma NoNewTables(t: Tables)
    ensures OnlyTables(t, t)
  {
  }

  lemma OneNewTable(t0: Tables, t1: Tables, t: Frame, i: nat, c: Frame)
    requires OnlyTables(t0, t1) && t in t1 && c !in t1 && i < ENTRIES
    requires forall f :: f in t0 ==> f in t1
    ensures OnlyTables(t0, t1[c := EmptyTable()][t := t1[t][i := EntryFor(PAGE_SIZE * c, PTE_TABLE)]])
  {
    hide EntryFor, LowBitsAre;
    TableEntryBits(c);
  }

  /** Pages first, .., first + n - 1 of directory `r` were mapped and no longer
      are, and nothing else changed. */
  ghost predicate RangeUnmapped(tables: Tables, tag: Tags, tables': Tables, tag': Tags, r: Frame, first: nat, n: nat) {
    && n <= PAGES
    && (forall s :: IsRoot(tables, tag, s) ==> IsRoot(tables', tag', s))
    && (forall s, v: nat :: IsRoot(tables, tag, s) ==>
          Translate(tables', s, v) == if s == r && Distance(first, v) < n then 0 else Translate(tables, s, v))
    && (forall v: nat :: Distance(first, v) < n ==> Translate(tables, r, v) != 0)
  }

  /** Unmapping the pages that were mapped gives back every translation. */
  lemma MapUndone(t0: Tables, g0: Tags, t1: Tables, g1: Tags, t2: Tables, g2: Tags, r: Frame, first: nat, n: nat,
                  pa: Word, m: nat)
    requires IsRoot(t0, g0, r) && m <= n
    requires RangeMapped(t0, g0, t1, g1, r, first, n, pa) && RangeUnmapped(t1, g1, t2, g2, r, first, m)
    ensures SameMaps(t0, g0, t2, g2) <==> m == n
  {
    hide Translate, Distance, IsRoot, EntryFor, PhysicalAt;
    forall s | IsRoot(t0, g0, s) ensures IsRoot(t1, g1, s) && IsRoot(t2, g2, s) {
    }
    if m < n {
      DistanceIs(first, first + m, m);
      UserEntry(PhysicalAt(pa, m));
      assert Translate(t0, r, first + m) == 0;
    }
  }

  /** An entry made by uvm_map is valid and a leaf. */
  lemma UserEntry(pa: Word)
    ensures var x := EntryFor(pa, PTE_USER_DATA); x != 0 && Present(x) && x % PAGE_SIZE != 1
  {
    EntryBits(pa, PTE_USER_DATA);
  }

  /** None of the panics of uvmunmap can happen on the `n` pages just mapped. */
  lemma UnmapSucceeds(t0: Tables, g0: Tags, t1: Tables, g1: Tags, r: Frame, first: nat, n: nat, pa: Word, m: nat)
    requires IsRoot(t0, g0, r) && RangeMapped(t0, g0, t1, g1, r, first, n, pa) && m < n
    ensures m < PAGES && Translate(t1, r, first + m) != 0 && Translate(t1, r, first + m) % PAGE_SIZE != 1
  {
    hide Translate, Distance, IsRoot, EntryFor, PhysicalAt;
    DistanceIs(first, first + m, m);
    UserEntry(PhysicalAt(pa, m));
  }

  /** Page `k` of directory `q` was given entry `x`. */
  ghost predicate PageSet(tables: Tables, tag: Tags, tables': Tables, tag': Tags, q: Frame, k: nat, x: nat) {
    && (forall r :: IsRoot(tables, tag, r) ==> IsRoot(tables', tag', r))
    && (forall r, v: nat :: IsRoot(tables, tag, r) ==>
          Translate(tables', r, v) == if r == q && v % PAGES == k then x else Translate(tables, r, v))
  }

  lemma SetPageAll(tables: Tables, tag: Tags, q: Frame, k: nat, x: nat)
    requires WellFormed(tables, tag) && 0 !in tables && IsRoot(tables, tag, q)
    requires k < PAGES && Walk(tables, q, 3, k) != 0 && (x == 0 || Present(x))
    ensures Walk(tables, q, 3, k) in tables
    ensures var b := Walk(tables, q, 3, k); var tables' := tables[b := tables[b][Index(0, k) := x]];
      WellFormed(tables', tag) && tables'.Keys == tables.Keys && PageSet(tables, tag, tables', tag, q, k, x)
  {
    SetPage(tables, tag, q, k, x, q, 0);
    var b := Walk(tables, q, 3, k);
    var tables' := tables[b := tables[b][Index(0, k) := x]];
    forall r, v: nat | IsRoot(tables, tag, r)
      ensures IsRoot(tables', tag, r)
      ensures Translate(tables', r, v) == if r == q && v % PAGES == k then x else Translate(tables, r, v)
    {
      SetPage(tables, tag, q, k, x, r, v);
    }
  }

  lemma AddTableAll(tables: Tables, tag: Tags, t: Frame, i: nat, c: Frame)
    requires WellFormed(tables, tag)
    requires t in tables && 0 < tag[t].level && i < ENTRIES && !Present(tables[t][i])
    requires c !in tables && c < FRAME_LIMIT
    ensures var tables' := tables[c := EmptyTable()][t := tables[t][i := EntryFor(PAGE_SIZE * c, PTE_TABLE)]];
      WellFormed(tables', NewTag(tag, t, i, c)) && SameMaps(tables, tag, tables', NewTag(tag, t, i, c))
  {
    var tables' := tables[c := EmptyTable()][t := tables[t][i := EntryFor(PAGE_SIZE * c, PTE_TABLE)]];
    AddTableShape(tables, tag, t, i, c);
    forall r, v: nat | IsRoot(tables, tag, r)
      ensures IsRoot(tables', NewTag(tag, t, i, c), r) && Translate(tables', r, v) == Translate(tables, r, v)
    {
      AddTable(tables, tag, t, i, c, r, v);
    }
  }

  lemma SameMapsTrans(t0: Tables, g0: Tags, t1: Tables, g1: Tags, t2: Tables, g2: Tags)
    requires SameMaps(t0, g0, t1, g1) && SameMaps(t1, g1, t2, g2)
    ensures SameMaps(t0, g0, t2, g2)
  {
    hide Translate, IsRoot;
    forall s, v: nat | IsRoot(t0, g0, s) ensures Translate(t2, s, v) == Translate(t0, s, v) {
      assert IsRoot(t1, g1, s);
    }
  }

  /** The entry at the end of a walk is the translation. */
  lemma WalkTranslates(tables: Tables, tag: Tags, r: Frame, v: nat)
    requires WellFormed(tables, tag) && 0 !in tables && IsRoot(tables, tag, r)
    ensures var b := Walk(tables, r, 3, v % PAGES);
      && (b == 0 ==> Translate(tables, r, v) == 0)
      && (b != 0 ==> b in tables)
      && (b != 0 ==> Translate(tables, r, v) == if Present(tables[b][Index(0, v)]) then tables[b][Index(0, v)] else 0)
      && (b != 0 ==> (Translate(tables, r, v) != 0 <==> Present(tables[b][Index(0, v)])))
    ensures Index(0, v % PAGES) == Index(0, v)
  {
    RootOnPath(tables, tag, r, v % PAGES);
    WalkEnds(tables, tag, r, v % PAGES, r, 3);
    HighBitsIgnored(v, 0);
  }

  lemma WalkLevel(tables: Tables, tag: Tags, r: Frame, k: nat)
    requires WellFormed(tables, tag) && 0 !in tables && IsRoot(tables, tag, r) && k < PAGES && Walk(tables, r, 3, k) != 0
    ensures var b := Walk(tables, r, 3, k); b in tables && b in tag && tag[b].level == 0
  {
    RootOnPath(tables, tag, r, k);
    WalkEnds(tables, tag, r, k, r, 3);
  }

  lemma MapOneMore(t0: Tables, g0: Tags, t1: Tables, g1: Tags, t2: Tables, g2: Tags, t3: Tables, g3: Tags,
                   r: Frame, first: nat, n: nat, pa: Word)
    requires IsRoot(t0, g0, r)
    requires RangeMapped(t0, g0, t1, g1, r, first, n, pa) && SameMaps(t1, g1, t2, g2)
    requires Translate(t2, r, first + n) == 0
    requires PageSet(t2, g2, t3, g3, r, (first + n) % PAGES, EntryFor(PhysicalAt(pa, n), PTE_USER_DATA))
    ensures RangeMapped(t0, g0, t3, g3, r, first, n + 1, pa)
  {
    hide Translate, IsRoot, Distance;
    NotYetMapped(t0, g0, t1, g1, t2, g2, r, first, n, pa);
    forall v: nat
      ensures v % PAGES == (first + n) % PAGES <==> Distance(first, v) == n
      ensures Distance(first, v) == n ==> Translate(t0, r, v) == Translate(t0, r, first + n)
    {
      DistanceIs(first, v, n);
      SamePage(t0, r, v, first + n);
    }
    forall s, v: nat | IsRoot(t0, g0, s)
      ensures IsRoot(t3, g3, s)
      ensures Translate(t3, s, v) == if s == r && Distance(first, v) < n + 1
                                     then EntryFor(PhysicalAt(pa, Distance(first, v)), PTE_USER_DATA)
                                     else Translate(t0, s, v)
    {
      assert IsRoot(t1, g1, s) && IsRoot(t2, g2, s);
    }
  }

  lemma SamePage(tables: Tables, r: Frame, v: nat, w: nat)
    ensures v % PAGES == w % PAGES ==> Translate(tables, r, v) == Translate(tables, r, w)
  {
  }

  lemma NotYetMapped(t0: Tables, g0: Tags, t1: Tables, g1: Tags, t2: Tables, g2: Tags, r: Frame, first: nat, n: nat,
                     pa: Word)
    requires IsRoot(t0, g0, r)
    requires RangeMapped(t0, g0, t1, g1, r, first, n, pa) && SameMaps(t1, g1, t2, g2)
    ensures n <= PAGES && (Translate(t2, r, first + n) == 0 <==> n < PAGES && Translate(t0, r, first + n) == 0)
  {
    hide Translate, IsRoot, Distance;
    assert IsRoot(t1, g1, r);
    assert Translate(t2, r, first + n) == Translate(t1, r, first + n);
    if n < PAGES {
      DistanceIs(first, first + n, n);
    } else {
      DistanceIs(first, first + n, 0);
      SameResidue(first + n, first, 1);
    }
  }

  lemma UnmapOneMore(t0: Tables, g0: Tags, t1: Tables, g1: Tags, t2: Tables, g2: Tags, r: Frame, first: nat, n: nat)
    requires IsRoot(t0, g0, r) && RangeUnmapped(t0, g0, t1, g1, r, first, n)
    requires Translate(t1, r, first + n) != 0
    requires PageSet(t1, g1, t2, g2, r, (first + n) % PAGES, 0)
    ensures RangeUnmapped(t0, g0, t2, g2, r, first, n + 1) && IsRoot(t2, g2, r)
  {
    hide Translate, IsRoot, Distance;
    StillMapped(t0, g0, t1, g1, r, first, n);
    forall v: nat
      ensures v % PAGES == (first + n) % PAGES <==> Distance(first, v) == n
      ensures Distance(first, v) == n ==> Translate(t0, r, v) == Translate(t0, r, first + n)
    {
      DistanceIs(first, v, n);
      SamePage(t0, r, v, first + n);
    }
    forall s, v: nat | IsRoot(t0, g0, s)
      ensures IsRoot(t2, g2, s)
      ensures Translate(t2, s, v) == if s == r && Distance(first, v) < n + 1 then 0 else Translate(t0, s, v)
    {
      assert IsRoot(t1, g1, s);
    }
  }

  lemma StillMapped(t0: Tables, g0: Tags, t1: Tables, g1: Tags, r: Frame, first: nat, n: nat)
    requires IsRoot(t0, g0, r) && RangeUnmapped(t0, g0, t1, g1, r, first, n)
    ensures n <= PAGES && (Translate(t1, r, first + n) != 0 <==> n < PAGES && Translate(t0, r, first + n) != 0)
    ensures n < PAGES ==> Translate(t1, r, first + n) == Translate(t0, r, first + n)
  {
    hide Translate, IsRoot, Distance;
    if n < PAGES {
      DistanceIs(first, first + n, n);
    } else {
      DistanceIs(first, first + n, 0);
      SameResidue(first + n, first, 1);
    }
  }

  // ------------------------------------------------------- private frames

  /** Page `v` of directory `r` is frame `f`. */
  ghost predicate Maps(tables: Tables, tag: Tags, r: Frame, v: nat, f: Frame) {
    IsRoot(tables, tag, r) && v < PAGES && Translate(tables, r, v) != 0 && FrameOf(Translate(tables, r, v)) == f
  }

  /** Every mapped page has a frame of its own. */
  ghost predicate Private(tables: Tables, tag: Tags, data: map<Frame, Page>) {
    && (forall r, v, f :: Maps(tables, tag, r, v, f) ==> f != 0 && f in data)
    && (forall r, v, s, w, f :: Maps(tables, tag, r, v, f) && Maps(tables, tag, s, w, f) ==> r == s && v == w)
  }

  ghost function FramesOf(tables: Tables, r: Frame, first: nat, n: nat): set<Frame> {
    set v | first <= v < first + n :: FrameOf(Translate(tables, r, v))
  }

  lemma SamePrivate(t0: Tables, g0: Tags, t1: Tables, g1: Tags, data: map<Frame, Page>)
    requires SameMaps(t0, g0, t1, g1) && Private(t0, g0, data)
    requires forall r :: IsRoot(t1, g1, r) ==> IsRoot(t0, g0, r)
    ensures Private(t1, g1, data)
  {
    hide Translate, IsRoot;
    forall r, v, f | Maps(t1, g1, r, v, f) ensures Maps(t0, g0, r, v, f) {
    }
  }

  // ------------------------------------------------------------ the class

  datatype MapResult = Mapped | NoMemory | PanicRemap | PanicZero
  datatype CopyResult = Child(dir: Frame) | NoDirectory | NullWalk
  datatype UnmapResult = Unmapped | PanicUnaligned | PanicNotMapped | PanicNotLeaf

  class Memory {
    var tables: Tables
    ghost var tag: Tags
    /** The free list, as a stack. */
    var free: seq<Frame>
    var data: map<Frame, Page>

    ghost predicate Valid()
      reads this
    {
      WellFormed(tables, tag) && Disjoint(free, tables, data)
    }

    /** Memory after boot: every frame in `frames` is free. */
    constructor (frames: seq<Frame>)
      requires forall i, j :: 0 <= i < j < |frames| ==> frames[i] != frames[j]
      requires forall f :: f in frames ==> 0 < f < FRAME_LIMIT
      ensures Valid() && free == frames && data == map[0 := seq(PAGE_SIZE, _ => 0)]
      ensures Private(tables, tag, data) && forall r :: !IsRoot(tables, tag, r)
    {
      tables, tag, free, data := map[], map[], frames, map[0 := seq(PAGE_SIZE, _ => 0)];
    }

    /** my_pgdir_init: a directory in a free frame that maps nothing, or 0. */
    method PgdirInit() returns (r: Frame)
      requires Valid()
      modifies this`tables, this`tag, this`free
      ensures Valid() && SameMaps(old(tables), old(tag), tables, tag)
      ensures r == 0 <==> old(free) == []
      ensures r == 0 ==> tables == old(tables) && tag == old(tag) && free == []
      ensures r != 0 ==> IsRoot(tables, tag, r) && r !in old(tables) && free == old(free)[1..]
      ensures r != 0 ==> forall v: nat :: Translate(tables, r, v) == 0
      ensures r != 0 ==> forall v: nat, l: nat :: v < PAGES && l < 3 ==> !Has(tables, r, v, l)
      ensures Private(old(tables), old(tag), data) ==> Private(tables, tag, data)
    {
      hide WellFormed, Translate, Disjoint, IsRoot, SameMaps, Private, Has;
      SameSelf(tables, tag);
      if free == [] {
        return 0;
      }
      NoTableZero(free, tables, data);
      r := free[0];
      TakeFree(free, tables, data);
      StartRoot(tables, tag, data, r);
      AsTable(free, tables, data, tables[r := EmptyTable()]);
      free := free[1..];
      tables := tables[r := EmptyTable()];
      tag := tag[r := Tag(r, 3, 0)];
    }

    /** my_pgdir_walk: the bottom table for page `v`, or 0.  Whether it succeeds or
        fails, no page of any directory changes its translation.  With `alloc` it
        fails exactly when fewer frames are free than the walk lacks tables, without
        it exactly when one is lacking. */
    method PgdirWalk(r: Frame, v: nat, alloc: bool) returns (b: Frame)
      requires Valid() && IsRoot(tables, tag, r)
      modifies this`tables, this`tag, this`free
      ensures Valid() && SameMaps(old(tables), old(tag), tables, tag)
      ensures forall s :: IsRoot(tables, tag, s) ==> IsRoot(old(tables), old(tag), s)
      ensures |free| <= |old(free)| && free == old(free)[|old(free)| - |free|..]
      ensures !alloc ==> tables == old(tables) && tag == old(tag) && free == old(free)
      ensures b != 0 || !alloc ==> b == Walk(tables, r, 3, v % PAGES)
      ensures alloc ==> (b != 0 <==> |old(free)| >= Missing(old(tables), r, v % PAGES, 0))
      ensures alloc && b != 0 ==>
        && |old(free)| == |free| + Missing(old(tables), r, v % PAGES, 0)
        && Grown(old(tables), old(tag), tables, r, {v % PAGES})
      ensures OnlyTables(old(tables), tables)
      ensures alloc && b == 0 ==> free == [] && GrownBottom(old(tables), old(tag), tables, r, {})
    {
      hide WellFormed, IsRoot, SameMaps, Translate, Walk, Descend, OnPath, Shift, Index, Present, Disjoint, Missing, Grew,
           SameRoots, Grown, GrownBottom, Hung, Together, OnlyTables, EntryFor;
      ghost var k := v % PAGES;
      var pgdir, level := r, 3;
      Start(tables, tag, r, k, free, data);
      NothingGrown(tables, tag, r, k);
      NothingMissing(tables, r, k);
      NoNewTables(tables);
      while level > 0
        invariant 0 <= level <= 3 && Valid() && IsRoot(tables, tag, r)
        invariant pgdir == Descend(tables, r, k, level) && 0 !in tables && pgdir != 0
        invariant OnPath(tables, tag, r, k, pgdir, level) && pgdir in tables
        invariant SameMaps(old(tables), old(tag), tables, tag)
        invariant forall s :: IsRoot(tables, tag, s) ==> IsRoot(old(tables), old(tag), s)
        invariant |free| <= |old(free)| && free == old(free)[|old(free)| - |free|..]
        invariant Grew(old(tables), old(tag), tables, r, k, level)
        invariant |old(free)| == |free| + if alloc then Missing(old(tables), r, k, level) else 0
        invariant OnlyTables(old(tables), tables) && forall f :: f in old(tables) ==> f in tables
        invariant !alloc ==> tables == old(tables) && tag == old(tag) && free == old(free)
      {
        HighBitsIgnored(v, level);
        var i := Index(level, v);
        var x := tables[pgdir][i];
        WalkStep(tables, tag, r, k, pgdir, level);
        RootsKept(old(tables), old(tag), tables, tag);
        MissingStep(old(tables), r, k, level);
        if Present(x) {
          GrewOn(old(tables), old(tag), tables, tag, r, k, level);
          pgdir := FrameOf(x);
        } else {
          if !alloc {
            return 0;
          }
          if free == [] {
            WalkStops(old(tables), old(tag), tables, r, k, level);
            return 0;
          }
          ghost var tables1, tag1 := tables, tag;
          var c := free[0];
          TakeFree(free, tables, data);
          Grow(tables, tag, pgdir, i, c, r, k, level);
          AsTable(free, tables, data,
                  tables[c := EmptyTable()][pgdir := tables[pgdir][i := EntryFor(PAGE_SIZE * c, PTE_TABLE)]]);
          OneNewTable(old(tables), tables, pgdir, i, c);
          free := free[1..];
          tables := tables[c := EmptyTable()][pgdir := tables[pgdir][i := EntryFor(PAGE_SIZE * c, PTE_TABLE)]];
          tag := NewTag(tag, pgdir, i, c);
          NewTableHung(tables1, pgdir, i, c);
          GrewMore(old(tables), old(tag), tables1, tag1, tables, r, k, level, c);
          SameMapsTrans(old(tables), old(tag), tables1, tag1, tables, tag);
          pgdir := c;
        }
        level := level - 1;
      }
      WalkOfDescend(tables, tag, r, k, 0);
      WalkOfBottom(tables, pgdir, k);
      WalkGrown(old(tables), old(tag), tables, r, k);
      return pgdir;
    }

    /** `*pte = x`, for the entry that a walk for page `v` ended at. */
    method SetEntry(r: Frame, v: nat, b: Frame, x: nat)
      requires Valid() && IsRoot(tables, tag, r) && b != 0 && b == Walk(tables, r, 3, v % PAGES)
      requires x == 0 || Present(x)
      modifies this`tables
      ensures Valid() && PageSet(old(tables), tag, tables, tag, r, v % PAGES, x)
      ensures forall s :: IsRoot(tables, tag, s) ==> IsRoot(old(tables), tag, s)
      ensures Grown(old(tables), tag, tables, r, {})
    {
      hide WellFormed, Translate, Walk, Disjoint, PageSet, Present, IsRoot, Grown;
      NoTableZero(free, tables, data);
      WalkLevel(tables, tag, r, v % PAGES);
      LeafGrown(tables, tag, b, Index(0, v), x, r);
      SetPageAll(tables, tag, r, v % PAGES, x);
      HighBitsIgnored(v, 0);
      ghost var was := tables;
      tables := tables[b := tables[b][Index(0, v) := x]];
      SameTables(free, was, data, tables, tag);
    }

    /** my_uvm_map.  When it succeeds, exactly the pages that meet the range are
        mapped, to consecutive frames, and none of them was mapped.  When it stops
        early, exactly the first `n` of them are: with -1 when fewer frames were free
        than the walks for the range lack tables, with a panic when the next page is
        mapped already. */
    method UvmMap(r: Frame, va: Word, sz: Word, pa: Word) returns (res: MapResult, ghost n: nat)
      requires Valid() && IsRoot(tables, tag, r)
      modifies this`tables, this`tag, this`free
      ensures Valid() && RangeMapped(old(tables), old(tag), tables, tag, r, va / PAGE_SIZE, n, pa)
      ensures UserPages(tables, r, va / PAGE_SIZE, n, pa)
      ensures forall s :: IsRoot(tables, tag, s) ==> IsRoot(old(tables), old(tag), s)
      ensures |free| <= |old(free)| && free == old(free)[|old(free)| - |free|..]
      ensures res == PanicZero <==> sz == 0
      ensures res == PanicZero ==> n == 0
      ensures sz > 0 ==>
        && n <= PagesMet(va, sz)
        && (res == Mapped <==> n == PagesMet(va, sz))
        && (res == NoMemory ==>
              && free == [] && |old(free)| < |Needed(old(tables), r, PagesFrom(va / PAGE_SIZE, PagesMet(va, sz)))|
              && GrownBottom(old(tables), old(tag), tables, r, PagesFrom(va / PAGE_SIZE, n)))
        && (res == Mapped ==>
              && |old(free)| == |free| + |Needed(old(tables), r, PagesFrom(va / PAGE_SIZE, n))|
              && Grown(old(tables), old(tag), tables, r, PagesFrom(va / PAGE_SIZE, n)))
        && (res == PanicRemap ==> n == PAGES || Translate(old(tables), r, va / PAGE_SIZE + n) != 0)
    {
      hide WellFormed, Translate, Walk, Disjoint, PageSet, Present, IsRoot, SameMaps, RangeMapped, Index, EntryFor,
           PhysicalAt, PageAt, PagesMet, Missing, Grown, GrownBottom, SameRoots, Needed, PagesFrom, UserPages;
      n := 0;
      NothingMapped(tables, tag, r, va / PAGE_SIZE, pa);
      MappedForUser(tables, tag, tables, tag, r, va / PAGE_SIZE, n, pa);
      if sz == 0 {
        return PanicZero, n;
      }
      ghost var first := va / PAGE_SIZE;
      var a, last, pcur := va / PAGE_SIZE, (va + sz - 1) % WORD / PAGE_SIZE, pa;
      FirstPage(va, sz);
      FirstPhysical(pa);
      NothingGrown(tables, tag, r, 0);
      OneMorePage(first, 0);
      while true
        invariant a == PageAt(first, n) && pcur == PhysicalAt(pa, n) && n < PagesMet(va, sz)
        invariant Valid() && RangeMapped(old(tables), old(tag), tables, tag, r, first, n, pa)
        invariant IsRoot(tables, tag, r) && forall s :: IsRoot(tables, tag, s) ==> IsRoot(old(tables), old(tag), s)
        invariant |free| <= |old(free)| && free == old(free)[|old(free)| - |free|..]
        invariant Grown(old(tables), old(tag), tables, r, PagesFrom(first, n))
        invariant |old(free)| == |free| + |Needed(old(tables), r, PagesFrom(first, n))|
        decreases PagesMet(va, sz) - n
      {
        ghost var t1, g1 := tables, tag;
        var b := PgdirWalk(r, a, true);
        RangeThenSame(old(tables), old(tag), t1, g1, tables, tag, r, first, n, pa);
        RootsMapped(old(tables), old(tag), t1, g1, r, first, n, pa);
        WrappedPage(first, n, tables, r);
        MappedForUser(old(tables), old(tag), tables, tag, r, first, n, pa);
        if b == 0 {
          RangeStops(old(tables), old(tag), t1, g1, tables, r, first, n, PagesMet(va, sz), |old(free)|);
          return NoMemory, n;
        }
        RangeGrows(old(tables), old(tag), t1, g1, tables, r, first, n);
        RootsMapped(old(tables), old(tag), tables, tag, r, first, n, pa);
        NoTableZero(free, tables, data);
        WalkTranslates(tables, tag, r, a);
        NotYetMapped(old(tables), old(tag), t1, g1, tables, tag, r, first, n, pa);
        if Present(tables[b][Index(0, a)]) {
          return PanicRemap, n;
        }
        ghost var t2, g2 := tables, tag;
        UserEntry(pcur);
        SetEntry(r, a, b, EntryFor(pcur, PTE_USER_DATA));
        MapOneMore(old(tables), old(tag), t1, g1, t2, g2, tables, tag, r, first, n, pa);
        RootKept(old(tables), old(tag), tables, tag, r, first, n + 1, pa);
        LeafAfter(old(tables), old(tag), t2, g2, tables, r, PagesFrom(first, n + 1));
        LastPage(va, sz, n);
        n := n + 1;
        MappedForUser(old(tables), old(tag), tables, tag, r, first, n, pa);
        if a == last {
          return Mapped, n;
        }
        NextPage(first, n - 1);
        NextPhysical(pa, n - 1);
        a, pcur := (a + 1) % WORD_PAGES, (pcur + PAGE_SIZE) % WORD;
      }
    }

    /** The body of the loop in uvmunmap, for a mapped page. */
    method UnmapPage(r: Frame, v: nat, b: Frame, doFree: bool)
      requires Valid() && IsRoot(tables, tag, r) && b != 0 && b == Walk(tables, r, 3, v % PAGES)
      requires Translate(tables, r, v) != 0 && (doFree ==> Private(tables, tag, data))
      modifies this`tables, this`data, this`free
      ensures Valid() && PageSet(old(tables), tag, tables, tag, r, v % PAGES, 0)
      ensures forall s :: IsRoot(tables, tag, s) ==> IsRoot(old(tables), tag, s)
      ensures doFree ==> Private(tables, tag, data)
      ensures Returned(if doFree then {FrameOf(old(Translate(tables, r, v)))} else {}, old(data), old(free), data, free)
    {
      hide WellFormed, Translate, Walk, Disjoint, PageSet, Present, IsRoot, Index, Private, FrameOf;
      NoTableZero(free, tables, data);
      EntryIsTranslation(tables, tag, r, v);
      if doFree {
        var f := FrameOf(tables[b][Index(0, v)]);
        FreePage(free, tables, tag, data, r, v);
        free := [f] + free;
        data := data - {f};
      }
      SetEntry(r, v, b, 0);
      if doFree {
        PrivateAfterFree(old(tables), tables, tag, old(data), r, v);
      }
    }

    /** uvmunmap: the first `n` pages were mapped and no longer are, and all of them
        unless the next one is not mapped or not a leaf.  With `doFree` exactly their
        frames go back to the free list. */
    method Uvmunmap(r: Frame, va: Word, npages: Word, doFree: bool) returns (res: UnmapResult, ghost n: nat)
      requires Valid() && IsRoot(tables, tag, r)
      requires doFree ==> Private(tables, tag, data)
      modifies this
      ensures tag == old(tag) && Valid() && RangeUnmapped(old(tables), tag, tables, tag, r, va / PAGE_SIZE, n)
      ensures n <= PagesBelow(va / PAGE_SIZE, npages)
      ensures res == Unmapped <==> va % PAGE_SIZE == 0 && n == PagesBelow(va / PAGE_SIZE, npages)
      ensures res == PanicUnaligned <==> va % PAGE_SIZE != 0
      ensures res == PanicNotMapped ==> n == PAGES || Translate(old(tables), r, va / PAGE_SIZE + n) == 0
      ensures res == PanicNotLeaf ==> Translate(old(tables), r, va / PAGE_SIZE + n) % PAGE_SIZE == 1
      ensures doFree ==> Private(tables, tag, data)
      ensures Returned(if doFree then FramesOf(old(tables), r, va / PAGE_SIZE, n) else {}, old(data), old(free), data, free)
    {
      hide WellFormed, Translate, Walk, Disjoint, PageSet, Present, IsRoot, SameMaps, RangeUnmapped, Index, Private,
           FramesOf, FrameOf, Returned;
      n := 0;
      ghost var first := va / PAGE_SIZE;
      NothingUnmapped(tables, tag, r, first);
      NoFrames(tables, r, first);
      if va % PAGE_SIZE != 0 {
        return PanicUnaligned, n;
      }
      var a, end := va / PAGE_SIZE, (va / PAGE_SIZE + npages) % WORD_PAGES;
      while a < end
        invariant a == first + n && n <= PagesBelow(first, npages) && tag == old(tag)
        invariant Valid() && RangeUnmapped(old(tables), tag, tables, tag, r, first, n)
        invariant IsRoot(tables, tag, r) && forall s :: IsRoot(tables, tag, s) ==> IsRoot(old(tables), tag, s)
        invariant doFree ==> Private(tables, tag, data)
        invariant Returned(if doFree then FramesOf(old(tables), r, first, n) else {}, old(data), old(free), data, free)
      {
        var b := PgdirWalk(r, a, false);
        NoTableZero(free, tables, data);
        WalkTranslates(tables, tag, r, a);
        StillMapped(old(tables), tag, tables, tag, r, first, n);
        if b == 0 {
          return PanicNotMapped, n;
        }
        var x := tables[b][Index(0, a)];
        if !Present(x) {
          return PanicNotMapped, n;
        }
        if x % PAGE_SIZE == 1 {
          return PanicNotLeaf, n;
        }
        ghost var t1, d1, f1 := tables, data, free;
        UnmapPage(r, a, b, doFree);
        OneMoreFrame(old(tables), r, first, n, FrameOf(x));
        ReturnedTrans(if doFree then FramesOf(old(tables), r, first, n + 1) else {},
                      if doFree then FramesOf(old(tables), r, first, n) else {}, if doFree then {FrameOf(x)} else {},
                      old(data), old(free), d1, f1, data, free);
        UnmapOneMore(old(tables), tag, t1, tag, tables, tag, r, first, n);
        n := n + 1;
        a := a + 1;
      }
      return Unmapped, n;
    }

    /** my_copyout.  Each byte goes to its offset in the frame of its page, where a page
        that is not mapped has frame 0; where several bytes meet, the last one stays.
        When every mapped page has a frame of its own and addresses have 48 bits, this
        is a write to the mapped bytes of the range that changes no other mapped byte
        of any address space, and the range reads back as `src` exactly when all of
        it was mapped, although the call returns 0 in any case.  It does not return
        (`ok` is false, after `n` bytes) exactly when fewer frames are free than the
        walks for the range lack tables: then uva2ka1 reads an entry through a null
        pointer. */
    method CopyOut(r: Frame, va: Word, src: seq<Byte>) returns (ok: bool, ghost n: nat)
      requires Valid() && IsRoot(tables, tag, r) && Backed(tables, r, data)
      modifies this
      ensures Valid() && SameMaps(old(tables), old(tag), tables, tag) && Backed(tables, r, data)
      ensures Private(old(tables), old(tag), old(data)) ==> Private(tables, tag, data)
      ensures n <= |src| && (ok <==> n == |src|) && (!ok ==> free == [])
      ensures ok <==> |old(free)| >= |Needed(old(tables), r, PagesFrom(va / PAGE_SIZE, PageSpan(va, |src|)))|
      ensures ok ==> |old(free)| == |free| + |Needed(old(tables), r, PagesFrom(va / PAGE_SIZE, PageSpan(va, |src|)))|
      ensures BytesLand(old(tables), old(data), data, r, va, src, n)
      ensures Private(old(tables), old(tag), old(data)) && va + |src| <= PAGE_SIZE * PAGES ==>
        && Flat(old(tables), old(tag), old(data), tables, data, r, va, src, n)
        && (ok ==> (ReadsBack(tables, data, r, va, src) <==> AllMapped(old(tables), r, va, |src|)))
    {
      hide WellFormed, Translate, Walk, Disjoint, Present, IsRoot, SameMaps, Private, Index, FrameOf, BytesLand, Backed,
           Flat, ReadsBack, AllMapped, Grown, GrownBottom, SameRoots, Needed, Missing, PagesFrom, PageSpan;
      n := 0;
      var done, cur := 0, va;
      ghost var first, p, span := va / PAGE_SIZE, 0, PageSpan(va, |src|);
      SameSelf(tables, tag);
      NothingLands(tables, data, r, va, src);
      NothingGrown(tables, tag, r, 0);
      OneMorePage(first, 0);
      SpanStart(va, |src|);
      while done < |src|
        invariant n == done <= |src| && (done < |src| ==> cur == va + done && cur / PAGE_SIZE == first + p)
        invariant if done < |src| then p < span else p == span
        invariant Grown(old(tables), old(tag), tables, r, PagesFrom(first, p))
        invariant |old(free)| == |free| + |Needed(old(tables), r, PagesFrom(first, p))|
        invariant Valid() && IsRoot(tables, tag, r) && Backed(tables, r, data)
        invariant Private(old(tables), old(tag), old(data)) ==> Private(tables, tag, data)
        invariant SameMaps(old(tables), old(tag), tables, tag)
        invariant BytesLand(old(tables), old(data), data, r, va, src, done)
      {
        ghost var t1, g1, d1 := tables, tag, data;
        var b := PgdirWalk(r, cur / PAGE_SIZE, true);
        RootsKept(old(tables), old(tag), t1, g1);
        SameMapsTrans(old(tables), old(tag), t1, g1, tables, tag);
        StillPrivate(t1, g1, tables, tag, data);
        RootOf(t1, g1, tables, tag, r);
        StillBacked(t1, g1, tables, tag, r, data);
        if b == 0 {
          RangeStops(old(tables), old(tag), t1, g1, tables, r, first, p, span, |old(free)|);
          CopyEnd(old(tables), old(tag), old(data), tables, tag, data, r, va, src, done);
          return false, n;
        }
        RangeGrows(old(tables), old(tag), t1, g1, tables, r, first, p);
        NoTableZero(free, tables, data);
        EntryIsTranslation(tables, tag, r, cur / PAGE_SIZE);
        var f := FrameOf(tables[b][Index(0, cur / PAGE_SIZE)]);
        BackedAt(tables, r, data, cur / PAGE_SIZE);
        SameAt(old(tables), old(tag), tables, tag, r, cur / PAGE_SIZE);
        var at := cur % PAGE_SIZE;
        var m := if PAGE_SIZE - at > |src| - done then |src| - done else PAGE_SIZE - at;
        SpanStep(va, |src|, done, m, p);
        LandRound(old(tables), old(data), data, r, va, src, done, m);
        data := data[f := Patch(data[f], at, src[done..done + m])];
        SameKeys(free, tables, tag, d1, data, r);
        done := done + m;
        n := done;
        p := p + 1;
        cur := (cur / PAGE_SIZE + 1) * PAGE_SIZE;
      }
      CopyEnd(old(tables), old(tag), old(data), tables, tag, data, r, va, src, n);
      return true, n;
    }

    /** uvm_map, and then uvmunmap on the pages that it mapped: uvmunmap never
        panics, and every translation of every directory is back exactly when the
        range ends below 2^64. */
    method MapThenUnmap(r: Frame, va: Word, sz: Word, pa: Word)
      returns (res: MapResult, un: UnmapResult, ghost n: nat)
      requires Valid() && IsRoot(tables, tag, r)
      modifies this
      ensures Valid() && data == old(data)
      ensures res == PanicZero ==> sz == 0
      ensures res == NoMemory ==>
        sz > 0 && |old(free)| < |Needed(old(tables), r, PagesFrom(va / PAGE_SIZE, PagesMet(va, sz)))|
      ensures res == PanicRemap ==> n == PAGES || Translate(old(tables), r, va / PAGE_SIZE + n) != 0
      ensures n == PAGES ==> sz > 0 && PAGES <= PagesMet(va, sz)
      ensures res == Mapped ==> sz > 0 && un == Unmapped
      ensures res == Mapped ==>
        (SameMaps(old(tables), old(tag), tables, tag) <==> va / PAGE_SIZE + PagesMet(va, sz) < WORD_PAGES)
    {
      hide WellFormed, UserPages, Translate, Disjoint, IsRoot, SameMaps, RangeMapped, RangeUnmapped, FramesOf;
      ghost var m;
      res, n := UvmMap(r, va, sz, pa);
      un := Unmapped;
      if res == Mapped {
        ghost var t1, g1, first := tables, tag, va / PAGE_SIZE;
        RootKept(old(tables), old(tag), tables, tag, r, first, n, pa);
        un, m := Uvmunmap(r, va / PAGE_SIZE * PAGE_SIZE, PagesMet(va, sz), false);
        assert data == old(data);
        MappedAtMost(old(tables), old(tag), t1, g1, r, first, n, pa);
        if m < n && un != Unmapped {
          UnmapSucceeds(old(tables), old(tag), t1, g1, r, first, n, pa, m);
        }
        MapUndone(old(tables), old(tag), t1, g1, tables, tag, r, first, n, pa, m);
      }
    }

    /** The loop body of my_uvm_alloc up to the result of uvm_map: a zeroed page is
        mapped as page `v`. */
    method AllocPage(r: Frame, v: nat) returns (res: MapResult)
      requires Valid() && IsRoot(tables, tag, r) && Private(tables, tag, data) && v < PAGES
      modifies this
      ensures Valid() && Private(tables, tag, data) && IsRoot(tables, tag, r)
      ensures res == Mapped <==> Translate(old(tables), r, v) == 0 && |old(free)| > |Needed(old(tables), r, {v})|
      ensures res == Mapped ==>
        && |old(free)| == |free| + 1 + |Needed(old(tables), r, {v})|
        && (forall w: nat :: w < PAGES && w != v ==> Translate(tables, r, w) == Translate(old(tables), r, w))
        && Translate(tables, r, v) != 0 && PageOf(tables, data, r, v) == seq(PAGE_SIZE, _ => 0)
        && (forall f :: f in old(data) ==> f in data && data[f] == old(data)[f])
        && Grown(old(tables), old(tag), tables, r, {v})
    {
      hide WellFormed, UserPages, Translate, Disjoint, IsRoot, Private, FrameOf, RangeMapped, Grown, GrownBottom, Needed,
           PagesFrom, PagesMet, SameMaps, Walk;
      if free == [] {
        return NoMemory;
      }
      var mem := free[0];
      TakeFree(free, tables, data);
      ghost var t1, g1, d1 := tables, tag, data;
      AsData(free, tables, data, data[mem := seq(PAGE_SIZE, _ => 0)]);
      free := free[1..];
      data := data[mem := seq(PAGE_SIZE, _ => 0)];
      OnePage(v);
      OneNumber(v);
      ghost var m;
      res, m := UvmMap(r, PAGE_SIZE * v, PAGE_SIZE, PAGE_SIZE * mem);
      PrivateAfterMap(t1, g1, d1, tables, tag, data, r, v, m, mem);
      RootKept(t1, g1, tables, tag, r, v, m, PAGE_SIZE * mem);
      OneMapped(t1, g1, tables, tag, r, v, m, mem);
    }

    /** my_uvm_copy of the directory of the running process.  The parent has pages 0 to
        n - 1 and not page n.  What happens depends on the number of free frames alone:
        a complete child needs Frames(n) of them.  With fewer, the first `m` pages are
        copied and the call goes on with what uvm_map makes of a null pointer: the
        pages behind them that share the last bottom table are mapped to frame 0, the
        others are missing.  And each page for which kalloc returns null is copied to
        address 0, which is page 0 of the parent, so that the parent's page 0 ends up
        with the bytes of its page n - 1; only if memory ran out within the last page
        this does not happen.  Without any frame the result is null if there is
        nothing to copy, and otherwise uvm_map walks from a null directory. */
    method UvmCopy(r: Frame) returns (res: CopyResult, ghost n: nat, ghost m: nat)
      requires Valid() && IsRoot(tables, tag, r) && Private(tables, tag, data)
      modifies this
      ensures Valid() && SameMaps(old(tables), old(tag), tables, tag)
      ensures n < FRAME_LIMIT && (forall v: nat :: v < n ==> Translate(old(tables), r, v) != 0)
      ensures |old(free)| > 0 <==> res.Child?
      ensures res == NoDirectory <==> |old(free)| == 0 && n == 0
      ensures res == NullWalk <==> |old(free)| == 0 && n > 0
      ensures res != NullWalk ==> Translate(old(tables), r, n) == 0
      ensures !res.Child? ==> tables == old(tables) && data == old(data) && free == []
      ensures res.Child? ==>
        && m <= n && (m == n <==> |old(free)| >= Frames(n)) && Frames(m) <= |old(free)|
        && (m < n ==> |old(free)| < Frames(m + 1))
        && |free| == (if m == n then |old(free)| - Frames(n) else 0)
        && Copied(old(tables), old(data), tables, tag, data, r, res.dir, m, n, n > 0 && |old(free)| <= Frames(n - 1))
      ensures n == 0 || |old(free)| > Frames(n - 1) ==> Private(tables, tag, data)
    {
      hide WellFormed, Translate, Walk, Disjoint, Present, IsRoot, SameMaps, Copied, Private, Index, FrameOf, Frames,
           Skeleton, BottomSkeleton, Has;
      n, m := 0, 0;
      ghost var frames := |free|;
      NoFrameOfZero(free, tables, data);
      var child := PgdirInit();
      RootOf(old(tables), old(tag), tables, tag, r);
      NoPages();
      if child != 0 {
        NothingCopied(old(tables), old(data), tables, tag, r, child);
      }
      var i := 0;
      while true
        invariant n == i < FRAME_LIMIT && m <= n && Valid() && IsRoot(tables, tag, r)
        invariant SameMaps(old(tables), old(tag), tables, tag)
        invariant forall v: nat :: v < n ==> Translate(old(tables), r, v) != 0
        invariant child == 0 <==> frames == 0
        invariant child == 0 ==> i == 0 && tables == old(tables) && data == old(data) && free == []
        invariant child != 0 ==> IsRoot(tables, tag, child) && BottomSkeleton(tables, child, m) && Frames(m) <= frames
        invariant child != 0 ==>
          Copied(old(tables), old(data), tables, tag, data, r, child, m, n, NullCopied(frames, m, n))
        invariant child != 0 && m == n ==> |free| == frames - Frames(n) && Skeleton(tables, child, m)
        invariant m < n ==> free == [] && frames < Frames(m + 1)
        invariant m == n || (m + 1 == n && frames > Frames(m)) ==> Private(tables, tag, data)
        decreases FRAME_LIMIT - i
      {
        var b := PgdirWalk(r, i, false);
        NoTableZero(free, tables, data);
        WalkTranslates(tables, tag, r, i);
        SameAt(old(tables), old(tag), tables, tag, r, i);
        if b == 0 {
          break;
        }
        var x := tables[b][Index(0, i)];
        if !Present(x) {
          break;
        }
        EntryIsTranslation(tables, tag, r, i);
        MappedBelow(old(tables), old(tag), old(data), r, i + 1);
        if child == 0 {
          return NullWalk, n + 1, m;
        }
        FramesGrow(m, m + 1);
        NullCopiedIff(frames, m, n);
        if free == [] {
          CopyToNull(r, child, i, m, FrameOf(x), frames, old(tables), old(tag), old(data));
        } else {
          var mapped := CopyPage(r, child, i, FrameOf(x), frames, old(tables), old(tag), old(data));
          m := if mapped then m + 1 else m;
        }
        i := i + 1;
        n := i;
      }
      if child != 0 {
        NullCopiedIff(frames, m, n);
      }
      res := if child == 0 then NoDirectory else Child(child);
    }

    /** The body of the loop of my_uvm_copy, for a mapped page `i` in frame `from`, while
        there is a frame for the copy.  `frames` is what was free before the copy. */
    method CopyPage(r: Frame, child: Frame, i: nat, from: Frame, ghost frames: nat, ghost t0: Tables, ghost g0: Tags,
                    ghost d0: map<Frame, Page>) returns (mapped: bool)
      requires Valid() && Private(tables, tag, data) && IsRoot(tables, tag, r) && IsRoot(tables, tag, child)
      requires free != [] && SameMaps(t0, g0, tables, tag) && Copied(t0, d0, tables, tag, data, r, child, i, i, false)
      requires IsRoot(t0, g0, r) && Private(t0, g0, d0) && 0 in d0 && i + 1 < FRAME_LIMIT
      requires Translate(t0, r, i) != 0 && from == FrameOf(Translate(tables, r, i))
      requires Skeleton(tables, child, i) && frames == |free| + Frames(i)
      modifies this
      ensures Valid() && Private(tables, tag, data) && SameMaps(t0, g0, tables, tag)
      ensures IsRoot(tables, tag, r) && IsRoot(tables, tag, child)
      ensures mapped <==> frames >= Frames(i + 1)
      ensures mapped ==>
        && Copied(t0, d0, tables, tag, data, r, child, i + 1, i + 1, false)
        && Skeleton(tables, child, i + 1) && BottomSkeleton(tables, child, i + 1) && frames == |free| + Frames(i + 1)
      ensures !mapped ==>
        && free == [] && Copied(t0, d0, tables, tag, data, r, child, i, i + 1, false) && BottomSkeleton(tables, child, i)
    {
      hide WellFormed, UserPages, Translate, Walk, Disjoint, Present, IsRoot, SameMaps, Copied, Private, Index, FrameOf,
           RangeMapped, Frames, Skeleton, BottomSkeleton, Has, Grown, GrownBottom, Needed, PagesFrom, Missing;
      var mem := free[0];
      TakeFree(free, tables, data);
      NoFrameOfZero(free, tables, data);
      TargetFrame(tables, tag, data, r, i);
      SameAt(t0, g0, tables, tag, r, i);
      ghost var t1, g1, d1 := tables, tag, data;
      AsData(free, tables, data, data[mem := data[from]]);
      NotInOld(t0, d0, tables, tag, data, r, child, i, i, false);
      free := free[1..];
      data := data[mem := data[from]];
      OnePage(i);
      PageCost(t1, g1, child, i);
      ghost var m;
      var res;
      res, m := UvmMap(child, PAGE_SIZE * i, PAGE_SIZE, PAGE_SIZE * mem);
      NotRemapped(t0, d0, t1, g1, d1, r, child, i, m, tables, tag, PAGE_SIZE * mem, res, i, false);
      SameAfterMap(t0, g0, t1, g1, tables, tag, child, i, m, PAGE_SIZE * mem);
      PrivateAfterMap(t1, g1, d1, tables, tag, data, child, i, m, mem);
      mapped := res == Mapped;
      if mapped {
        CopyMore(t0, g0, d0, t1, g1, d1, tables, tag, data, r, child, i, mem);
        SkeletonMore(t1, g1, tables, child, i);
      } else {
        LostPage(t0, d0, t1, g1, d1, r, child, i, tables, tag, data, mem, data[mem]);
        SkeletonStays(t1, g1, tables, child, i);
      }
    }

    /** The same when kalloc returns null: memmove writes to address 0, and uvm_map maps
        the page to K2P(0). */
    method CopyToNull(r: Frame, child: Frame, i: nat, ghost m: nat, from: Frame, ghost frames: nat, ghost t0: Tables,
                      ghost g0: Tags, ghost d0: map<Frame, Page>)
      requires Valid() && IsRoot(tables, tag, r) && IsRoot(tables, tag, child) && free == []
      requires SameMaps(t0, g0, tables, tag)
      requires m <= i && Copied(t0, d0, tables, tag, data, r, child, m, i, NullCopied(frames, m, i))
      requires IsRoot(t0, g0, r) && Private(t0, g0, d0) && 0 in d0 && i + 1 < FRAME_LIMIT
      requires Translate(t0, r, i) != 0 && from == FrameOf(Translate(tables, r, i))
      requires BottomSkeleton(tables, child, m) && (m == i ==> frames == Frames(m))
      modifies this
      ensures Valid() && SameMaps(t0, g0, tables, tag) && free == []
      ensures IsRoot(tables, tag, r) && IsRoot(tables, tag, child) && BottomSkeleton(tables, child, m)
      ensures Copied(t0, d0, tables, tag, data, r, child, m, i + 1, NullCopied(frames, m, i + 1))
    {
      hide WellFormed, UserPages, Translate, Walk, Disjoint, Present, IsRoot, SameMaps, Copied, Private, Index, FrameOf,
           RangeMapped, Frames, BottomSkeleton, Has, Grown, GrownBottom, Needed, PagesFrom, Missing;
      var over := NullCopied(frames, m, i);
      ghost var t1, g1, d1 := tables, tag, data;
      SameAt(t0, g0, tables, tag, r, i);
      SameAt(t0, g0, tables, tag, r, 0);
      NullFrames(t0, g0, d0, tables, tag, data, r, child, m, i, over);
      var zero := PgdirWalk(r, 0, false);
      NoTableZero(free, tables, data);
      PageZeroMapped(t0, d0, tables, tag, data, r, child, m, i, over);
      WalkTranslates(tables, tag, r, 0);
      EntryIsTranslation(tables, tag, r, 0);
      var f0 := FrameOf(tables[zero][Index(0, 0)]);
      data := data[f0 := data[from]];
      SameKeys(free, tables, tag, d1, data, r);
      OnePage(i);
      BottomCost(t1, g1, child, m, i);
      ghost var k;
      var res;
      res, k := UvmMap(child, PAGE_SIZE * i, PAGE_SIZE, NULL_ADDRESS);
      NotRemapped(t0, d0, t1, g1, d1, r, child, i, k, tables, tag, NULL_ADDRESS, res, m, over);
      NotInOld(t0, d0, t1, g1, d1, r, child, m, i, over);
      SameAfterMap(t0, g0, t1, g1, tables, tag, child, i, k, NULL_ADDRESS);
      NullMore(t0, g0, d0, t1, g1, d1, tables, tag, data, r, child, m, i, k, over);
      NullSkeleton(t1, g1, tables, child, m, i, res);
    }
  }

  // ------------------------------------------------------ user memory

  /** The byte at user address `a`, which has 48 bits. */
  function UserByte(tables: Tables, data: map<Frame, Page>, r: Frame, a: nat): Byte {
    var f := FrameOf(Translate(tables, r, a / PAGE_SIZE));
    if f in data then data[f][a % PAGE_SIZE] else 0
  }

  predicate UserMapped(tables: Tables, r: Frame, a: nat) {
    Translate(tables, r, a / PAGE_SIZE) != 0
  }

  /** In every address space, the mapped bytes from `va` on, `n` of them, of
      directory `r` are those of `src`, and all other mapped bytes are as before. */
  ghost predicate Flat(t0: Tables, g0: Tags, d0: map<Frame, Page>, t1: Tables, d1: map<Frame, Page>, r: Frame,
                       va: nat, src: seq<Byte>, n: nat)
    requires n <= |src|
  {
    forall s, a: nat :: IsRoot(t0, g0, s) && a < PAGE_SIZE * PAGES && UserMapped(t0, s, a) ==>
      UserByte(t1, d1, s, a) == if s == r && va <= a < va + n then src[a - va] else UserByte(t0, d0, s, a)
  }

  /** The last of the first `n` bytes of `src` that goes to offset `o` of frame `f`, or
      else `b`. */
  function Landed(tables: Tables, r: Frame, va: nat, src: seq<Byte>, n: nat, f: Frame, o: nat, b: Byte): Byte
    requires n <= |src|
  {
    if n == 0 then b
    else if (va + n - 1) % PAGE_SIZE == o && FrameAt(tables, r, va + n - 1) == f then src[n - 1]
    else Landed(tables, r, va, src, n - 1, f, o, b)
  }

  /** What copyout leaves in every frame. */
  ghost predicate BytesLand(t0: Tables, d0: map<Frame, Page>, d1: map<Frame, Page>, r: Frame, va: nat, src: seq<Byte>,
                            n: nat)
    requires n <= |src|
  {
    && d1.Keys == d0.Keys
    && forall f, o :: f in d0 && 0 <= o < PAGE_SIZE ==> d1[f][o] == Landed(t0, r, va, src, n, f, o, d0[f][o])
  }

  /** Every frame that `r` maps, and frame 0, is a data page. */
  ghost predicate Backed(tables: Tables, r: Frame, data: map<Frame, Page>) {
    forall v: nat :: FrameOf(Translate(tables, r, v)) in data
  }

  /** How many pages meet `n` bytes from `va`. */
  function PageSpan(va: nat, n: nat): nat {
    if n == 0 then 0 else (va + n - 1) / PAGE_SIZE - va / PAGE_SIZE + 1
  }

  /** These are the pages that begin before the end. */
  lemma PageSpanIs(va: nat, n: nat, d: nat)
    ensures d < PageSpan(va, n) <==> n > 0 && (d == 0 || PAGE_SIZE * (va / PAGE_SIZE + d) < va + n)
  {
  }

  function FrameAt(tables: Tables, r: Frame, a: nat): Frame {
    FrameOf(Translate(tables, r, a / PAGE_SIZE))
  }

  ghost predicate AllMapped(tables: Tables, r: Frame, va: nat, n: nat) {
    forall a: nat :: va <= a < va + n ==> UserMapped(tables, r, a)
  }

  /** Every address of the range is mapped and holds its byte of `src`. */
  ghost predicate ReadsBack(tables: Tables, data: map<Frame, Page>, r: Frame, va: nat, src: seq<Byte>) {
    forall a: nat :: va <= a < va + |src| ==> UserMapped(tables, r, a) && UserByte(tables, data, r, a) == src[a - va]
  }

  lemma WalkOfBottom(tables: Tables, b: Frame, v: nat)
    requires b in tables
    ensures Walk(tables, b, 0, v) == b
  {
  }

  lemma Start(tables: Tables, tag: Tags, r: Frame, k: nat, free: seq<Frame>, data: map<Frame, Page>)
    requires WellFormed(tables, tag) && IsRoot(tables, tag, r) && k < PAGES && Disjoint(free, tables, data)
    ensures 0 !in tables && r in tables && Descend(tables, r, k, 3) == r && OnPath(tables, tag, r, k, r, 3)
    ensures SameMaps(tables, tag, tables, tag)
  {
    RootOnPath(tables, tag, r, k);
  }

  /** One step of the walk. */
  lemma WalkStep(tables: Tables, tag: Tags, r: Frame, k: nat, t: Frame, level: nat)
    requires WellFormed(tables, tag) && 0 !in tables && IsRoot(tables, tag, r) && k < PAGES && 0 < level <= 3
    requires t != 0 && t == Descend(tables, r, k, level) && OnPath(tables, tag, r, k, t, level)
    ensures t in tables && t in tag && tag[t].level == level && tag[t].root == r
    ensures var x := tables[t][Index(level, k)];
      if Present(x)
      then Descend(tables, r, k, level - 1) == FrameOf(x) && OnPath(tables, tag, r, k, FrameOf(x), level - 1)
           && FrameOf(x) in tables && Has(tables, r, k, level - 1)
      else Walk(tables, r, 3, k) == 0 && !Has(tables, r, k, level - 1)
  {
    if Present(tables[t][Index(level, k)]) {
      NextOnPath(tables, tag, r, k, t, level);
    } else {
      WalkOfDescend(tables, tag, r, k, level);
    }
  }

  lemma NothingMissing(tables: Tables, r: Frame, k: nat)
    ensures Missing(tables, r, k, 3) == 0
  {
  }

  lemma MissingStep(tables: Tables, r: Frame, k: nat, level: nat)
    requires 0 < level <= 3
    ensures Missing(tables, r, k, level - 1)
         == Missing(tables, r, k, level) + if Has(tables, r, k, level - 1) then 0 else 1
  {
  }

  lemma RootsKept(t0: Tables, g0: Tags, t1: Tables, g1: Tags)
    requires SameMaps(t0, g0, t1, g1)
    ensures SameRoots(t0, g0, t1, g1)
  {
  }

  lemma TakeFree(free: seq<Frame>, tables: Tables, data: map<Frame, Page>)
    requires Disjoint(free, tables, data) && free != []
    ensures 0 < free[0] < FRAME_LIMIT && free[0] !in tables && free[0] !in data
  {
    assert free[0] in free;
  }

  lemma AsTable(free: seq<Frame>, tables: Tables, data: map<Frame, Page>, tables': Tables)
    requires Disjoint(free, tables, data) && free != [] && tables'.Keys == tables.Keys + {free[0]}
    ensures Disjoint(free[1..], tables', data)
  {
  }

  /** A table allocated during a walk. */
  lemma Grow(tables: Tables, tag: Tags, t: Frame, i: nat, c: Frame, r: Frame, k: nat, level: nat)
    requires WellFormed(tables, tag) && 0 !in tables && IsRoot(tables, tag, r) && k < PAGES && 0 < level <= 3
    requires t == Descend(tables, r, k, level) && OnPath(tables, tag, r, k, t, level)
    requires i == Index(level, k) && t in tables && !Present(tables[t][i])
    requires c !in tables && 0 < c < FRAME_LIMIT
    ensures t in tag && tag[t].level == level
    ensures var tables' := tables[c := EmptyTable()][t := tables[t][i := EntryFor(PAGE_SIZE * c, PTE_TABLE)]];
      var tag' := NewTag(tag, t, i, c);
      && WellFormed(tables', tag') && SameMaps(tables, tag, tables', tag') && IsRoot(tables', tag', r)
      && tables'.Keys == tables.Keys + {c} && c in tables'
      && Descend(tables', r, k, level - 1) == c && OnPath(tables', tag', r, k, c, level - 1)
      && forall s :: IsRoot(tables', tag', s) ==> IsRoot(tables, tag, s)
  {
    var tables' := tables[c := EmptyTable()][t := tables[t][i := EntryFor(PAGE_SIZE * c, PTE_TABLE)]];
    AddTableAll(tables, tag, t, i, c);
    AddTableDescend(tables, tag, t, i, c, r, k, level);
    EntryFrame(c, PTE_TABLE);
    PrefixStep(k, level);
  }

  // -------------------------------------------------------- small facts

  lemma NoTableZero(free: seq<Frame>, tables: Tables, data: map<Frame, Page>)
    requires Disjoint(free, tables, data)
    ensures 0 !in tables
  {
  }

  lemma SameTables(free: seq<Frame>, tables: Tables, data: map<Frame, Page>, tables': Tables, tag: Tags)
    requires Disjoint(free, tables, data) && tables'.Keys == tables.Keys
    ensures Disjoint(free, tables', data)
    ensures forall s :: IsRoot(tables', tag, s) ==> IsRoot(tables, tag, s)
  {
  }

  lemma NothingMapped(tables: Tables, tag: Tags, r: Frame, first: nat, pa: Word)
    ensures RangeMapped(tables, tag, tables, tag, r, first, 0, pa)
  {
    hide Translate, IsRoot;
  }

  lemma NothingUnmapped(tables: Tables, tag: Tags, r: Frame, first: nat)
    ensures RangeUnmapped(tables, tag, tables, tag, r, first, 0)
  {
    hide Translate, IsRoot;
  }

  lemma RangeThenSame(t0: Tables, g0: Tags, t1: Tables, g1: Tags, t2: Tables, g2: Tags, r: Frame, first: nat, n: nat,
                      pa: Word)
    requires RangeMapped(t0, g0, t1, g1, r, first, n, pa) && SameMaps(t1, g1, t2, g2)
    ensures RangeMapped(t0, g0, t2, g2, r, first, n, pa)
    ensures IsRoot(t1, g1, r) ==> IsRoot(t2, g2, r)
  {
    hide Translate, IsRoot, Distance;
    forall s, v: nat | IsRoot(t0, g0, s) ensures Translate(t2, s, v) == Translate(t1, s, v) {
      assert IsRoot(t1, g1, s);
    }
  }

  lemma RootsMapped(t0: Tables, g0: Tags, t1: Tables, g1: Tags, r: Frame, first: nat, n: nat, pa: Word)
    requires RangeMapped(t0, g0, t1, g1, r, first, n, pa)
    ensures SameRoots(t0, g0, t1, g1)
  {
    hide Translate, IsRoot, Distance;
  }

  lemma LeafAfter(t0: Tables, g0: Tags, t1: Tables, g1: Tags, t2: Tables, r: Frame, pages: set<nat>)
    requires Grown(t0, g0, t1, r, pages) && Grown(t1, g1, t2, r, {}) && SameRoots(t0, g0, t1, g1)
    ensures Grown(t0, g0, t2, r, pages)
  {
    hide Grown, SameRoots;
    GrownTrans(t0, g0, t1, g1, t2, r, pages, {});
    assert pages + {} == pages;
  }

  lemma RootKept(t0: Tables, g0: Tags, t1: Tables, g1: Tags, r: Frame, first: nat, n: nat, pa: Word)
    requires RangeMapped(t0, g0, t1, g1, r, first, n, pa) && IsRoot(t0, g0, r)
    ensures IsRoot(t1, g1, r)
  {
    hide Translate, IsRoot, Distance;
  }

  lemma FirstPhysical(pa: Word)
    ensures PhysicalAt(pa, 0) == pa
  {
  }

  lemma NextPhysical(pa: Word, n: nat)
    ensures PhysicalAt(pa, n + 1) == (PhysicalAt(pa, n) + PAGE_SIZE) % WORD
  {
  }

  lemma FirstPage(va: Word, sz: Word)
    requires sz > 0
    ensures PageAt(va / PAGE_SIZE, 0) == va / PAGE_SIZE && PagesMet(va, sz) > 0
  {
  }

  lemma NextPage(first: nat, n: nat)
    ensures PageAt(first, n + 1) == (PageAt(first, n) + 1) % WORD_PAGES
  {
  }

  /** The walk only looks at the page number modulo 2^36. */
  lemma WrappedPage(first: nat, n: nat, tables: Tables, r: Frame)
    ensures PageAt(first, n) % PAGES == (first + n) % PAGES
    ensures Translate(tables, r, PageAt(first, n)) == Translate(tables, r, first + n)
  {
    SameResidue(first + n, PageAt(first, n), 0x1_0000 * ((first + n) / WORD_PAGES));
    SamePage(tables, r, PageAt(first, n), first + n);
  }

  lemma LastPage(va: Word, sz: Word, n: nat)
    requires sz > 0 && n < PagesMet(va, sz)
    ensures PageAt(va / PAGE_SIZE, n) == (va + sz - 1) % WORD / PAGE_SIZE <==> n + 1 == PagesMet(va, sz)
  {
    LastOf(va / PAGE_SIZE, (va + sz - 1) % WORD / PAGE_SIZE, n);
  }

  lemma LastOf(first: nat, last: nat, n: nat)
    requires first < WORD_PAGES && last < WORD_PAGES && n <= (last - first) % WORD_PAGES
    ensures PageAt(first, n) == last <==> n == (last - first) % WORD_PAGES
  {
    if last >= first {
      assert (last - first) % WORD_PAGES == last - first;
    } else {
      assert (last - first) % WORD_PAGES == last - first + WORD_PAGES;
    }
  }

  lemma FreePage(free: seq<Frame>, tables: Tables, tag: Tags, data: map<Frame, Page>, r: Frame, v: nat)
    requires Disjoint(free, tables, data) && Private(tables, tag, data) && IsRoot(tables, tag, r)
    requires Translate(tables, r, v) != 0
    ensures var f := FrameOf(Translate(tables, r, v));
      f in data && f !in free && Disjoint([f] + free, tables, data - {f})
  {
    hide Translate, IsRoot;
    SamePage(tables, r, v, v % PAGES);
    assert Maps(tables, tag, r, v % PAGES, FrameOf(Translate(tables, r, v)));
  }

  lemma PrivateAfterFree(tables: Tables, tables': Tables, tag: Tags, data: map<Frame, Page>, r: Frame, v: nat)
    requires Private(tables, tag, data) && IsRoot(tables, tag, r) && Translate(tables, r, v) != 0
    requires PageSet(tables, tag, tables', tag, r, v % PAGES, 0)
    requires forall s :: IsRoot(tables', tag, s) ==> IsRoot(tables, tag, s)
    ensures Private(tables', tag, data - {FrameOf(Translate(tables, r, v))})
  {
    hide Translate, IsRoot;
    SamePage(tables, r, v, v % PAGES);
    assert Maps(tables, tag, r, v % PAGES, FrameOf(Translate(tables, r, v)));
    forall s, w, f | Maps(tables', tag, s, w, f) ensures Maps(tables, tag, s, w, f) && !(s == r && w == v % PAGES) {
    }
  }

  lemma OneMoreFrame(tables: Tables, r: Frame, first: nat, n: nat, f: Frame)
    requires f == FrameOf(Translate(tables, r, first + n))
    ensures FramesOf(tables, r, first, n + 1) == FramesOf(tables, r, first, n) + {f}
  {
    hide Translate, FrameOf;
  }

  /** The frames in `gone` went from the data pages to the free list. */
  ghost predicate Returned(gone: set<Frame>, d0: map<Frame, Page>, f0: seq<Frame>, d1: map<Frame, Page>, f1: seq<Frame>) {
    d1 == d0 - gone && (forall f :: f in f1 <==> f in f0 || f in gone) && (gone == {} ==> f1 == f0)
  }

  lemma ReturnedTrans(g: set<Frame>, g0: set<Frame>, g1: set<Frame>, d0: map<Frame, Page>, f0: seq<Frame>, d1: map<Frame, Page>,
                      f1: seq<Frame>, d2: map<Frame, Page>, f2: seq<Frame>)
    requires g == g0 + g1 && Returned(g0, d0, f0, d1, f1) && Returned(g1, d1, f1, d2, f2)
    ensures Returned(g, d0, f0, d2, f2)
  {
    assert g0 + g1 == {} ==> g0 == {} && g1 == {};
  }

  lemma NoFrames(tables: Tables, r: Frame, first: nat)
    ensures FramesOf(tables, r, first, 0) == {}
    ensures forall d, f :: Returned({}, d, f, d, f)
  {
    forall d: map<Frame, Page>, f: seq<Frame> ensures Returned({}, d, f, d, f) {
      assert d - {} == d;
    }
  }

  // -------------------------------------------------------------- copyout

  function Patch(page: Page, at: nat, src: seq<Byte>): Page
    requires at + |src| <= PAGE_SIZE
  {
    page[..at] + src + page[at + |src|..]
  }

  lemma RootOf(t0: Tables, g0: Tags, t1: Tables, g1: Tags, r: Frame)
    requires SameMaps(t0, g0, t1, g1) && IsRoot(t0, g0, r)
    ensures IsRoot(t1, g1, r)
  {
  }

  lemma StillPrivate(t0: Tables, g0: Tags, t1: Tables, g1: Tags, data: map<Frame, Page>)
    requires SameMaps(t0, g0, t1, g1) && forall r :: IsRoot(t1, g1, r) ==> IsRoot(t0, g0, r)
    ensures Private(t0, g0, data) ==> Private(t1, g1, data)
  {
    hide SameMaps, Private, IsRoot;
    if Private(t0, g0, data) {
      SamePrivate(t0, g0, t1, g1, data);
    }
  }

  lemma StillBacked(t0: Tables, g0: Tags, t1: Tables, g1: Tags, r: Frame, data: map<Frame, Page>)
    requires SameMaps(t0, g0, t1, g1) && IsRoot(t0, g0, r) && Backed(t0, r, data)
    ensures Backed(t1, r, data)
  {
    hide Translate, IsRoot, FrameOf;
    forall v: nat ensures FrameOf(Translate(t1, r, v)) in data {
      SameAt(t0, g0, t1, g1, r, v);
      BackedAt(t0, r, data, v);
    }
  }

  lemma BackedAt(tables: Tables, r: Frame, data: map<Frame, Page>, v: nat)
    requires Backed(tables, r, data)
    ensures FrameOf(Translate(tables, r, v)) in data
  {
  }

  /** The entry that a walk ends at, whether or not it is valid. */
  lemma EntryIsTranslation(tables: Tables, tag: Tags, r: Frame, v: nat)
    requires WellFormed(tables, tag) && 0 !in tables && IsRoot(tables, tag, r) && Walk(tables, r, 3, v % PAGES) != 0
    ensures Walk(tables, r, 3, v % PAGES) in tables
    ensures tables[Walk(tables, r, 3, v % PAGES)][Index(0, v)] == Translate(tables, r, v)
  {
    RootOnPath(tables, tag, r, v % PAGES);
    WalkEnds(tables, tag, r, v % PAGES, r, 3);
    HighBitsIgnored(v, 0);
    assert LeafOk(tables[Walk(tables, r, 3, v % PAGES)][Index(0, v)]);
  }

  lemma TargetFrame(tables: Tables, tag: Tags, data: map<Frame, Page>, r: Frame, v: nat)
    requires IsRoot(tables, tag, r) && Private(tables, tag, data) && 0 in data
    ensures FrameOf(Translate(tables, r, v)) in data
    ensures FrameOf(Translate(tables, r, v)) == 0 <==> Translate(tables, r, v) == 0
  {
    hide IsRoot, Translate, FrameOf;
    SamePage(tables, r, v, v % PAGES);
    EmptyFrame();
    if Translate(tables, r, v) != 0 {
      assert Maps(tables, tag, r, v % PAGES, FrameOf(Translate(tables, r, v)));
    }
  }

  /** Two mapped pages with the same frame are the same page. */
  lemma SameFrame(tables: Tables, tag: Tags, data: map<Frame, Page>, r: Frame, v: nat, s: Frame, w: nat)
    requires IsRoot(tables, tag, r) && IsRoot(tables, tag, s) && Private(tables, tag, data) && v < PAGES && w < PAGES
    requires Translate(tables, s, w) != 0
    ensures FrameOf(Translate(tables, s, w)) in data
    ensures FrameOf(Translate(tables, r, v)) == FrameOf(Translate(tables, s, w)) <==> r == s && v == w
  {
    hide IsRoot, Translate, FrameOf;
    assert Maps(tables, tag, s, w, FrameOf(Translate(tables, s, w)));
    if Translate(tables, r, v) != 0 {
      assert Maps(tables, tag, r, v, FrameOf(Translate(tables, r, v)));
    } else {
      EmptyFrame();
    }
  }

  lemma EmptyFrame()
    ensures FrameOf(0) == 0
  {
  }

  lemma NothingLands(tables: Tables, data: map<Frame, Page>, r: Frame, va: nat, src: seq<Byte>)
    ensures BytesLand(tables, data, data, r, va, src, 0)
  {
    hide FrameAt;
  }

  lemma SpanStart(va: nat, n: nat)
    ensures if 0 < n then 0 < PageSpan(va, n) else PageSpan(va, n) == 0
  {
  }

  lemma SpanStep(va: nat, total: nat, done: nat, m: nat, p: nat)
    requires done < total && (va + done) / PAGE_SIZE == va / PAGE_SIZE + p
    requires m == var at := (va + done) % PAGE_SIZE; if PAGE_SIZE - at > total - done then total - done else PAGE_SIZE - at
    ensures done + m == total ==> p + 1 == PageSpan(va, total)
    ensures done + m < total ==>
      && p + 1 < PageSpan(va, total) && ((va + done) / PAGE_SIZE + 1) * PAGE_SIZE == va + done + m
      && (va + done + m) / PAGE_SIZE == va / PAGE_SIZE + (p + 1)
  {
    if done + m == total {
      WithinPage(va + done, m - 1);
      assert va + total - 1 == va + done + (m - 1);
    } else {
      var next := ((va + done) / PAGE_SIZE + 1) * PAGE_SIZE;
      assert next == va + done + m <= va + total - 1;
      assert next / PAGE_SIZE == (va + done) / PAGE_SIZE + 1;
    }
  }

  lemma PatchAt(page: Page, at: nat, src: seq<Byte>, i: nat)
    requires at + |src| <= PAGE_SIZE && i < PAGE_SIZE
    ensures Patch(page, at, src)[i] == if at <= i < at + |src| then src[i - at] else page[i]
  {
  }

  /** The bytes of one page. */
  lemma {:induction false} LandedRound(tables: Tables, r: Frame, va: nat, src: seq<Byte>, n: nat, m: nat, f: Frame, o: nat,
                                       b: Byte)
    requires n + m <= |src| && m <= PAGE_SIZE - (va + n) % PAGE_SIZE
    ensures var at := (va + n) % PAGE_SIZE;
      Landed(tables, r, va, src, n + m, f, o, b)
      == if FrameAt(tables, r, va + n) == f && at <= o < at + m then src[n + (o - at)]
         else Landed(tables, r, va, src, n, f, o, b)
  {
    hide Translate, FrameOf;
    if m > 0 {
      LandedRound(tables, r, va, src, n, m - 1, f, o, b);
      WithinPage(va + n, m - 1);
      assert va + (n + m) - 1 == va + n + (m - 1);
    }
  }

  /** One round of copyout. */
  lemma LandRound(t0: Tables, d0: map<Frame, Page>, d1: map<Frame, Page>, r: Frame, va: nat, src: seq<Byte>, n: nat, m: nat)
    requires n + m <= |src| && m <= PAGE_SIZE - (va + n) % PAGE_SIZE && BytesLand(t0, d0, d1, r, va, src, n)
    requires FrameOf(Translate(t0, r, (va + n) / PAGE_SIZE)) in d1
    ensures var f := FrameOf(Translate(t0, r, (va + n) / PAGE_SIZE));
      BytesLand(t0, d0, d1[f := Patch(d1[f], (va + n) % PAGE_SIZE, src[n..n + m])], r, va, src, n + m)
  {
    hide Translate, FrameOf, Landed, Patch;
    var f, at := FrameAt(t0, r, va + n), (va + n) % PAGE_SIZE;
    var d2 := d1[f := Patch(d1[f], at, src[n..n + m])];
    forall h, o | h in d0 && 0 <= o < PAGE_SIZE
      ensures d2[h][o] == Landed(t0, r, va, src, n + m, h, o, d0[h][o])
    {
      LandedRound(t0, r, va, src, n, m, h, o, d0[h][o]);
      PatchAt(d1[f], at, src[n..n + m], o);
    }
  }

  /** With private frames and 48-bit addresses, a mapped byte changes exactly when it
      is in the range. */
  lemma {:induction false} LandedPrivate(tables: Tables, tag: Tags, data: map<Frame, Page>, r: Frame, va: nat,
                                         src: seq<Byte>, n: nat, s: Frame, a: nat, b: Byte)
    requires n <= |src| && va + n <= PAGE_SIZE * PAGES && a < PAGE_SIZE * PAGES
    requires Private(tables, tag, data) && IsRoot(tables, tag, r) && IsRoot(tables, tag, s) && UserMapped(tables, s, a)
    ensures Landed(tables, r, va, src, n, FrameAt(tables, s, a), a % PAGE_SIZE, b)
         == if s == r && va <= a < va + n then src[a - va] else b
  {
    if n > 0 {
      hide Private, IsRoot, Translate, FrameOf;
      LandedPrivate(tables, tag, data, r, va, src, n - 1, s, a, b);
      SamePlaceOnly(tables, tag, data, r, va + n - 1, s, a);
    }
  }

  lemma SamePlaceOnly(tables: Tables, tag: Tags, data: map<Frame, Page>, r: Frame, x: nat, s: Frame, a: nat)
    requires x < PAGE_SIZE * PAGES && a < PAGE_SIZE * PAGES
    requires Private(tables, tag, data) && IsRoot(tables, tag, r) && IsRoot(tables, tag, s) && UserMapped(tables, s, a)
    ensures x % PAGE_SIZE == a % PAGE_SIZE && FrameAt(tables, r, x) == FrameAt(tables, s, a) <==> r == s && x == a
  {
    hide Private, IsRoot, Translate, FrameOf;
    assert x / PAGE_SIZE < PAGES && a / PAGE_SIZE < PAGES;
    SameFrame(tables, tag, data, r, x / PAGE_SIZE, s, a / PAGE_SIZE);
  }

  lemma WithinPage(x: nat, j: nat)
    requires x % PAGE_SIZE + j < PAGE_SIZE
    ensures (x + j) / PAGE_SIZE == x / PAGE_SIZE && (x + j) % PAGE_SIZE == x % PAGE_SIZE + j
  {
  }

  lemma LandedIsFlat(t0: Tables, g0: Tags, d0: map<Frame, Page>, t1: Tables, g1: Tags, d1: map<Frame, Page>, r: Frame,
                     va: nat, src: seq<Byte>, n: nat)
    requires n <= |src| && va + n <= PAGE_SIZE * PAGES && IsRoot(t0, g0, r) && Private(t0, g0, d0)
    requires SameMaps(t0, g0, t1, g1) && BytesLand(t0, d0, d1, r, va, src, n)
    ensures Flat(t0, g0, d0, t1, d1, r, va, src, n)
  {
    hide Translate, FrameOf, IsRoot, SameMaps, Landed, Private;
    forall s, a: nat | IsRoot(t0, g0, s) && a < PAGE_SIZE * PAGES && UserMapped(t0, s, a)
      ensures UserByte(t1, d1, s, a) == if s == r && va <= a < va + n then src[a - va] else UserByte(t0, d0, s, a)
    {
      SameAt(t0, g0, t1, g1, s, a / PAGE_SIZE);
      SameFrame(t0, g0, d0, s, a / PAGE_SIZE, s, a / PAGE_SIZE);
      LandedPrivate(t0, g0, d0, r, va, src, n, s, a, d0[FrameAt(t0, s, a)][a % PAGE_SIZE]);
    }
  }

  lemma CopyEnd(t0: Tables, g0: Tags, d0: map<Frame, Page>, tables: Tables, tag: Tags, data: map<Frame, Page>,
                r: Frame, va: nat, src: seq<Byte>, n: nat)
    requires n <= |src| && IsRoot(t0, g0, r) && SameMaps(t0, g0, tables, tag)
    requires BytesLand(t0, d0, data, r, va, src, n)
    ensures Private(t0, g0, d0) && va + |src| <= PAGE_SIZE * PAGES ==>
      && Flat(t0, g0, d0, tables, data, r, va, src, n)
      && (n == |src| ==> (ReadsBack(tables, data, r, va, src) <==> AllMapped(t0, r, va, |src|)))
  {
    hide Translate, FrameOf, IsRoot, SameMaps, UserByte, BytesLand, Private;
    if Private(t0, g0, d0) && va + |src| <= PAGE_SIZE * PAGES {
      LandedIsFlat(t0, g0, d0, tables, tag, data, r, va, src, n);
      forall a: nat ensures UserMapped(tables, r, a) <==> UserMapped(t0, r, a) {
        SameAt(t0, g0, tables, tag, r, a / PAGE_SIZE);
      }
    }
  }

  lemma SameKeys(free: seq<Frame>, tables: Tables, tag: Tags, data: map<Frame, Page>, data': map<Frame, Page>, r: Frame)
    requires data'.Keys == data.Keys
    ensures Disjoint(free, tables, data) ==> Disjoint(free, tables, data')
    ensures Backed(tables, r, data) ==> Backed(tables, r, data')
    ensures Private(tables, tag, data) ==> Private(tables, tag, data')
  {
    hide Maps, Translate, FrameOf;
  }

  /** The frame of a page that is not mapped is 0, so what is in frame 0 afterwards are
      exactly the bytes for such pages. */
  lemma ZeroIsUnmapped(tables: Tables, tag: Tags, data: map<Frame, Page>, r: Frame, a: nat)
    requires Private(tables, tag, data) && IsRoot(tables, tag, r) && 0 in data
    ensures FrameAt(tables, r, a) == 0 <==> !UserMapped(tables, r, a)
  {
    hide Private, IsRoot, Translate, FrameOf;
    TargetFrame(tables, tag, data, r, a / PAGE_SIZE);
  }

  // ---------------------------------------------------------------- fork

  /** A copy of `n` pages of which `m` succeeded wrote to address 0. */
  predicate NullCopied(frames: nat, m: nat, n: nat) {
    m < n && (frames == Frames(m) || n > m + 1)
  }

  /** The contents of page `v`. */
  function PageOf(tables: Tables, data: map<Frame, Page>, r: Frame, v: nat): Page {
    var f := FrameOf(Translate(tables, r, v));
    if f in data then data[f] else seq(PAGE_SIZE, _ => 0)
  }

  /** The first `m` pages of `child` are copies of those of `r` in new frames; of the
      pages up to `n` exactly those that share a bottom table with them are mapped to
      frame 0, and it has no other pages.  The old pages keep their bytes, except that
      page 0 has those of page n - 1 if `over`. */
  ghost predicate Copied(t0: Tables, d0: map<Frame, Page>, t1: Tables, g1: Tags, d1: map<Frame, Page>, r: Frame,
                         child: Frame, m: nat, n: nat, over: bool) {
    && m <= n && IsRoot(t1, g1, child) && child !in t0
    && (forall f :: f in d0 ==> f in d1 && d1[f] == Kept(t0, d0, r, n, over, f))
    && (forall v: nat :: v < n ==> Translate(t0, r, v) != 0)
    && (forall v: nat :: v < PAGES ==> (Translate(t1, child, v) != 0 <==> v < m || (v < n && Stretch(m, v))))
    && (forall v: nat :: v < m ==> FreshCopy(t0, d0, t1, d1, r, child, v))
    && (forall v: nat :: m <= v < n && Stretch(m, v) ==> FrameOf(Translate(t1, child, v)) == 0)
  }

  /** What an old page holds afterwards. */
  function Kept(t0: Tables, d0: map<Frame, Page>, r: Frame, n: nat, over: bool, f: Frame): Page
    requires f in d0
  {
    if over && n > 0 && f == FrameOf(Translate(t0, r, 0)) then PageOf(t0, d0, r, n - 1) else d0[f]
  }

  ghost predicate FreshCopy(t0: Tables, d0: map<Frame, Page>, t1: Tables, d1: map<Frame, Page>, r: Frame, child: Frame,
                            v: nat) {
    var f, f' := FrameOf(Translate(t0, r, v)), FrameOf(Translate(t1, child, v));
    f in d0 && f' in d1 && f' !in d0 && d1[f'] == d0[f]
  }

  /** The bytes of the child are those of the parent. */
  lemma CopiedBytes(t0: Tables, d0: map<Frame, Page>, t1: Tables, g1: Tags, d1: map<Frame, Page>, r: Frame,
                    child: Frame, m: nat, n: nat, over: bool, a: nat)
    requires Copied(t0, d0, t1, g1, d1, r, child, m, n, over) && a < PAGE_SIZE * m
    ensures UserByte(t1, d1, child, a) == UserByte(t0, d0, r, a)
  {
    assert FreshCopy(t0, d0, t1, d1, r, child, a / PAGE_SIZE);
  }

  lemma NotInOld(t0: Tables, d0: map<Frame, Page>, t1: Tables, g1: Tags, d1: map<Frame, Page>, r: Frame,
                 child: Frame, m: nat, n: nat, over: bool)
    requires Copied(t0, d0, t1, g1, d1, r, child, m, n, over)
    ensures child !in t0
  {
  }

  lemma SameSelf(tables: Tables, tag: Tags)
    ensures SameMaps(tables, tag, tables, tag)
  {
    hide Translate, IsRoot;
  }

  lemma SameAt(t0: Tables, g0: Tags, t1: Tables, g1: Tags, r: Frame, v: nat)
    requires SameMaps(t0, g0, t1, g1) && IsRoot(t0, g0, r)
    ensures Translate(t1, r, v) == Translate(t0, r, v) && r in t0
  {
  }

  lemma NoFrameOfZero(free: seq<Frame>, tables: Tables, data: map<Frame, Page>)
    requires Disjoint(free, tables, data)
    ensures 0 in data
  {
  }

  lemma AsData(free: seq<Frame>, tables: Tables, data: map<Frame, Page>, data': map<Frame, Page>)
    requires Disjoint(free, tables, data) && free != [] && data'.Keys == data.Keys + {free[0]}
    ensures Disjoint(free[1..], tables, data')
  {
    assert free[0] in free;
  }

  lemma OnePage(i: nat)
    requires i <= PAGES
    ensures PAGE_SIZE * i / PAGE_SIZE == i && PagesMet(PAGE_SIZE * i, PAGE_SIZE) == 1
  {
    assert (PAGE_SIZE * i + PAGE_SIZE - 1) % WORD / PAGE_SIZE == i;
  }

  lemma TopPage()
    ensures (WORD - PAGE_SIZE) / PAGE_SIZE == WORD_PAGES - 1 && PagesMet(WORD - PAGE_SIZE, PAGE_SIZE) == 1
  {
  }

  lemma StartRoot(tables: Tables, tag: Tags, data: map<Frame, Page>, c: Frame)
    requires WellFormed(tables, tag) && 0 !in tables && c !in tables && c != 0
    ensures var tables' := tables[c := EmptyTable()]; var tag' := tag[c := Tag(c, 3, 0)];
      && WellFormed(tables', tag') && IsRoot(tables', tag', c) && SameMaps(tables, tag, tables', tag')
      && (forall v: nat :: Translate(tables', c, v) == 0)
      && (forall v: nat, l: nat :: v < PAGES && l < 3 ==> !Has(tables', c, v, l))
      && (Private(tables, tag, data) ==> Private(tables', tag', data))
  {
    hide Translate;
    var tables' := tables[c := EmptyTable()];
    var tag' := tag[c := Tag(c, 3, 0)];
    NewRoot(tables, tag, c, c, 0);
    forall s, v: nat
      ensures Translate(tables', c, v) == 0
      ensures IsRoot(tables, tag, s) ==> IsRoot(tables', tag', s) && Translate(tables', s, v) == Translate(tables, s, v)
    {
      NewRoot(tables, tag, c, s, v);
    }
    forall s, v, f | Maps(tables', tag', s, v, f) ensures Maps(tables, tag, s, v, f) {
    }
    forall v: nat, l: nat | v < PAGES && l < 3 ensures !Has(tables', c, v, l) {
      NewRootDescend(tables, tag, c, c, v, l);
    }
  }

  lemma NothingCopied(t0: Tables, d: map<Frame, Page>, t1: Tables, g1: Tags, r: Frame, child: Frame)
    requires IsRoot(t1, g1, child) && child !in t0 && forall v: nat :: Translate(t1, child, v) == 0
    requires forall v: nat, l: nat :: v < PAGES && l < 3 ==> !Has(t1, child, v, l)
    ensures Copied(t0, d, t1, g1, d, r, child, 0, 0, false)
    ensures Skeleton(t1, child, 0) && BottomSkeleton(t1, child, 0)
  {
    hide Translate, IsRoot, Has;
  }

  lemma MappedAtMost(t0: Tables, g0: Tags, t1: Tables, g1: Tags, r: Frame, first: nat, n: nat, pa: Word)
    requires RangeMapped(t0, g0, t1, g1, r, first, n, pa) && first < WORD_PAGES
    ensures n <= PAGES && PagesBelow(first, n) == if first + n < WORD_PAGES then n else 0
  {
    hide Translate, IsRoot, Distance;
    if first + n >= WORD_PAGES {
      assert (first + n) % WORD_PAGES == first + n - WORD_PAGES;
    }
  }

  lemma SameAfterMap(t0: Tables, g0: Tags, t1: Tables, g1: Tags, t2: Tables, g2: Tags, child: Frame, i: nat, m: nat,
                     pa: Word)
    requires SameMaps(t0, g0, t1, g1) && RangeMapped(t1, g1, t2, g2, child, i, m, pa)
    requires child !in t0
    ensures SameMaps(t0, g0, t2, g2)
    ensures forall r :: IsRoot(t1, g1, r) ==> IsRoot(t2, g2, r)
  {
    hide Translate;
    forall s, v: nat | IsRoot(t0, g0, s) ensures Translate(t2, s, v) == Translate(t0, s, v) {
      assert IsRoot(t1, g1, s) && s != child;
    }
  }

  /** At most one page, page `i`, was mapped, to frame `mem`. */
  lemma OneMapped(t1: Tables, g1: Tags, t2: Tables, g2: Tags, child: Frame, i: nat, m: nat, mem: Frame)
    requires mem < FRAME_LIMIT && RangeMapped(t1, g1, t2, g2, child, i, m, PAGE_SIZE * mem) && m <= 1
    requires IsRoot(t1, g1, child)
    ensures forall v: nat :: v < PAGES ==>
      if m == 1 && v == i % PAGES
      then Translate(t2, child, v) != 0 && FrameOf(Translate(t2, child, v)) == mem && Translate(t1, child, v) == 0
      else Translate(t2, child, v) == Translate(t1, child, v)
  {
    hide Translate, IsRoot, Distance, FrameOf, EntryFor, PhysicalAt;
    FirstPhysical(PAGE_SIZE * mem);
    EntryFrame(mem, PTE_USER_DATA);
    forall v: nat | v < PAGES ensures Distance(i, v) < 1 <==> v == i % PAGES {
      DistanceIs(i, v, 0);
    }
  }

  lemma PrivateAfterMap(t1: Tables, g1: Tags, d1: map<Frame, Page>, t2: Tables, g2: Tags, d2: map<Frame, Page>,
                        child: Frame, i: nat, m: nat, mem: Frame)
    requires 0 < mem < FRAME_LIMIT
    requires Private(t1, g1, d1) && RangeMapped(t1, g1, t2, g2, child, i, m, PAGE_SIZE * mem) && m <= 1
    requires IsRoot(t1, g1, child) && mem !in d1 && d2.Keys == d1.Keys + {mem}
    requires forall s :: IsRoot(t2, g2, s) ==> IsRoot(t1, g1, s)
    ensures Private(t2, g2, d2)
  {
    hide Translate, IsRoot, Distance, FrameOf;
    OneMapped(t1, g1, t2, g2, child, i, m, mem);
    forall s, v, f | Maps(t2, g2, s, v, f)
      ensures if s == child && m == 1 && v == i % PAGES then f == mem else Maps(t1, g1, s, v, f)
    {
    }
  }

  lemma CopyMore(t0: Tables, g0: Tags, d0: map<Frame, Page>, t1: Tables, g1: Tags, d1: map<Frame, Page>, t2: Tables,
                 g2: Tags, d2: map<Frame, Page>, r: Frame, child: Frame, i: nat, mem: Frame)
    requires 0 < mem < FRAME_LIMIT
    requires Copied(t0, d0, t1, g1, d1, r, child, i, i, false) && i < PAGES
    requires RangeMapped(t1, g1, t2, g2, child, i, 1, PAGE_SIZE * mem)
    requires mem !in d1 && IsRoot(t2, g2, child)
    requires IsRoot(t0, g0, r) && Private(t0, g0, d0) && Translate(t0, r, i) != 0 && 0 in d0
    requires FrameOf(Translate(t0, r, i)) in d1 && d2 == d1[mem := d1[FrameOf(Translate(t0, r, i))]]
    ensures Copied(t0, d0, t2, g2, d2, r, child, i + 1, i + 1, false)
  {
    hide Translate, IsRoot, Distance, FrameOf, Private;
    OneMapped(t1, g1, t2, g2, child, i, 1, mem);
    WithinPages(i);
    assert Translate(t1, child, i % PAGES) == 0;
    TargetFrame(t0, g0, d0, r, i);
    forall v: nat | v < i + 1 ensures FreshCopy(t0, d0, t2, d2, r, child, v) {
      if v < i {
        assert FreshCopy(t0, d0, t1, d1, r, child, v);
      }
    }
  }

  lemma WithinPages(i: nat)
    requires i <= PAGES
    ensures i < PAGES ==> i % PAGES == i
    ensures i == PAGES ==> i % PAGES == 0
  {
  }

  lemma NotRemapped(t0: Tables, d0: map<Frame, Page>, t1: Tables, g1: Tags, d1: map<Frame, Page>, r: Frame, child: Frame,
                    i: nat, k: nat, t2: Tables, g2: Tags, pa: Word, res: MapResult, m: nat, over: bool)
    requires Copied(t0, d0, t1, g1, d1, r, child, m, i, over) && i < PAGES && k <= 1 && (res == Mapped <==> k == 1)
    requires res == PanicRemap ==> k == PAGES || Translate(t1, child, i + k) != 0
    ensures res != PanicRemap
  {
    hide Translate, IsRoot, FrameOf;
  }

  /** The frame was taken, but not the tables. */
  lemma LostPage(t0: Tables, d0: map<Frame, Page>, t1: Tables, g1: Tags, d1: map<Frame, Page>, r: Frame, child: Frame,
                 i: nat, t2: Tables, g2: Tags, d2: map<Frame, Page>, mem: Frame, page: Page)
    requires 0 < mem < FRAME_LIMIT && Copied(t0, d0, t1, g1, d1, r, child, i, i, false) && i < PAGES
    requires RangeMapped(t1, g1, t2, g2, child, i, 0, PAGE_SIZE * mem) && IsRoot(t1, g1, child)
    requires mem !in d1 && d2 == d1[mem := page] && Translate(t0, r, i) != 0 && Frames(i + 1) > Frames(i) + 1
    ensures Copied(t0, d0, t2, g2, d2, r, child, i, i + 1, false)
  {
    TablesStep(i);
    assert !Stretch(i, i);
    hide Translate, IsRoot, Distance, FrameOf, Frames, Stretch;
    assert forall v: nat :: v < i + 1 && Stretch(i, v) ==> v < i by {
      assert i < i + 1;
    }
    OneMapped(t1, g1, t2, g2, child, i, 0, mem);
    forall v: nat | v < i ensures FreshCopy(t0, d0, t2, d2, r, child, v) {
      assert FreshCopy(t0, d0, t1, d1, r, child, v);
    }
  }

  lemma NullCopiedIff(frames: nat, m: nat, n: nat)
    requires m <= n && Frames(m) <= frames && (m < n ==> frames < Frames(m + 1))
    ensures NullCopied(frames, m, n) <==> n > 0 && frames <= Frames(n - 1)
    ensures m == n <==> frames >= Frames(n)
    ensures n == 0 || frames > Frames(n - 1) ==> m == n || (m + 1 == n && frames > Frames(m))
  {
    hide Frames;
    if m < n {
      FramesGrow(m + 1, n);
      FramesGrow(m, n - 1);
      if m + 1 < n {
        FramesGrow(m + 1, n - 1);
      }
    } else if n > 0 {
      FramesGrow(n - 1, n);
    }
  }

  // ------------------------------------------------ copying without memory

  /** The address that uvm_map gets for a null page: K2P(0). */
  const NULL_ADDRESS: Word := WORD - 0xFFFF_0000_0000_0000

  lemma NullEntry()
    ensures FrameOf(EntryFor(PhysicalAt(NULL_ADDRESS, 0), PTE_USER_DATA)) == 0
  {
    ConsecutiveFrames(NULL_ADDRESS, 0);
  }

  /** The frames of page `i` and page 0 of the parent. */
  lemma NullFrames(t0: Tables, g0: Tags, d0: map<Frame, Page>, t1: Tables, g1: Tags, d1: map<Frame, Page>, r: Frame,
                   child: Frame, m: nat, i: nat, over: bool)
    requires Copied(t0, d0, t1, g1, d1, r, child, m, i, over) && IsRoot(t0, g0, r) && Private(t0, g0, d0) && 0 in d0
    ensures FrameOf(Translate(t0, r, i)) in d1 && FrameOf(Translate(t0, r, 0)) in d1
    ensures FrameOf(Translate(t0, r, i)) in d0 && FrameOf(Translate(t0, r, 0)) in d0
  {
    hide Translate, IsRoot, FrameOf, Private;
    TargetFrame(t0, g0, d0, r, i);
    TargetFrame(t0, g0, d0, r, 0);
  }

  lemma PageZeroMapped(t0: Tables, d0: map<Frame, Page>, t1: Tables, g1: Tags, d1: map<Frame, Page>, r: Frame,
                       child: Frame, m: nat, i: nat, over: bool)
    requires Copied(t0, d0, t1, g1, d1, r, child, m, i, over) && Translate(t0, r, i) != 0
    ensures Translate(t0, r, 0) != 0
  {
    hide Translate, FrameOf, IsRoot;
  }

  /** One more page without memory. */
  lemma NullMore(t0: Tables, g0: Tags, d0: map<Frame, Page>, t1: Tables, g1: Tags, d1: map<Frame, Page>, t2: Tables,
                 g2: Tags, d2: map<Frame, Page>, r: Frame, child: Frame, m: nat, i: nat, k: nat, over: bool)
    requires Copied(t0, d0, t1, g1, d1, r, child, m, i, over) && i < PAGES && IsRoot(t2, g2, child) && IsRoot(t1, g1, child)
    requires RangeMapped(t1, g1, t2, g2, child, i, k, NULL_ADDRESS) && k <= 1 && (k == 1 <==> Stretch(m, i))
    requires IsRoot(t0, g0, r) && Private(t0, g0, d0) && 0 in d0 && Translate(t0, r, i) != 0
    requires FrameOf(Translate(t0, r, i)) in d1 && FrameOf(Translate(t0, r, 0)) in d1
    requires d2 == d1[FrameOf(Translate(t0, r, 0)) := d1[FrameOf(Translate(t0, r, i))]]
    ensures Copied(t0, d0, t2, g2, d2, r, child, m, i + 1, true)
  {
    NullFrames(t0, g0, d0, t1, g1, d1, r, child, m, i, over);
    NullFresh(t0, g0, d0, t1, g1, d1, t2, g2, d2, r, child, m, i, k, over);
    NullTranslations(t0, d0, t1, g1, d1, t2, g2, r, child, m, i, k, over);
    hide Translate, IsRoot, FrameOf, Private, RangeMapped, Stretch, FreshCopy, Kept;
    if i > 0 {
      SameFrame(t0, g0, d0, r, 0, r, i);
    }
    NullKept(t0, d0, d1, d2, r, i, over);
  }

  lemma NullFresh(t0: Tables, g0: Tags, d0: map<Frame, Page>, t1: Tables, g1: Tags, d1: map<Frame, Page>, t2: Tables,
                  g2: Tags, d2: map<Frame, Page>, r: Frame, child: Frame, m: nat, i: nat, k: nat, over: bool)
    requires Copied(t0, d0, t1, g1, d1, r, child, m, i, over) && i < PAGES && IsRoot(t1, g1, child)
    requires RangeMapped(t1, g1, t2, g2, child, i, k, NULL_ADDRESS) && k <= 1
    requires FrameOf(Translate(t0, r, 0)) in d0 && FrameOf(Translate(t0, r, i)) in d1
    requires d2 == d1[FrameOf(Translate(t0, r, 0)) := d1[FrameOf(Translate(t0, r, i))]]
    ensures forall v: nat :: v < m ==> FreshCopy(t0, d0, t2, d2, r, child, v)
  {
    hide Translate, IsRoot, FrameOf, RangeMapped, Stretch, Kept;
    NullPages(t1, g1, t2, g2, child, i, k);
    forall v: nat | v < m ensures FreshCopy(t0, d0, t2, d2, r, child, v) {
      assert FreshCopy(t0, d0, t1, d1, r, child, v);
    }
  }

  lemma NullTranslations(t0: Tables, d0: map<Frame, Page>, t1: Tables, g1: Tags, d1: map<Frame, Page>, t2: Tables, g2: Tags,
                         r: Frame, child: Frame, m: nat, i: nat, k: nat, over: bool)
    requires Copied(t0, d0, t1, g1, d1, r, child, m, i, over) && i < PAGES && IsRoot(t1, g1, child)
    requires RangeMapped(t1, g1, t2, g2, child, i, k, NULL_ADDRESS) && k <= 1 && (k == 1 <==> Stretch(m, i))
    ensures forall v: nat :: v < PAGES ==> (Translate(t2, child, v) != 0 <==> v < m || (v < i + 1 && Stretch(m, v)))
    ensures forall v: nat :: m <= v < i + 1 && Stretch(m, v) ==> FrameOf(Translate(t2, child, v)) == 0
  {
    hide Translate, IsRoot, FrameOf, RangeMapped, Stretch, Kept, FreshCopy;
    NullPages(t1, g1, t2, g2, child, i, k);
  }

  lemma NullKept(t0: Tables, d0: map<Frame, Page>, d1: map<Frame, Page>, d2: map<Frame, Page>, r: Frame, i: nat, over: bool)
    requires forall f :: f in d0 ==> f in d1 && d1[f] == Kept(t0, d0, r, i, over, f)
    requires FrameOf(Translate(t0, r, i)) in d0 && FrameOf(Translate(t0, r, 0)) in d0
    requires i > 0 ==> FrameOf(Translate(t0, r, i)) != FrameOf(Translate(t0, r, 0))
    requires d2 == d1[FrameOf(Translate(t0, r, 0)) := d1[FrameOf(Translate(t0, r, i))]]
    ensures forall f :: f in d0 ==> f in d2 && d2[f] == Kept(t0, d0, r, i + 1, true, f)
  {
    hide Translate, FrameOf;
  }

  /** At most page `i` was mapped, to frame 0. */
  lemma NullPages(t1: Tables, g1: Tags, t2: Tables, g2: Tags, child: Frame, i: nat, k: nat)
    requires RangeMapped(t1, g1, t2, g2, child, i, k, NULL_ADDRESS) && k <= 1 && IsRoot(t1, g1, child) && i < PAGES
    ensures forall v: nat :: v < PAGES ==>
      if k == 1 && v == i
      then Translate(t2, child, v) != 0 && FrameOf(Translate(t2, child, v)) == 0
      else Translate(t2, child, v) == Translate(t1, child, v)
  {
    hide Translate, IsRoot, Distance, FrameOf, EntryFor, PhysicalAt;
    NullEntry();
    UserEntry(PhysicalAt(NULL_ADDRESS, 0));
    forall v: nat | v < PAGES ensures Distance(i, v) < 1 <==> v == i {
      DistanceIs(i, v, 0);
    }
  }

  lemma NullSkeleton(t1: Tables, g1: Tags, t2: Tables, child: Frame, m: nat, i: nat, res: MapResult)
    requires BottomSkeleton(t1, child, m) && IsRoot(t1, g1, child) && m <= i < PAGES
    requires res == Mapped ==> Stretch(m, i) && Grown(t1, g1, t2, child, PagesFrom(i, 1))
    requires res != Mapped ==> GrownBottom(t1, g1, t2, child, PagesFrom(i, 0))
    ensures BottomSkeleton(t2, child, m)
  {
    hide Has, IsRoot;
    OneNumber(i);
    forall v: nat | v < PAGES ensures Has(t2, child, v, 0) <==> Has(t1, child, v, 0) {
      if res == Mapped {
        GrownAt(t1, g1, t2, child, {i}, v, 0);
        CoveredByOne(i, v, 0);
        Shifts(v);
        Shifts(i);
      }
    }
  }

  // ------------------------------------------------------------- pigeons

  ghost function Below(k: nat): (r: set<nat>)
    ensures forall x: nat :: x in r <==> x < k
  {
    if k == 0 then {} else Below(k - 1) + {k - 1}
  }

  lemma {:induction false} BelowSize(k: nat)
    ensures |Below(k)| == k
  {
    if k > 0 {
      BelowSize(k - 1);
    }
  }

  ghost function FirstFrames(tables: Tables, r: Frame, n: nat): set<Frame> {
    set v: nat | v < n :: FrameOf(Translate(tables, r, v))
  }

  lemma {:induction false} FirstFramesSize(tables: Tables, tag: Tags, data: map<Frame, Page>, r: Frame, n: nat)
    requires Private(tables, tag, data) && IsRoot(tables, tag, r) && n <= PAGES
    requires forall v: nat :: v < n ==> Translate(tables, r, v) != 0
    ensures |FirstFrames(tables, r, n)| == n && 0 !in FirstFrames(tables, r, n)
  {
    hide IsRoot, Translate, FrameOf, Private;
    if n == 0 {
      assert FirstFrames(tables, r, 0) == {};
    } else {
      FirstFramesSize(tables, tag, data, r, n - 1);
      OneMoreFirst(tables, r, n - 1);
      NewFirst(tables, tag, data, r, n - 1);
      NotFrameZero(tables, tag, data, r, n - 1);
    }
  }

  lemma OneMoreFirst(tables: Tables, r: Frame, n: nat)
    ensures FirstFrames(tables, r, n + 1) == FirstFrames(tables, r, n) + {FrameOf(Translate(tables, r, n))}
  {
    hide Translate, FrameOf;
  }

  lemma NewFirst(tables: Tables, tag: Tags, data: map<Frame, Page>, r: Frame, n: nat)
    requires Private(tables, tag, data) && IsRoot(tables, tag, r) && n < PAGES
    requires forall v: nat :: v <= n ==> Translate(tables, r, v) != 0
    ensures FrameOf(Translate(tables, r, n)) !in FirstFrames(tables, r, n)
  {
    hide IsRoot, Translate, FrameOf, Private;
    forall v: nat | v < n ensures FrameOf(Translate(tables, r, v)) != FrameOf(Translate(tables, r, n)) {
      SameFrame(tables, tag, data, r, n, r, v);
    }
  }

  lemma NotFrameZero(tables: Tables, tag: Tags, data: map<Frame, Page>, r: Frame, v: nat)
    requires Private(tables, tag, data) && IsRoot(tables, tag, r) && v < PAGES && Translate(tables, r, v) != 0
    ensures FrameOf(Translate(tables, r, v)) != 0
  {
    assert Maps(tables, tag, r, v, FrameOf(Translate(tables, r, v)));
  }

  /** There are fewer mapped pages than frames. */
  lemma MappedBelow(tables: Tables, tag: Tags, data: map<Frame, Page>, r: Frame, n: nat)
    requires Private(tables, tag, data) && IsRoot(tables, tag, r) && n <= FRAME_LIMIT
    requires forall v: nat :: v < n ==> Translate(tables, r, v) != 0
    ensures n < FRAME_LIMIT
  {
    hide IsRoot, Translate, FrameOf, Private;
    FirstFramesSize(tables, tag, data, r, n);
    BelowSize(FRAME_LIMIT);
    assert FirstFrames(tables, r, n) + {0} <= Below(FRAME_LIMIT);
    SubsetSize(FirstFrames(tables, r, n) + {0}, Below(FRAME_LIMIT));
  }
}
