/**
  Four-level page tables (src/core/virtual_memory.c, src/aarch64/mmu.h) as flat
  maps from page numbers to page-table entries.  All tables of all page
  directories live in one memory of 4 KB frames; `tag` records where in which
  directory a table sits.
 */
module PageTable {
  import opened Bits

  const ENTRIES := 512
  const PAGE_SIZE := 4096
  /** Page numbers that a four-level walk tells apart. */
  const PAGES := 512 * 512 * 512 * 512
  /** PTE_ADDRESS keeps 32 bits, so frame numbers have 20. */
  const FRAME_LIMIT := 0x10_0000
  const PTE_TABLE := 3
  const PTE_USER_DATA := 0x647

  type Frame = nat
  type Table = s: seq<nat> | |s| == ENTRIES witness seq(ENTRIES, _ => 0)
  type Tables = map<Frame, Table>

  /** The place of a table: its directory, its level (3 at the top) and the index
      bits above it. */
  datatype Tag = Tag(root: Frame, level: nat, prefix: nat)
  type Tags = map<Frame, Tag>

  // ------------------------------------------------------------ numbers

  /** `v >> 9 * n` */
  function Shift(v: nat, n: nat): nat {
    if n == 0 then v else Shift(v, n - 1) / ENTRIES
  }

  /** PX(level, va), for the page number of `va`. */
  function Index(level: nat, v: nat): (i: nat)
    ensures i < ENTRIES
  {
    Shift(v, level) % ENTRIES
  }

  function EmptyTable(): Table {
    seq(ENTRIES, _ => 0)
  }

  /** `*pte & PTE_VALID` */
  predicate Present(x: nat) {
    x % 2 == 1
  }

  /** The frame of PTE_ADDRESS(x). */
  function FrameOf(x: nat): (f: Frame)
    ensures f < FRAME_LIMIT
  {
    x / PAGE_SIZE % FRAME_LIMIT
  }

  /** Bits of the offset in a page. */
  lemma OffsetBits(x: nat, k: nat)
    requires k < 12
    ensures Bit(x, k) <==> Bit(x % PAGE_SIZE, k)
  {
    PageBits();
    BitsBelow(x / PAGE_SIZE, x % PAGE_SIZE, 12, k);
    assert x == PAGE_SIZE * (x / PAGE_SIZE) + x % PAGE_SIZE;
  }

  /** `pa | flags`, where the flags are the 12 low bits. */
  function EntryFor(pa: nat, flags: nat): nat
    requires flags < PAGE_SIZE
  {
    pa / PAGE_SIZE * PAGE_SIZE + Or(pa % PAGE_SIZE, flags)
  }

  lemma PageBits()
    ensures Mask(12) == PAGE_SIZE
  {
    assert Mask(4) == 16;
    assert Mask(8) == 16 * Mask(4);
    assert Mask(12) == 16 * Mask(8);
  }

  /** The low bits of the address do not reach the frame, nor hide a set flag. */
  lemma EntryBits(pa: nat, flags: nat)
    requires flags < PAGE_SIZE && flags % 2 == 1
    ensures FrameOf(EntryFor(pa, flags)) == pa / PAGE_SIZE % FRAME_LIMIT && Present(EntryFor(pa, flags))
    ensures flags / 2 % 2 == 1 ==> EntryFor(pa, flags) % PAGE_SIZE != 1
  {
    var q, low := pa / PAGE_SIZE, Or(pa % PAGE_SIZE, flags);
    PageBits();
    OrBound(pa % PAGE_SIZE, flags, 12);
    Quotient(EntryFor(pa, flags), q, low);
    OrOdd(pa % PAGE_SIZE, flags);
    Odd(EntryFor(pa, flags), 2048 * q + low / 2);
    if flags / 2 % 2 == 1 {
      OrOdd(pa % PAGE_SIZE / 2, flags / 2);
    }
  }

  /** An entry has the bits of the address and of the flags. */
  lemma EntryHasBits(pa: nat, flags: nat, k: nat)
    requires flags < PAGE_SIZE && k < 12
    ensures Bit(EntryFor(pa, flags), k) <==> Bit(pa, k) || Bit(flags, k)
    ensures pa % PAGE_SIZE == 0 ==> EntryFor(pa, flags) % PAGE_SIZE == flags
    ensures EntryFor(pa, flags) / PAGE_SIZE == pa / PAGE_SIZE
  {
    hide Bit;
    var low := pa % PAGE_SIZE;
    PageBits();
    OrBound(low, flags, 12);
    Quotient(EntryFor(pa, flags), pa / PAGE_SIZE, Or(low, flags));
    OffsetBits(EntryFor(pa, flags), k);
    OffsetBits(pa, k);
    OrBits(low, flags, k);
  }

  /** Of the low bits, exactly those in `bits` are set. */
  ghost predicate LowBitsAre(x: nat, bits: set<nat>) {
    forall k: nat :: k < 12 ==> (Bit(x, k) <==> k in bits)
  }

  /** The flags bit by bit. */
  lemma Shifted(k: nat)
    requires k < 12
    ensures Bit(PTE_TABLE, k) <==> k in {0, 1}
    ensures Bit(PTE_USER_DATA, k) <==> k in {0, 1, 2, 6, 9, 10}
  {
    hide Bit;
    HalfBit(0x647, k);
    HalfBit(0x323, k - 1);
    HalfBit(0x191, k - 2);
    HalfBit(0xc8, k - 3);
    HalfBit(0x64, k - 4);
    HalfBit(0x32, k - 5);
    HalfBit(0x19, k - 6);
    HalfBit(0xc, k - 7);
    HalfBit(6, k - 8);
    HalfBit(3, k - 9);
    HalfBit(1, k - 10);
    HalfBit(3, k);
    HalfBit(1, k - 1);
    if k > 10 {
      NoBits(k - 11);
    }
    if k > 1 {
      NoBits(k - 2);
    }
  }

  /** PTE_TABLE: valid, table.  PTE_USER_DATA: valid, page, normal memory, user, outer
      shareable, accessed. */
  lemma FlagBits()
    ensures LowBitsAre(PTE_TABLE, {0, 1}) && LowBitsAre(PTE_USER_DATA, {0, 1, 2, 6, 9, 10})
  {
    forall k: nat | k < 12
      ensures Bit(PTE_TABLE, k) <==> k in {0, 1}
      ensures Bit(PTE_USER_DATA, k) <==> k in {0, 1, 2, 6, 9, 10}
    {
      Shifted(k);
    }
  }

  /** The entry of a table that hangs in another one. */
  lemma TableEntryBits(c: Frame)
    ensures LowBitsAre(EntryFor(PAGE_SIZE * c, PTE_TABLE), {0, 1})
  {
    hide Bit, EntryFor;
    FlagBits();
    forall k: nat | k < 12 ensures Bit(EntryFor(PAGE_SIZE * c, PTE_TABLE), k) <==> k in {0, 1} {
      EntryHasBits(PAGE_SIZE * c, PTE_TABLE, k);
      AlignedBits(PAGE_SIZE * c, k);
    }
  }

  lemma AlignedBits(x: nat, k: nat)
    requires x % PAGE_SIZE == 0 && k < 12
    ensures !Bit(x, k)
  {
    hide Bit;
    OffsetBits(x, k);
    NoBits(k);
  }

  lemma OrOdd(x: nat, y: nat)
    requires y % 2 == 1
    ensures Or(x, y) % 2 == 1 && Or(x, y) / 2 == Or(x / 2, y / 2)
  {
  }

  lemma EntryFrame(f: Frame, flags: nat)
    requires flags < PAGE_SIZE && flags % 2 == 1
    ensures FrameOf(EntryFor(PAGE_SIZE * f, flags)) == f % FRAME_LIMIT && Present(EntryFor(PAGE_SIZE * f, flags))
  {
    Quotient(PAGE_SIZE * f, f, 0);
    EntryBits(PAGE_SIZE * f, flags);
  }

  lemma Quotient(x: nat, q: nat, r: nat)
    requires x == PAGE_SIZE * q + r && r < PAGE_SIZE
    ensures x / PAGE_SIZE == q && x % PAGE_SIZE == r
  {
  }

  lemma Odd(x: nat, q: nat)
    requires x == 2 * q + 1
    ensures x % 2 == 1
  {
  }

  lemma PrefixStep(v: nat, level: nat)
    ensures Shift(v, level) == Shift(v, level + 1) * ENTRIES + Index(level, v)
  {
  }

  lemma TopPrefix(v: nat)
    requires v < PAGES
    ensures Shift(v, 4) == 0
  {
    assert Shift(v, 1) == v / ENTRIES < ENTRIES * ENTRIES * ENTRIES;
    assert Shift(v, 2) < ENTRIES * ENTRIES;
    assert Shift(v, 3) < ENTRIES;
    assert Shift(v, 4) == Shift(v, 3) / ENTRIES;
  }

  /** Page numbers are used modulo 2^36. */
  lemma HighBitsIgnored(v: nat, level: nat)
    requires level <= 3
    ensures Index(level, v % PAGES) == Index(level, v)
  {
    var q, k := v / PAGES, v % PAGES;
    assert v == PAGES * q + k;
    var p1 := ENTRIES * q;
    var p2 := ENTRIES * p1;
    LowIndex(v, k, q, p1, p2, ENTRIES * p2, level);
  }

  lemma LowIndex(v: nat, k: nat, q: nat, p1: nat, p2: nat, p3: nat, level: nat)
    requires v == ENTRIES * p3 + k && p3 == ENTRIES * p2 && p2 == ENTRIES * p1 && p1 == ENTRIES * q && level <= 3
    ensures Index(level, k) == Index(level, v)
  {
    ShiftSum(p3, k);
    ShiftSum(p2, k / ENTRIES);
    ShiftSum(p1, k / ENTRIES / ENTRIES);
    ShiftSum(q, k / ENTRIES / ENTRIES / ENTRIES);
    Shifts(v);
    Shifts(k);
  }

  lemma Shifts(v: nat)
    ensures Shift(v, 0) == v && Shift(v, 1) == v / ENTRIES && Shift(v, 2) == v / ENTRIES / ENTRIES
    ensures Shift(v, 3) == v / ENTRIES / ENTRIES / ENTRIES
  {
    assert Shift(v, 1) == v / ENTRIES;
    assert Shift(v, 2) == Shift(v, 1) / ENTRIES;
  }

  lemma ShiftSum(a: nat, k: nat)
    ensures (ENTRIES * a + k) / ENTRIES == a + k / ENTRIES
    ensures (ENTRIES * a + k) % ENTRIES == k % ENTRIES
  {
  }

  // ---------------------------------------------------------- the tables

  /** A present entry of an upper table leads to the table for its range. */
  ghost predicate ChildOk(tables: Tables, tag: Tags, t: Frame, i: nat)
    requires t in tables && t in tag && i < ENTRIES && tag[t].level > 0
  {
    Present(tables[t][i]) ==>
      var c := FrameOf(tables[t][i]);
      c in tables && c in tag && tag[c] == Tag(tag[t].root, tag[t].level - 1, tag[t].prefix * ENTRIES + i)
  }

  ghost predicate WellFormed(tables: Tables, tag: Tags) {
    && tables.Keys == tag.Keys
    && (forall t, i :: t in tables && 0 <= i < ENTRIES && tag[t].level > 0 ==> ChildOk(tables, tag, t, i))
    && (forall t, i :: t in tables && 0 <= i < ENTRIES && tag[t].level == 0 ==> LeafOk(tables[t][i]))
  }

  /** An entry of a bottom table is empty or valid. */
  predicate LeafOk(x: nat) {
    x == 0 || Present(x)
  }

  ghost predicate IsRoot(tables: Tables, tag: Tags, r: Frame) {
    r in tables && r in tag && tag[r] == Tag(r, 3, 0)
  }

  /** Table `t` is where the walk for page `v` is at its level. */
  ghost predicate OnPath(tables: Tables, tag: Tags, r: Frame, v: nat, t: Frame, level: nat) {
    t in tables && t in tag && tag[t] == Tag(r, level, Shift(v, level + 1))
  }

  lemma NextOnPath(tables: Tables, tag: Tags, r: Frame, v: nat, t: Frame, level: nat)
    requires WellFormed(tables, tag) && OnPath(tables, tag, r, v, t, level) && level > 0
    requires Present(tables[t][Index(level, v)])
    ensures OnPath(tables, tag, r, v, FrameOf(tables[t][Index(level, v)]), level - 1)
  {
    assert ChildOk(tables, tag, t, Index(level, v));
    PrefixStep(v, level);
  }

  lemma RootOnPath(tables: Tables, tag: Tags, r: Frame, v: nat)
    requires IsRoot(tables, tag, r) && v < PAGES
    ensures OnPath(tables, tag, r, v, r, 3)
  {
    TopPrefix(v);
  }

  /** The bottom table for page `v`, from table `t` down; 0 when an upper entry is
      missing. */
  function Walk(tables: Tables, t: Frame, level: nat, v: nat): Frame
    decreases level
  {
    if t !in tables then 0
    else if level == 0 then t
    else if Present(tables[t][Index(level, v)]) then Walk(tables, FrameOf(tables[t][Index(level, v)]), level - 1, v)
    else 0
  }

  /** The entry that table `t` gives page `v`; 0 when the page is not mapped. */
  function Lookup(tables: Tables, t: Frame, level: nat, v: nat): nat
    decreases level
  {
    if t !in tables then 0
    else if !Present(tables[t][Index(level, v)]) then 0
    else if level == 0 then tables[t][Index(level, v)]
    else Lookup(tables, FrameOf(tables[t][Index(level, v)]), level - 1, v)
  }

  /** The flat page map of directory `r`. */
  function Translate(tables: Tables, r: Frame, v: nat): nat {
    Lookup(tables, r, 3, v % PAGES)
  }

  /** Entry `i` of table `t`, or 0 when it is not valid. */
  function ValidEntry(tables: Tables, t: Frame, i: nat): nat
    requires i < 512
  {
    if t in tables && tables[t][i] % 2 == 1 then tables[t][i] else 0
  }

  /** Entry `i` of the table that entry `x` points to. */
  function ChildEntry(tables: Tables, x: nat, i: nat): nat
    requires i < 512
  {
    if x == 0 then 0 else ValidEntry(tables, x / 4096 % 0x10_0000, i)
  }

  /** What the hardware makes of the four nine-bit indices of an address. */
  lemma TranslateIs(tables: Tables, r: Frame, i3: nat, i2: nat, i1: nat, i0: nat)
    requires i3 < 512 && i2 < 512 && i1 < 512 && i0 < 512
    ensures Translate(tables, r, ((i3 * 512 + i2) * 512 + i1) * 512 + i0)
         == ChildEntry(tables, ChildEntry(tables, ChildEntry(tables, ValidEntry(tables, r, i3), i2), i1), i0)
  {
    hide Index;
    var v := ((i3 * 512 + i2) * 512 + i1) * 512 + i0;
    Digits(i3, i2, i1, i0);
    assert v < PAGES && v % PAGES == v;
    LookupStep(tables, r, 3, v);
    var x3 := ValidEntry(tables, r, i3);
    var x2 := ChildEntry(tables, x3, i2);
    var x1 := ChildEntry(tables, x2, i1);
    LookupStep(tables, FrameOf(x3), 2, v);
    LookupStep(tables, FrameOf(x2), 1, v);
    LookupStep(tables, FrameOf(x1), 0, v);
  }

  lemma LookupStep(tables: Tables, t: Frame, level: nat, v: nat)
    ensures var x := ValidEntry(tables, t, Index(level, v));
      Lookup(tables, t, level, v) == if x == 0 || level == 0 then x else Lookup(tables, FrameOf(x), level - 1, v)
  {
    hide Index;
  }

  lemma Digits(i3: nat, i2: nat, i1: nat, i0: nat)
    requires i3 < 512 && i2 < 512 && i1 < 512 && i0 < 512
    ensures var v := ((i3 * 512 + i2) * 512 + i1) * 512 + i0;
      Index(3, v) == i3 && Index(2, v) == i2 && Index(1, v) == i1 && Index(0, v) == i0
  {
    var v2 := i3 * 512 + i2;
    var v1 := v2 * 512 + i1;
    var v := v1 * 512 + i0;
    assert Shift(v, 1) == v1 && Shift(v, 2) == v2 && Shift(v, 3) == i3;
  }

  /** Where a walk ends. */
  lemma {:induction false} WalkEnds(tables: Tables, tag: Tags, r: Frame, v: nat, t: Frame, level: nat)
    requires WellFormed(tables, tag) && OnPath(tables, tag, r, v, t, level) && 0 !in tables
    ensures var b := Walk(tables, t, level, v);
      && (b != 0 ==> OnPath(tables, tag, r, v, b, 0))
      && Lookup(tables, t, level, v)
      == if b == 0 || !Present(tables[b][Index(0, v)]) then 0 else tables[b][Index(0, v)]
    decreases level
  {
    if level > 0 && Present(tables[t][Index(level, v)]) {
      NextOnPath(tables, tag, r, v, t, level);
      WalkEnds(tables, tag, r, v, FrameOf(tables[t][Index(level, v)]), level - 1);
    }
  }

  /** my_pgdir_walk is injective: two pages of any two directories have the same
      entry only if they are the same page of the same directory. */
  lemma WalkInjective(tables: Tables, tag: Tags, r: Frame, v: nat, s: Frame, w: nat)
    requires WellFormed(tables, tag) && 0 !in tables && IsRoot(tables, tag, r) && IsRoot(tables, tag, s)
    requires v < PAGES && w < PAGES
    requires Walk(tables, r, 3, v) != 0
    ensures Walk(tables, r, 3, v) == Walk(tables, s, 3, w) && Index(0, v) == Index(0, w) <==> r == s && v == w
  {
    RootOnPath(tables, tag, r, v);
    RootOnPath(tables, tag, s, w);
    WalkEnds(tables, tag, r, v, r, 3);
    WalkEnds(tables, tag, s, w, s, 3);
    PrefixStep(v, 0);
    PrefixStep(w, 0);
  }

  // ------------------------------------------------------ changing an entry

  /** Setting the entry that a walk for page `k` of directory `q` ends at changes
      that page of that directory and nothing else. */
  lemma SetPage(tables: Tables, tag: Tags, q: Frame, k: nat, x: nat, r: Frame, v: nat)
    requires WellFormed(tables, tag) && 0 !in tables && IsRoot(tables, tag, q) && IsRoot(tables, tag, r)
    requires k < PAGES && Walk(tables, q, 3, k) != 0 && (x == 0 || Present(x))
    ensures Walk(tables, q, 3, k) in tables
    ensures var b := Walk(tables, q, 3, k); var tables' := tables[b := tables[b][Index(0, k) := x]];
      && WellFormed(tables', tag) && IsRoot(tables', tag, r)
      && Translate(tables', r, v) == if r == q && v % PAGES == k then x else Translate(tables, r, v)
  {
    var b := Walk(tables, q, 3, k);
    var i, w := Index(0, k), v % PAGES;
    var tables' := tables[b := tables[b][i := x]];
    RootOnPath(tables, tag, q, k);
    WalkEnds(tables, tag, q, k, q, 3);
    SetLeafShape(tables, tag, b, i, x);
    WalkInjective(tables, tag, q, k, r, w);
    RootOnPath(tables, tag, r, w);
    WalkEnds(tables, tag, r, w, r, 3);
    WalkEnds(tables', tag, r, w, r, 3);
    SetLeafWalk(tables, tag, b, i, x, r, w, r, 3);
  }

  lemma SetLeafShape(tables: Tables, tag: Tags, b: Frame, i: nat, x: nat)
    requires WellFormed(tables, tag) && b in tables && tag[b].level == 0 && i < ENTRIES && LeafOk(x)
    ensures WellFormed(tables[b := tables[b][i := x]], tag)
  {
    var tables' := tables[b := tables[b][i := x]];
    forall t, j | t in tables' && 0 <= j < ENTRIES && tag[t].level > 0 ensures ChildOk(tables', tag, t, j) {
      assert ChildOk(tables, tag, t, j);
    }
  }

  lemma {:induction false} SetLeafWalk(tables: Tables, tag: Tags, b: Frame, i: nat, x: nat, r: Frame, v: nat,
                                       t: Frame, level: nat)
    requires WellFormed(tables, tag) && OnPath(tables, tag, r, v, t, level)
    requires b in tables && tag[b].level == 0 && i < ENTRIES
    ensures Walk(tables[b := tables[b][i := x]], t, level, v) == Walk(tables, t, level, v)
    decreases level
  {
    if level > 0 && Present(tables[t][Index(level, v)]) {
      NextOnPath(tables, tag, r, v, t, level);
      SetLeafWalk(tables, tag, b, i, x, r, v, FrameOf(tables[t][Index(level, v)]), level - 1);
    }
  }

  /** Hanging a new empty table below an empty entry changes no translation. */
  lemma AddTable(tables: Tables, tag: Tags, t: Frame, i: nat, c: Frame, r: Frame, v: nat)
    requires WellFormed(tables, tag) && IsRoot(tables, tag, r)
    requires t in tables && 0 < tag[t].level && i < ENTRIES && !Present(tables[t][i])
    requires c !in tables && c < FRAME_LIMIT
    ensures var tables' := tables[c := EmptyTable()][t := tables[t][i := EntryFor(PAGE_SIZE * c, PTE_TABLE)]];
      IsRoot(tables', NewTag(tag, t, i, c), r) && Translate(tables', r, v) == Translate(tables, r, v)
  {
    RootOnPath(tables, tag, r, v % PAGES);
    AddTableLookup(tables, tag, t, i, c, r, v % PAGES, r, 3);
  }

  function NewTag(tag: Tags, t: Frame, i: nat, c: Frame): Tags
    requires t in tag && tag[t].level > 0
  {
    tag[c := Tag(tag[t].root, tag[t].level - 1, tag[t].prefix * ENTRIES + i)]
  }

  lemma AddTableShape(tables: Tables, tag: Tags, t: Frame, i: nat, c: Frame)
    requires WellFormed(tables, tag)
    requires t in tables && 0 < tag[t].level && i < ENTRIES
    requires c !in tables && c < FRAME_LIMIT
    ensures var tables' := tables[c := EmptyTable()][t := tables[t][i := EntryFor(PAGE_SIZE * c, PTE_TABLE)]];
      WellFormed(tables', NewTag(tag, t, i, c))
  {
    var tables' := tables[c := EmptyTable()][t := tables[t][i := EntryFor(PAGE_SIZE * c, PTE_TABLE)]];
    var tag' := NewTag(tag, t, i, c);
    EntryFrame(c, PTE_TABLE);
    forall u, j | u in tables' && 0 <= j < ENTRIES && tag'[u].level > 0 ensures ChildOk(tables', tag', u, j) {
      if u != c && !(u == t && j == i) {
        assert ChildOk(tables, tag, u, j);
      }
    }
  }

  lemma {:induction false} AddTableLookup(tables: Tables, tag: Tags, t: Frame, i: nat, c: Frame, r: Frame, v: nat,
                                          u: Frame, level: nat)
    requires WellFormed(tables, tag) && OnPath(tables, tag, r, v, u, level)
    requires t in tables && 0 < tag[t].level && i < ENTRIES && !Present(tables[t][i])
    requires c !in tables && c < FRAME_LIMIT
    ensures var tables' := tables[c := EmptyTable()][t := tables[t][i := EntryFor(PAGE_SIZE * c, PTE_TABLE)]];
      Lookup(tables', u, level, v) == Lookup(tables, u, level, v)
    decreases level
  {
    hide Index, EntryFor, FrameOf;
    var tables' := tables[c := EmptyTable()][t := tables[t][i := EntryFor(PAGE_SIZE * c, PTE_TABLE)]];
    EntryFrame(c, PTE_TABLE);
    var j := Index(level, v);
    if u == t && j == i {
      assert Lookup(tables', c, level - 1, v) == 0;
    } else if level > 0 && Present(tables[u][j]) {
      NextOnPath(tables, tag, r, v, u, level);
      AddTableLookup(tables, tag, t, i, c, r, v, FrameOf(tables[u][j]), level - 1);
    }
  }

  // ------------------------------------------------- the walk from the top

  /** The table that the walk for page `v` reaches at `level`; 0 if it stops. */
  function Descend(tables: Tables, r: Frame, v: nat, level: nat): Frame
    decreases 3 - level
  {
    if level >= 3 then r
    else
      var p := Descend(tables, r, v, level + 1);
      if p in tables && Present(tables[p][Index(level + 1, v)]) then FrameOf(tables[p][Index(level + 1, v)]) else 0
  }

  lemma {:induction false} DescendOnPath(tables: Tables, tag: Tags, r: Frame, v: nat, level: nat)
    requires WellFormed(tables, tag) && 0 !in tables && IsRoot(tables, tag, r) && v < PAGES && level <= 3
    ensures var t := Descend(tables, r, v, level); t != 0 ==> OnPath(tables, tag, r, v, t, level)
    decreases 3 - level
  {
    if level == 3 {
      RootOnPath(tables, tag, r, v);
    } else {
      DescendOnPath(tables, tag, r, v, level + 1);
      var p := Descend(tables, r, v, level + 1);
      if p in tables && Present(tables[p][Index(level + 1, v)]) {
        NextOnPath(tables, tag, r, v, p, level + 1);
      }
    }
  }

  lemma {:induction false} WalkOfDescend(tables: Tables, tag: Tags, r: Frame, v: nat, level: nat)
    requires WellFormed(tables, tag) && 0 !in tables && IsRoot(tables, tag, r) && v < PAGES && level <= 3
    requires Descend(tables, r, v, level) != 0
    ensures Walk(tables, r, 3, v) == Walk(tables, Descend(tables, r, v, level), level, v)
    decreases 3 - level
  {
    if level < 3 {
      WalkOfDescend(tables, tag, r, v, level + 1);
    }
  }

  /** A new table does not change the walk down to the entry that holds it. */
  lemma {:induction false} AddTableDescend(tables: Tables, tag: Tags, t: Frame, i: nat, c: Frame, r: Frame, v: nat,
                                           level: nat)
    requires WellFormed(tables, tag) && 0 !in tables && IsRoot(tables, tag, r) && v < PAGES
    requires t in tables && tag[t].level <= level <= 3 && i < ENTRIES && c !in tables
    ensures var tables' := tables[c := EmptyTable()][t := tables[t][i := EntryFor(PAGE_SIZE * c, PTE_TABLE)]];
      Descend(tables, r, v, level) != 0 ==> Descend(tables', r, v, level) == Descend(tables, r, v, level)
    decreases 3 - level
  {
    if level < 3 && Descend(tables, r, v, level) != 0 {
      AddTableDescend(tables, tag, t, i, c, r, v, level + 1);
      DescendOnPath(tables, tag, r, v, level + 1);
    }
  }

  // -------------------------------------------------- which tables exist

  /** Directory `r` has the table at `level` on the walk for page `v`. */
  predicate Has(tables: Tables, r: Frame, v: nat, level: nat) {
    Descend(tables, r, v, level) != 0
  }

  /** The walks for `v` and `w` need the same table at `level`. */
  predicate Together(v: nat, w: nat, level: nat) {
    Shift(v, level + 1) == Shift(w, level + 1)
  }

  lemma {:induction false} HigherTogether(v: nat, w: nat, level: nat, up: nat)
    requires Together(v, w, level) && level <= up
    ensures Together(v, w, up)
    decreases up - level
  {
    if level < up {
      HigherTogether(v, w, level, up - 1);
    }
  }

  lemma {:induction false} DescendTogether(tables: Tables, r: Frame, v: nat, w: nat, level: nat)
    requires Together(v, w, level)
    ensures Descend(tables, r, v, level) == Descend(tables, r, w, level)
    decreases 3 - level
  {
    if level < 3 {
      HigherTogether(v, w, level, level + 1);
      DescendTogether(tables, r, v, w, level + 1);
    }
  }

  /** The walks for two pages of two directories meet in a table exactly when they
      are those of one directory and need the same table. */
  lemma DescendMeets(tables: Tables, tag: Tags, r: Frame, v: nat, s: Frame, w: nat, level: nat)
    requires WellFormed(tables, tag) && 0 !in tables && IsRoot(tables, tag, r) && IsRoot(tables, tag, s)
    requires v < PAGES && w < PAGES && level <= 3 && Descend(tables, r, v, level) != 0
    ensures Descend(tables, r, v, level) == Descend(tables, s, w, level) <==> r == s && Together(v, w, level)
  {
    DescendOnPath(tables, tag, r, v, level);
    DescendOnPath(tables, tag, s, w, level);
    if r == s && Together(v, w, level) {
      DescendTogether(tables, r, v, w, level);
    }
  }

  /** `tables'` has a new table `c` at entry `i` of table `t`. */
  ghost predicate Hung(tables: Tables, tables': Tables, t: Frame, i: nat, c: Frame)
    requires i < ENTRIES
  {
    && t in tables && c !in tables && tables'.Keys == tables.Keys + {c} && tables'[c] == EmptyTable()
    && (forall u :: u in tables && u != t ==> tables'[u] == tables[u])
    && (forall j :: 0 <= j < ENTRIES && j != i ==> tables'[t][j] == tables[t][j])
    && !Present(tables[t][i]) && Present(tables'[t][i]) && FrameOf(tables'[t][i]) == c
  }

  lemma NewTableHung(tables: Tables, t: Frame, i: nat, c: Frame)
    requires t in tables && i < ENTRIES && !Present(tables[t][i]) && c !in tables && c < FRAME_LIMIT
    ensures Hung(tables, tables[c := EmptyTable()][t := tables[t][i := EntryFor(PAGE_SIZE * c, PTE_TABLE)]], t, i, c)
  {
    hide EntryFor;
    EntryFrame(c, PTE_TABLE);
  }

  /** One step down from table `p`, or 0. */
  function Child(tables: Tables, p: Frame, i: nat): Frame
    requires i < ENTRIES
  {
    if p in tables && Present(tables[p][i]) then FrameOf(tables[p][i]) else 0
  }

  lemma ChildHung(tables: Tables, tables': Tables, t: Frame, i: nat, c: Frame, p: Frame, j: nat)
    requires i < ENTRIES && j < ENTRIES && Hung(tables, tables', t, i, c) && p != c
    ensures Child(tables', p, j) == if p == t && j == i then c else Child(tables, p, j)
    ensures Child(tables', c, j) == 0 && Child(tables, t, i) == 0
  {
    hide FrameOf;
  }

  /** A table hung below table `t` of the walk for page `k` adds that table for the
      pages that need it, and nothing else. */
  lemma {:induction false} AddTableHas(tables: Tables, tables': Tables, tag: Tags, t: Frame, c: Frame, r: Frame, k: nat,
                                       level: nat, s: Frame, v: nat, l: nat)
    requires WellFormed(tables, tag) && 0 !in tables && IsRoot(tables, tag, r) && IsRoot(tables, tag, s)
    requires k < PAGES && v < PAGES && 0 < level <= 3 && l <= 3
    requires t == Descend(tables, r, k, level) && OnPath(tables, tag, r, k, t, level)
    requires Hung(tables, tables', t, Index(level, k), c) && 0 != c
    ensures Descend(tables', s, v, l)
         == if s == r && l + 1 == level && Together(v, k, l) then c else Descend(tables, s, v, l)
    decreases 3 - l
  {
    hide WellFormed, Hung, Present, FrameOf, Index, Child, Descend, IsRoot, Shift;
    if l == 3 {
      DescendTop(tables, s, v);
      DescendTop(tables', s, v);
    } else {
      AddTableHas(tables, tables', tag, t, c, r, k, level, s, v, l + 1);
      var p, j := Descend(tables, s, v, l + 1), Index(l + 1, v);
      DescendStep(tables, s, v, l);
      DescendStep(tables', s, v, l);
      NotNew(tables, tables', tag, s, v, l + 1, t, Index(level, k), c);
      ChildHung(tables, tables', t, Index(level, k), c, p, j);
      if l + 1 == level {
        DescendMeets(tables, tag, r, k, s, v, level);
        PrefixStep(v, level);
        PrefixStep(k, level);
      } else {
        DescendOnPath(tables, tag, s, v, l + 1);
        if l + 2 == level && s == r && Together(v, k, l + 1) {
          DescendTogether(tables, r, v, k, l + 1);
          DescendStep(tables, r, k, l + 1);
          NoChildOfZero(tables, j);
        }
      }
    }
  }

  lemma DescendTop(tables: Tables, s: Frame, v: nat)
    ensures Descend(tables, s, v, 3) == s
  {
  }

  lemma DescendStep(tables: Tables, s: Frame, v: nat, l: nat)
    requires l < 3
    ensures Descend(tables, s, v, l) == Child(tables, Descend(tables, s, v, l + 1), Index(l + 1, v))
  {
  }

  lemma NoChildOfZero(tables: Tables, j: nat)
    requires 0 !in tables && j < ENTRIES
    ensures Child(tables, 0, j) == 0
  {
  }

  lemma NotNew(tables: Tables, tables': Tables, tag: Tags, s: Frame, v: nat, l: nat, t: Frame, i: nat, c: Frame)
    requires WellFormed(tables, tag) && 0 !in tables && IsRoot(tables, tag, s) && v < PAGES && l <= 3
    requires i < ENTRIES && Hung(tables, tables', t, i, c) && c != 0
    ensures Descend(tables, s, v, l) != c && t != 0
  {
    DescendOnPath(tables, tag, s, v, l);
  }

  /** Writing a bottom table changes no walk. */
  lemma {:induction false} SetLeafDescend(tables: Tables, tag: Tags, b: Frame, i: nat, x: nat, r: Frame, v: nat, level: nat)
    requires WellFormed(tables, tag) && 0 !in tables && IsRoot(tables, tag, r) && v < PAGES && level <= 3
    requires b in tables && tag[b].level == 0 && i < ENTRIES
    ensures Descend(tables[b := tables[b][i := x]], r, v, level) == Descend(tables, r, v, level)
    decreases 3 - level
  {
    if level < 3 {
      SetLeafDescend(tables, tag, b, i, x, r, v, level + 1);
      DescendOnPath(tables, tag, r, v, level + 1);
    }
  }

  /** A new directory has no table below it, and changes no other walk. */
  lemma {:induction false} NewRootDescend(tables: Tables, tag: Tags, c: Frame, r: Frame, v: nat, level: nat)
    requires WellFormed(tables, tag) && 0 !in tables && c !in tables && c != 0 && v < PAGES && level <= 3
    ensures level < 3 ==> Descend(tables[c := EmptyTable()], c, v, level) == 0
    ensures IsRoot(tables, tag, r) ==> Descend(tables[c := EmptyTable()], r, v, level) == Descend(tables, r, v, level)
    decreases 3 - level
  {
    if level < 3 {
      NewRootDescend(tables, tag, c, r, v, level + 1);
      if IsRoot(tables, tag, r) {
        DescendOnPath(tables, tag, r, v, level + 1);
      }
    }
  }

  /** How many tables the walk for page `v` lacks, from the top down to `level`. */
  function Missing(tables: Tables, r: Frame, v: nat, level: nat): (n: nat)
    ensures level <= 3 ==> n <= 3 - level
    decreases 3 - level
  {
    if level >= 3 then 0
    else Missing(tables, r, v, level + 1) + if Has(tables, r, v, level) then 0 else 1
  }

  // -------------------------------------------------------- new directories

  /** A new, empty directory changes no other one. */
  lemma NewRoot(tables: Tables, tag: Tags, c: Frame, r: Frame, v: nat)
    requires WellFormed(tables, tag) && c !in tables
    ensures var tables' := tables[c := EmptyTable()]; var tag' := tag[c := Tag(c, 3, 0)];
      && WellFormed(tables', tag') && IsRoot(tables', tag', c) && Translate(tables', c, v) == 0
      && (IsRoot(tables, tag, r) ==> IsRoot(tables', tag', r) && Translate(tables', r, v) == Translate(tables, r, v))
  {
    var tables' := tables[c := EmptyTable()];
    var tag' := tag[c := Tag(c, 3, 0)];
    forall t, i | t in tables' && 0 <= i < ENTRIES && tag'[t].level > 0 ensures ChildOk(tables', tag', t, i) {
      if t != c {
        assert ChildOk(tables, tag, t, i);
      }
    }
    if IsRoot(tables, tag, r) {
      RootOnPath(tables, tag, r, v % PAGES);
      NewRootLookup(tables, tag, c, r, v % PAGES, r, 3);
    }
  }

  lemma {:induction false} NewRootLookup(tables: Tables, tag: Tags, c: Frame, r: Frame, v: nat, t: Frame, level: nat)
    requires WellFormed(tables, tag) && c !in tables && OnPath(tables, tag, r, v, t, level)
    ensures Lookup(tables[c := EmptyTable()], t, level, v) == Lookup(tables, t, level, v)
    decreases level
  {
    if level > 0 && Present(tables[t][Index(level, v)]) {
      NextOnPath(tables, tag, r, v, t, level);
      NewRootLookup(tables, tag, c, r, v, FrameOf(tables[t][Index(level, v)]), level - 1);
    }
  }
}
