/**
  Memories on which copyout, uvm_copy and uvmunmap do not do what they are for.
 */
module MemoryExamples {
  import opened PageTable
  import opened TableCount
  import opened VirtualMemory

  /** An empty directory needs three tables for its first page. */
  lemma EmptyDirectory(tables: Tables, tag: Tags, data: map<Frame, Page>, r: Frame)
    requires IsRoot(tables, tag, r) && 0 in data && forall v: nat :: Translate(tables, r, v) == 0
    requires forall v: nat, l: nat :: v < PAGES && l < 3 ==> !Has(tables, r, v, l)
    ensures Backed(tables, r, data) && PageSpan(0, 1) == 1 && |Needed(tables, r, PagesFrom(0, 1))| == 3
    ensures FrameAt(tables, r, 0) == 0
  {
    hide Has, IsRoot, Translate;
    EmptyFrame();
    OneMorePage(0, 0);
    assert {} + {PageNumber(0, 0)} == {PageNumber(0, 0)};
    NeededOne(tables, tag, r, PageNumber(0, 0));
    assert Missing(tables, r, PageNumber(0, 0), 1) == 2;
  }

  /** copyout to an address that is not mapped returns 0, and its byte is in frame 0. */
  method UnmappedCopyOut() returns (ok: bool, before: Byte, after: Byte)
    ensures ok && before == 0 && after == 7
  {
    hide WellFormed, Translate, Disjoint, IsRoot, SameMaps, Private, Flat, ReadsBack, Has, Backed, Needed, PagesFrom,
         FrameAt, PageSpan;
    var m := new Memory([1, 2, 3, 4, 5]);
    var r := m.PgdirInit();
    EmptyDirectory(m.tables, m.tag, m.data, r);
    ghost var t1 := m.tables;
    before := m.data[0][0];
    ghost var n;
    ok, n := m.CopyOut(r, 0, [7]);
    assert Landed(t1, r, 0, [7], 1, 0, 0, 0) == 7;
    after := m.data[0][0];
  }

  /** copyout with two free frames where three tables are lacking. */
  method CopyOutWithoutMemory() returns (ok: bool)
    ensures !ok
  {
    hide WellFormed, Translate, Disjoint, IsRoot, SameMaps, Private, Flat, ReadsBack, Has, Backed, Needed, PagesFrom,
         FrameAt, PageSpan;
    var m := new Memory([1, 2, 3]);
    var r := m.PgdirInit();
    EmptyDirectory(m.tables, m.tag, m.data, r);
    ghost var n;
    ok, n := m.CopyOut(r, 0, [7]);
  }

  /** The last page of the 64-bit address space stays mapped after uvm_map and
      uvmunmap, because the end of the range wraps around to 0. */
  method TopPageStays() returns (m: Memory, res: MapResult, un: UnmapResult, ghost t: Tables, ghost g: Tags)
    ensures res == Mapped && un == Unmapped && fresh(m)
    ensures !SameMaps(t, g, m.tables, m.tag)
  {
    hide WellFormed, Translate, Disjoint, IsRoot, Private, Distance, SameMaps;
    m := new Memory([1, 2, 3, 4, 5]);
    var r := m.PgdirInit();
    t, g := m.tables, m.tag;
    ghost var n;
    TopPage();
    OneMorePage(WORD_PAGES - 1, 0);
    NeededOne(t, g, r, PageNumber(WORD_PAGES - 1, 0));
    assert {} + {PageNumber(WORD_PAGES - 1, 0)} == {PageNumber(WORD_PAGES - 1, 0)};
    res, un, n := m.MapThenUnmap(r, WORD - PAGE_SIZE, PAGE_SIZE, 0);
  }

  lemma SmallCounts()
    ensures Frames(0) == 1 && Frames(1) == 5 && Frames(2) == 6
  {
  }

  /** A parent with one page and three free frames: the child is returned without the
      page. */
  method ChildWithoutPage() returns (m: Memory, res: CopyResult, ghost parent: Frame)
    ensures fresh(m) && res.Child? && IsRoot(m.tables, m.tag, res.dir)
    ensures Translate(m.tables, parent, 0) != 0 && Translate(m.tables, res.dir, 0) == 0
  {
    hide WellFormed, Translate, Disjoint, IsRoot, Private, SameMaps, Grown, Needed, Has, Frames;
    m := new Memory([1, 2, 3, 4, 5, 6, 7, 8]);
    var r := m.PgdirInit();
    parent := r;
    EmptyDirectory(m.tables, m.tag, m.data, r);
    OneNumber(0);
    var _ := m.AllocPage(r, 0);
    ghost var t, g, n, k := m.tables, m.tag, 0, 0;
    SmallCounts();
    res, n, k := m.UvmCopy(r);
    SameAt(t, g, m.tables, m.tag, r, 0);
    assert n == 1 by {
      assert Translate(t, r, 1) == 0;
    }
  }

  /** The walks for pages 0 and 1 need the same tables. */
  lemma FirstTwoPages(t0: Tables, g0: Tags, t1: Tables, g1: Tags, r: Frame)
    requires Grown(t0, g0, t1, r, {0}) && IsRoot(t0, g0, r) && IsRoot(t1, g1, r)
    ensures |Needed(t1, r, {1})| == 0
  {
    hide Has, IsRoot;
    forall l: nat | l < 3 ensures Has(t1, r, 1, l) {
      ShiftOfZero(l + 1);
      ShiftOfOne(l);
      CoveredByOne(0, 1, l);
      GrownAt(t0, g0, t1, r, {0}, 1, l);
    }
    NeededOne(t1, g1, r, 1);
    assert Missing(t1, r, 1, 1) == 0;
  }

  lemma {:induction false} ShiftOfOne(l: nat)
    ensures Shift(1, l + 1) == 0
  {
    if l > 0 {
      ShiftOfOne(l - 1);
    }
  }

  lemma PrivateBacked(tables: Tables, tag: Tags, data: map<Frame, Page>, r: Frame)
    requires Private(tables, tag, data) && IsRoot(tables, tag, r) && 0 in data
    ensures Backed(tables, r, data)
  {
    hide Private, IsRoot, Translate, FrameOf;
    forall v: nat ensures FrameOf(Translate(tables, r, v)) in data {
      TargetFrame(tables, tag, data, r, v);
    }
  }

  lemma SpanOfOne()
    ensures PageSpan(PAGE_SIZE, 1) == 1
  {
  }

  /** A directory with two zeroed pages, all tables for them, and one free frame. */
  method TwoPages() returns (m: Memory, r: Frame)
    ensures fresh(m) && m.Valid() && IsRoot(m.tables, m.tag, r) && Private(m.tables, m.tag, m.data) && |m.free| == 1
    ensures Translate(m.tables, r, 0) != 0 && Translate(m.tables, r, 1) != 0 && Translate(m.tables, r, 2) == 0
    ensures UserByte(m.tables, m.data, r, 0) == 0 && |Needed(m.tables, r, {1})| == 0
  {
    hide WellFormed, Translate, Disjoint, IsRoot, Private, SameMaps, Grown, Needed, Has, FrameOf;
    m := new Memory([1, 2, 3, 4, 5, 6, 7]);
    r := m.PgdirInit();
    EmptyDirectory(m.tables, m.tag, m.data, r);
    OneNumber(0);
    ghost var t0, g0 := m.tables, m.tag;
    var _ := m.AllocPage(r, 0);
    FirstTwoPages(t0, g0, m.tables, m.tag, r);
    ghost var t1, g1, d1 := m.tables, m.tag, m.data;
    NoFrameOfZero(m.free, m.tables, m.data);
    TargetFrame(t1, g1, d1, r, 0);
    var _ := m.AllocPage(r, 1);
    assert Translate(m.tables, r, 0) == Translate(t1, r, 0);
    OneMoreWalk(t1, g1, m.tables, m.tag, r);
  }

  lemma OneMoreWalk(t0: Tables, g0: Tags, t1: Tables, g1: Tags, r: Frame)
    requires Grown(t0, g0, t1, r, {1}) && IsRoot(t0, g0, r) && IsRoot(t1, g1, r)
    ensures |Needed(t1, r, {1})| == 0
  {
    hide Has, IsRoot;
    forall l: nat | l < 3 ensures Has(t1, r, 1, l) {
      CoveredByOne(1, 1, l);
      GrownAt(t0, g0, t1, r, {1}, 1, l);
    }
    NeededOne(t1, g1, r, 1);
    assert Missing(t1, r, 1, 1) == 0;
  }

  /** One byte was copied to the start of page 1. */
  lemma TwoBytes(t1: Tables, g1: Tags, d1: map<Frame, Page>, t2: Tables, d2: map<Frame, Page>, r: Frame)
    requires Flat(t1, g1, d1, t2, d2, r, PAGE_SIZE, [7], 1) && IsRoot(t1, g1, r)
    requires Translate(t1, r, 0) != 0 && Translate(t1, r, 1) != 0 && UserByte(t1, d1, r, 0) == 0
    ensures UserByte(t2, d2, r, 0) == 0 && UserByte(t2, d2, r, PAGE_SIZE) == 7
  {
    hide Translate, FrameOf, IsRoot, UserByte;
    assert UserMapped(t1, r, 0) && UserMapped(t1, r, PAGE_SIZE);
  }

  lemma OverwrittenByte(t0: Tables, d0: map<Frame, Page>, t1: Tables, g1: Tags, d1: map<Frame, Page>, r: Frame,
                        child: Frame, m: nat)
    requires Copied(t0, d0, t1, g1, d1, r, child, m, 2, true) && Translate(t1, r, 0) == Translate(t0, r, 0)
    requires FrameOf(Translate(t0, r, 0)) in d0 && FrameOf(Translate(t0, r, 1)) in d0
    ensures UserByte(t1, d1, r, 0) == UserByte(t0, d0, r, PAGE_SIZE)
  {
    hide Translate, FrameOf, IsRoot;
    assert PAGE_SIZE / PAGE_SIZE == 1 && 0 / PAGE_SIZE == 0;
  }

  /** A parent with two pages and one free frame: its page 0 has the bytes of page 1
      afterwards. */
  method ParentOverwritten() returns (m: Memory, parent: Frame, before: Byte, res: CopyResult)
    ensures fresh(m) && res.Child? && before == 0 && UserByte(m.tables, m.data, parent, 0) == 7
  {
    hide WellFormed, Translate, Disjoint, IsRoot, Private, SameMaps, Grown, Needed, Has, Frames, Flat, ReadsBack,
         BytesLand, PagesFrom, FrameOf;
    var r := 0;
    m, r := TwoPages();
    parent := r;
    ghost var t1, g1, d1 := m.tables, m.tag, m.data;
    NoFrameOfZero(m.free, m.tables, m.data);
    PrivateBacked(t1, g1, d1, r);
    SpanOfOne();
    OneNumber(1);
    ghost var k, n;
    var ok;
    ok, k := m.CopyOut(r, PAGE_SIZE, [7]);
    ghost var t2, g2, d2 := m.tables, m.tag, m.data;
    RootOf(t1, g1, t2, g2, r);
    SameAt(t1, g1, t2, g2, r, 0);
    SameAt(t1, g1, t2, g2, r, 1);
    SameAt(t1, g1, t2, g2, r, 2);
    TwoBytes(t1, g1, d1, t2, d2, r);
    NoFrameOfZero(m.free, m.tables, m.data);
    TargetFrame(t2, g2, d2, r, 0);
    TargetFrame(t2, g2, d2, r, 1);
    before := UserByte(m.tables, m.data, r, 0);
    SmallCounts();
    res, n, k := m.UvmCopy(r);
    assert n == 2 by {
      assert Translate(t2, r, 2) == 0;
    }
    SameAt(t2, g2, m.tables, m.tag, r, 0);
    OverwrittenByte(t2, d2, m.tables, m.tag, m.data, r, res.dir, k);
  }
}
