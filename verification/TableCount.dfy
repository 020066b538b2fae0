/**
  How many tables walks add (my_pgdir_walk in src/core/virtual_memory.c), exactly.
 */
module TableCount {
  import opened PageTable

  /** The walks for the pages in `pages` need the table of `v` at level `l`. */
  ghost predicate Covered(pages: set<nat>, v: nat, l: nat) {
    exists w :: w in pages && Together(v, w, l)
  }

  /** The tables of the walk for page `k` of directory `r` from the top down to
      `level` exist now, and no other table was added. */
  ghost predicate Grew(t0: Tables, g0: Tags, t1: Tables, r: Frame, k: nat, level: nat) {
    forall s, v: nat, l: nat :: IsRoot(t0, g0, s) && v < PAGES && l < 3 ==>
      (Has(t1, s, v, l) <==> Has(t0, s, v, l) || (s == r && level <= l && Together(v, k, l)))
  }

  /** The same for whole walks for several pages. */
  ghost predicate Grown(t0: Tables, g0: Tags, t1: Tables, r: Frame, pages: set<nat>) {
    forall s, v: nat, l: nat :: IsRoot(t0, g0, s) && v < PAGES && l < 3 ==>
      (Has(t1, s, v, l) <==> Has(t0, s, v, l) || (s == r && Covered(pages, v, l)))
  }

  /** The same for the bottom tables only. */
  ghost predicate GrownBottom(t0: Tables, g0: Tags, t1: Tables, r: Frame, pages: set<nat>) {
    forall s, v: nat :: IsRoot(t0, g0, s) && v < PAGES ==>
      (Has(t1, s, v, 0) <==> Has(t0, s, v, 0) || (s == r && Covered(pages, v, 0)))
  }

  ghost predicate SameRoots(t0: Tables, g0: Tags, t1: Tables, g1: Tags) {
    forall s :: IsRoot(t0, g0, s) ==> IsRoot(t1, g1, s)
  }

  /** The place of the table that the walk for `w` needs at level `l`. */
  function Place(w: nat, l: nat): (nat, nat) {
    (l, Shift(w, l + 1))
  }

  /** The places of the tables that the walks for the pages in `pages` lack. */
  ghost function Needed(t: Tables, r: Frame, pages: set<nat>): set<(nat, nat)> {
    set w, l: nat | w in pages && l < 3 && !Has(t, r, w, l) :: Place(w, l)
  }

  // ------------------------------------------------------------ growing

  lemma NothingGrown(t: Tables, g: Tags, r: Frame, k: nat)
    ensures Grew(t, g, t, r, k, 3) && Grown(t, g, t, r, {}) && GrownBottom(t, g, t, r, {})
    ensures Needed(t, r, {}) == {}
  {
    hide Has, IsRoot;
  }

  /** One more table of a walk. */
  lemma GrewMore(t0: Tables, g0: Tags, t1: Tables, g1: Tags, t2: Tables, r: Frame, k: nat, level: nat, c: Frame)
    requires Grew(t0, g0, t1, r, k, level) && SameRoots(t0, g0, t1, g1)
    requires WellFormed(t1, g1) && 0 !in t1 && IsRoot(t1, g1, r) && k < PAGES && 0 < level <= 3 && c != 0
    requires OnPath(t1, g1, r, k, Descend(t1, r, k, level), level)
    requires Hung(t1, t2, Descend(t1, r, k, level), Index(level, k), c)
    ensures Grew(t0, g0, t2, r, k, level - 1)
    ensures IsRoot(t0, g0, r) ==> !Has(t0, r, k, level - 1)
  {
    hide WellFormed, Hung, Descend, Together, OnPath, Shift, Index, IsRoot;
    forall s, v: nat, l: nat | IsRoot(t0, g0, s) && v < PAGES && l < 3
      ensures Has(t2, s, v, l) <==> Has(t0, s, v, l) || (s == r && level - 1 <= l && Together(v, k, l))
    {
      AddTableHas(t1, t2, g1, Descend(t1, r, k, level), c, r, k, level, s, v, l);
    }
    AddTableHas(t1, t2, g1, Descend(t1, r, k, level), c, r, k, level, r, k, level - 1);
    NothingThere(t1, t2, r, k, level, c);
  }

  lemma NothingThere(t1: Tables, t2: Tables, r: Frame, k: nat, level: nat, c: Frame)
    requires 0 < level <= 3 && Hung(t1, t2, Descend(t1, r, k, level), Index(level, k), c)
    ensures Descend(t1, r, k, level - 1) == 0
  {
    DescendStep(t1, r, k, level - 1);
  }

  /** The walk goes on in a table that exists. */
  lemma GrewOn(t0: Tables, g0: Tags, t1: Tables, g1: Tags, r: Frame, k: nat, level: nat)
    requires Grew(t0, g0, t1, r, k, level) && SameRoots(t0, g0, t1, g1) && IsRoot(t0, g0, r)
    requires k < PAGES && 0 < level <= 3 && Has(t1, r, k, level - 1)
    ensures Grew(t0, g0, t1, r, k, level - 1) && Has(t0, r, k, level - 1)
  {
    hide IsRoot, Shift;
    forall s, v: nat, l: nat | IsRoot(t0, g0, s) && v < PAGES && l < 3
      ensures Has(t1, s, v, l) <==> Has(t0, s, v, l) || (s == r && level - 1 <= l && Together(v, k, l))
    {
      if s == r && l == level - 1 && Together(v, k, l) {
        DescendTogether(t1, r, v, k, l);
      }
    }
  }

  lemma WalkGrown(t0: Tables, g0: Tags, t1: Tables, r: Frame, k: nat)
    requires Grew(t0, g0, t1, r, k, 0)
    ensures Grown(t0, g0, t1, r, {k})
  {
    hide Has, IsRoot, Together;
    forall v, l ensures Covered({k}, v, l) <==> Together(v, k, l) {
      assert k in {k};
    }
  }

  lemma WalkStopped(t0: Tables, g0: Tags, t1: Tables, r: Frame, k: nat, level: nat)
    requires Grew(t0, g0, t1, r, k, level) && level > 0
    ensures GrownBottom(t0, g0, t1, r, {})
  {
    hide Has, IsRoot, Together;
  }

  lemma GrownTrans(t0: Tables, g0: Tags, t1: Tables, g1: Tags, t2: Tables, r: Frame, p1: set<nat>, p2: set<nat>)
    requires Grown(t0, g0, t1, r, p1) && Grown(t1, g1, t2, r, p2) && SameRoots(t0, g0, t1, g1)
    ensures Grown(t0, g0, t2, r, p1 + p2)
  {
    hide Has, IsRoot, Together;
    CoveredUnion(p1, p2);
  }

  lemma BottomTrans(t0: Tables, g0: Tags, t1: Tables, g1: Tags, t2: Tables, r: Frame, p1: set<nat>, p2: set<nat>)
    requires GrownBottom(t0, g0, t1, r, p1) && GrownBottom(t1, g1, t2, r, p2) && SameRoots(t0, g0, t1, g1)
    ensures GrownBottom(t0, g0, t2, r, p1 + p2)
  {
    hide Has, IsRoot, Together;
    CoveredUnion(p1, p2);
  }

  lemma GrownIsBottom(t0: Tables, g0: Tags, t1: Tables, r: Frame, pages: set<nat>)
    requires Grown(t0, g0, t1, r, pages)
    ensures GrownBottom(t0, g0, t1, r, pages)
  {
    hide Has, IsRoot, Covered;
  }

  lemma CoveredUnion(p1: set<nat>, p2: set<nat>)
    ensures forall v, l :: Covered(p1 + p2, v, l) <==> Covered(p1, v, l) || Covered(p2, v, l)
  {
    hide Together;
    forall v, l ensures Covered(p1 + p2, v, l) <==> Covered(p1, v, l) || Covered(p2, v, l) {
      if Covered(p1, v, l) {
        var w :| w in p1 && Together(v, w, l);
        assert w in p1 + p2;
      }
      if Covered(p2, v, l) {
        var w :| w in p2 && Together(v, w, l);
        assert w in p1 + p2;
      }
    }
  }

  // ----------------------------------------------------------- counting

  /** The places of the tables that the walk for one page lacks. */
  ghost function Lacking(t: Tables, r: Frame, k: nat, level: nat): set<(nat, nat)> {
    set l: nat | level <= l < 3 && !Has(t, r, k, l) :: Place(k, l)
  }

  lemma {:induction false} LackingCount(t: Tables, r: Frame, k: nat, level: nat)
    requires level <= 3
    ensures |Lacking(t, r, k, level)| == Missing(t, r, k, level)
    decreases 3 - level
  {
    hide Has, Shift;
    if level == 3 {
      assert Lacking(t, r, k, level) == {};
    } else {
      LackingCount(t, r, k, level + 1);
      var x := Place(k, level);
      assert x !in Lacking(t, r, k, level + 1);
      if Has(t, r, k, level) {
        assert Lacking(t, r, k, level) == Lacking(t, r, k, level + 1);
      } else {
        assert Lacking(t, r, k, level) == Lacking(t, r, k, level + 1) + {x};
      }
    }
  }

  lemma SamePlace(v: nat, w: nat, l: nat, m: nat)
    ensures Place(v, l) == Place(w, m) <==> l == m && Together(v, w, l)
  {
  }

  lemma HasTogether(t: Tables, r: Frame, v: nat, w: nat, l: nat)
    requires Together(v, w, l)
    ensures Has(t, r, v, l) <==> Has(t, r, w, l)
  {
    DescendTogether(t, r, v, w, l);
  }

  lemma LackedBefore(t: Tables, r: Frame, pages: set<nat>, k: nat, l: nat)
    requires l < 3
    ensures Place(k, l) in Needed(t, r, pages) <==> !Has(t, r, k, l) && Covered(pages, k, l)
  {
    hide Has, Place, Together;
    if Place(k, l) in Needed(t, r, pages) {
      var w, m: nat :| w in pages && m < 3 && !Has(t, r, w, m) && Place(k, l) == Place(w, m);
      SamePlace(k, w, l, m);
      HasTogether(t, r, k, w, l);
    }
    if !Has(t, r, k, l) && Covered(pages, k, l) {
      var w :| w in pages && Together(k, w, l);
      HasTogether(t, r, k, w, l);
      SamePlace(k, w, l, l);
      assert w in pages && !Has(t, r, w, l) && Place(w, l) == Place(k, l);
    }
  }

  /** A walk in tables that have grown for `pages` adds what `k` needs on top. */
  lemma NeededMore(t0: Tables, g0: Tags, t1: Tables, r: Frame, pages: set<nat>, k: nat)
    requires Grown(t0, g0, t1, r, pages) && IsRoot(t0, g0, r) && k < PAGES
    ensures |Needed(t0, r, pages + {k})| == |Needed(t0, r, pages)| + Missing(t1, r, k, 0)
  {
    LackingCount(t1, r, k, 0);
    hide Grown, Has, IsRoot, Place, Together, Covered, Missing;
    var before, more := Needed(t0, r, pages), Lacking(t1, r, k, 0);
    forall l: nat | l < 3 ensures !Has(t1, r, k, l) <==> !Has(t0, r, k, l) && Place(k, l) !in before {
      LackedBefore(t0, r, pages, k, l);
      GrownAt(t0, g0, t1, r, pages, k, l);
    }
    forall x | x in Needed(t0, r, pages + {k}) ensures x in before + more {
      var w, l: nat :| w in pages + {k} && l < 3 && !Has(t0, r, w, l) && x == Place(w, l);
    }
    forall x | x in before + more ensures x in Needed(t0, r, pages + {k}) {
      if x in before {
        var w, l: nat :| w in pages && l < 3 && !Has(t0, r, w, l) && x == Place(w, l);
        assert w in pages + {k};
      } else {
        assert k in pages + {k};
      }
    }
    assert Needed(t0, r, pages + {k}) == before + more;
    assert before * more == {};
  }

  lemma GrownAt(t0: Tables, g0: Tags, t1: Tables, r: Frame, pages: set<nat>, k: nat, l: nat)
    requires Grown(t0, g0, t1, r, pages) && IsRoot(t0, g0, r) && k < PAGES && l < 3
    ensures Has(t1, r, k, l) <==> Has(t0, r, k, l) || Covered(pages, k, l)
  {
    hide Has, IsRoot, Covered;
  }

  // ------------------------------------------------------------ one walk

  lemma {:induction false} MissingDown(t: Tables, r: Frame, k: nat, level: nat)
    requires level <= 3
    ensures Missing(t, r, k, level) <= Missing(t, r, k, 0)
    decreases level
  {
    if level > 0 {
      MissingDown(t, r, k, level - 1);
    }
  }

  /** A walk that stops above the bottom for want of a frame. */
  lemma WalkStops(t0: Tables, g0: Tags, t1: Tables, r: Frame, k: nat, level: nat)
    requires Grew(t0, g0, t1, r, k, level) && IsRoot(t0, g0, r) && k < PAGES && 0 < level <= 3
    requires !Has(t1, r, k, level - 1)
    ensures Missing(t0, r, k, level) < Missing(t0, r, k, 0) && GrownBottom(t0, g0, t1, r, {})
  {
    hide Has, IsRoot;
    WalkStopped(t0, g0, t1, r, k, level);
    MissingDown(t0, r, k, level - 1);
  }

  lemma LeafGrown(t: Tables, g: Tags, b: Frame, i: nat, x: nat, r: Frame)
    requires WellFormed(t, g) && 0 !in t && b in t && g[b].level == 0 && i < ENTRIES
    ensures Grown(t, g, t[b := t[b][i := x]], r, {})
  {
    hide WellFormed, Descend, IsRoot;
    var t' := t[b := t[b][i := x]];
    forall s, v: nat, l: nat | IsRoot(t, g, s) && v < PAGES && l < 3 ensures Has(t', s, v, l) <==> Has(t, s, v, l) {
      SetLeafDescend(t, g, b, i, x, s, v, l);
    }
  }

  lemma {:induction false} SubsetSize<T>(a: set<T>, b: set<T>)
    requires a <= b
    ensures |a| <= |b|
    decreases a
  {
    if a != {} {
      var x :| x in a;
      SubsetSize(a - {x}, b - {x});
    }
  }

  lemma NeededFewer(t: Tables, r: Frame, a: set<nat>, b: set<nat>)
    requires a <= b
    ensures |Needed(t, r, a)| <= |Needed(t, r, b)|
  {
    hide Has, Place;
    SubsetSize(Needed(t, r, a), Needed(t, r, b));
  }

  /** A walk for one page. */
  lemma NeededOne(t: Tables, g: Tags, r: Frame, k: nat)
    requires IsRoot(t, g, r) && k < PAGES
    ensures |Needed(t, r, {k})| == Missing(t, r, k, 0) <= 3
  {
    hide IsRoot;
    NothingGrown(t, g, r, k);
    NeededMore(t, g, t, r, {}, k);
    assert {} + {k} == {k};
  }

  // ----------------------------------------------------- ranges of pages

  function PageNumber(first: nat, i: nat): (k: nat)
    ensures k < PAGES
  {
    (first + i) % PAGES
  }

  /** Pages first, .., first + n - 1, modulo 2^36. */
  ghost function PagesFrom(first: nat, n: nat): set<nat> {
    set i: nat | i < n :: PageNumber(first, i)
  }

  lemma OneMorePage(first: nat, n: nat)
    ensures PagesFrom(first, n + 1) == PagesFrom(first, n) + {PageNumber(first, n)}
    ensures PagesFrom(first, 0) == {}
  {
    hide PageNumber;
  }

  lemma FewerPages(first: nat, m: nat, n: nat)
    requires m <= n
    ensures PagesFrom(first, m) <= PagesFrom(first, n)
  {
    hide PageNumber;
  }

  /** One more walk of a run of walks. */
  lemma RangeGrows(t0: Tables, g0: Tags, t1: Tables, g1: Tags, t2: Tables, r: Frame, first: nat, n: nat)
    requires Grown(t0, g0, t1, r, PagesFrom(first, n)) && SameRoots(t0, g0, t1, g1) && IsRoot(t0, g0, r)
    requires Grown(t1, g1, t2, r, {PageNumber(first, n)})
    ensures Grown(t0, g0, t2, r, PagesFrom(first, n + 1))
    ensures |Needed(t0, r, PagesFrom(first, n + 1))|
         == |Needed(t0, r, PagesFrom(first, n))| + Missing(t1, r, PageNumber(first, n), 0)
  {
    hide Grown, Needed, Missing, IsRoot, PagesFrom;
    OneMorePage(first, n);
    GrownTrans(t0, g0, t1, g1, t2, r, PagesFrom(first, n), {PageNumber(first, n)});
    NeededMore(t0, g0, t1, r, PagesFrom(first, n), PageNumber(first, n));
  }

  /** A walk that fails after `n` walks: the frames do not suffice for `total`. */
  lemma RangeStops(t0: Tables, g0: Tags, t1: Tables, g1: Tags, t2: Tables, r: Frame, first: nat, n: nat, total: nat,
                   frames: nat)
    requires Grown(t0, g0, t1, r, PagesFrom(first, n)) && SameRoots(t0, g0, t1, g1) && IsRoot(t0, g0, r)
    requires GrownBottom(t1, g1, t2, r, {}) && n < total
    requires frames < |Needed(t0, r, PagesFrom(first, n))| + Missing(t1, r, PageNumber(first, n), 0)
    ensures frames < |Needed(t0, r, PagesFrom(first, total))|
    ensures GrownBottom(t0, g0, t2, r, PagesFrom(first, n))
  {
    hide Grown, GrownBottom, Needed, Missing, IsRoot, PagesFrom;
    OneMorePage(first, n);
    NeededMore(t0, g0, t1, r, PagesFrom(first, n), PageNumber(first, n));
    FewerPages(first, n + 1, total);
    NeededFewer(t0, r, PagesFrom(first, n + 1), PagesFrom(first, total));
    GrownIsBottom(t0, g0, t1, r, PagesFrom(first, n));
    BottomTrans(t0, g0, t1, g1, t2, r, PagesFrom(first, n), {});
    assert PagesFrom(first, n) + {} == PagesFrom(first, n);
  }

  // ------------------------------------------------ the tables of the child

  /** The frames that a complete copy of `n` pages takes: the directory, the pages and
      the tables of three levels. */
  function Frames(n: nat): nat {
    1 + n + TablesFor(n)
  }

  /** Page `v` shares its bottom table with the last of the first `m` pages. */
  predicate Stretch(m: nat, v: nat) {
    m > 0 && v / ENTRIES == (m - 1) / ENTRIES
  }

  const SQUARE := 0x4_0000
  const CUBE := 0x800_0000

  /** The tables that `n` pages from page 0 on need, without the directory. */
  function TablesFor(n: nat): nat {
    (n + ENTRIES - 1) / ENTRIES + (n + SQUARE - 1) / SQUARE + (n + CUBE - 1) / CUBE
  }

  /** The directory has exactly the tables for its first `m` pages. */
  ghost predicate Skeleton(tables: Tables, child: Frame, m: nat) {
    forall v: nat, l: nat :: v < PAGES && l < 3 ==>
      (Has(tables, child, v, l) <==> m > 0 && Shift(v, l + 1) <= Shift(m - 1, l + 1))
  }

  ghost predicate BottomSkeleton(tables: Tables, child: Frame, m: nat) {
    forall v: nat :: v < PAGES ==> (Has(tables, child, v, 0) <==> m > 0 && v / ENTRIES <= (m - 1) / ENTRIES)
  }

  lemma NoPages()
    ensures Frames(0) == 1
  {
  }

  /** A page needs a table of a level exactly when it is the first one there. */
  lemma TablesStep(m: nat)
    ensures TablesFor(m + 1) == TablesFor(m) + (if m % ENTRIES == 0 then 1 else 0) + (if m % SQUARE == 0 then 1 else 0)
      + if m % CUBE == 0 then 1 else 0
    ensures m % ENTRIES == 0 <==> !Stretch(m, m)
    ensures m % SQUARE == 0 || m % CUBE == 0 ==> m % ENTRIES == 0
  {
    CeilStep(m);
    CeilStepSquare(m);
    CeilStepCube(m);
    MultipleOf(m);
  }

  lemma CeilStep(m: nat)
    ensures (m + 1 + ENTRIES - 1) / ENTRIES == (m + ENTRIES - 1) / ENTRIES + if m % ENTRIES == 0 then 1 else 0
  {
  }

  lemma CeilStepSquare(m: nat)
    ensures (m + 1 + SQUARE - 1) / SQUARE == (m + SQUARE - 1) / SQUARE + if m % SQUARE == 0 then 1 else 0
  {
  }

  lemma CeilStepCube(m: nat)
    ensures (m + 1 + CUBE - 1) / CUBE == (m + CUBE - 1) / CUBE + if m % CUBE == 0 then 1 else 0
  {
  }

  lemma MultipleOf(m: nat)
    ensures m % SQUARE == 0 || m % CUBE == 0 ==> m % ENTRIES == 0
    ensures m % ENTRIES == 0 <==> !Stretch(m, m)
  {
    if m % SQUARE == 0 {
      assert m == ENTRIES * (ENTRIES * (m / SQUARE));
    }
    if m % CUBE == 0 {
      assert m == ENTRIES * (SQUARE * (m / CUBE));
    }
  }

  lemma {:induction false} FramesGrow(m: nat, n: nat)
    requires m <= n
    ensures Frames(m) + (n - m) <= Frames(n)
    decreases n
  {
    if m < n {
      FramesGrow(m, n - 1);
      TablesStep(n - 1);
    }
  }

  /** The next page needs a new table at level `l` exactly at a multiple of its size. */
  lemma ShiftAhead(m: nat)
    requires m > 0
    ensures Shift(m, 1) > Shift(m - 1, 1) <==> m % ENTRIES == 0
    ensures Shift(m, 2) > Shift(m - 1, 2) <==> m % SQUARE == 0
    ensures Shift(m, 3) > Shift(m - 1, 3) <==> m % CUBE == 0
  {
    Shifts(m);
    Shifts(m - 1);
    NestedDivision(m);
    NestedDivision(m - 1);
  }

  lemma NestedDivision(v: nat)
    ensures v / ENTRIES / ENTRIES == v / SQUARE && v / ENTRIES / ENTRIES / ENTRIES == v / CUBE
  {
    var a := v / ENTRIES;
    var b := a / ENTRIES;
    var c := b / ENTRIES;
    assert v == SQUARE * b + (ENTRIES * (a % ENTRIES) + v % ENTRIES);
    assert v == CUBE * c + (SQUARE * (b % ENTRIES) + ENTRIES * (a % ENTRIES) + v % ENTRIES);
  }

  lemma {:induction false} ShiftNext(m: nat, l: nat)
    requires m > 0
    ensures Shift(m - 1, l) <= Shift(m, l) <= Shift(m - 1, l) + 1
  {
    if l > 0 {
      ShiftNext(m, l - 1);
    }
  }

  /** What the walk for the next page of the child lacks. */
  lemma SkeletonMissing(tables: Tables, child: Frame, m: nat)
    requires Skeleton(tables, child, m) && m < PAGES
    ensures Missing(tables, child, m, 0) == TablesFor(m + 1) - TablesFor(m)
  {
    hide Has, Shift;
    TablesStep(m);
    assert Missing(tables, child, m, 2) == if Has(tables, child, m, 2) then 0 else 1;
    assert Missing(tables, child, m, 1) == Missing(tables, child, m, 2) + if Has(tables, child, m, 1) then 0 else 1;
    if m > 0 {
      ShiftAhead(m);
    }
  }

  lemma OneNumber(i: nat)
    requires i < PAGES
    ensures PagesFrom(i, 1) == {i} && PagesFrom(i, 0) == {}
  {
    OneMorePage(i, 0);
    assert PageNumber(i, 0) == i;
    assert {} + {i} == {i};
  }

  lemma PageCost(t: Tables, g: Tags, child: Frame, i: nat)
    requires Skeleton(t, child, i) && IsRoot(t, g, child) && i < PAGES
    ensures |Needed(t, child, PagesFrom(i, 1))| == Frames(i + 1) - Frames(i) - 1
  {
    hide Skeleton, IsRoot, TablesFor;
    OneNumber(i);
    NeededOne(t, g, child, i);
    SkeletonMissing(t, child, i);
  }

  lemma SkeletonMore(t1: Tables, g1: Tags, t2: Tables, child: Frame, m: nat)
    requires Skeleton(t1, child, m) && IsRoot(t1, g1, child) && m < PAGES && Grown(t1, g1, t2, child, PagesFrom(m, 1))
    ensures Skeleton(t2, child, m + 1) && BottomSkeleton(t2, child, m + 1)
  {
    hide Has, IsRoot, Shift;
    OneNumber(m);
    forall v: nat, l: nat | v < PAGES && l < 3
      ensures Has(t2, child, v, l) <==> Shift(v, l + 1) <= Shift(m, l + 1)
    {
      CoveredByOne(m, v, l);
      GrownAt(t1, g1, t2, child, {m}, v, l);
      if m > 0 {
        ShiftNext(m, l + 1);
      } else {
        ShiftOfZero(l + 1);
      }
    }
    SkeletonBottom(t2, child, m + 1);
  }

  lemma CoveredByOne(m: nat, v: nat, l: nat)
    ensures Covered({m}, v, l) <==> Shift(v, l + 1) == Shift(m, l + 1)
  {
    assert m in {m};
  }

  lemma {:induction false} ShiftOfZero(l: nat)
    ensures Shift(0, l) == 0
  {
    if l > 0 {
      ShiftOfZero(l - 1);
    }
  }

  lemma SkeletonBottom(t: Tables, child: Frame, m: nat)
    requires Skeleton(t, child, m)
    ensures BottomSkeleton(t, child, m)
  {
    hide Has;
    forall v: nat | v < PAGES ensures Has(t, child, v, 0) <==> m > 0 && v / ENTRIES <= (m - 1) / ENTRIES {
      Shifts(v);
      if m > 0 {
        Shifts(m - 1);
      }
    }
  }

  lemma SkeletonStays(t1: Tables, g1: Tags, t2: Tables, child: Frame, m: nat)
    requires Skeleton(t1, child, m) && IsRoot(t1, g1, child) && m < PAGES
    requires GrownBottom(t1, g1, t2, child, PagesFrom(m, 0))
    ensures BottomSkeleton(t2, child, m)
  {
    hide Has, IsRoot;
    SkeletonBottom(t1, child, m);
    OneNumber(m);
  }

  /** An upper table is there when a lower one is. */
  lemma {:induction false} HasUp(t: Tables, r: Frame, v: nat, l: nat)
    requires 0 !in t && l <= 3 && Has(t, r, v, 0)
    ensures l < 3 ==> Has(t, r, v, l)
    decreases l
  {
    if 0 < l < 3 {
      HasUp(t, r, v, l - 1);
    }
  }

  /** Without a free frame, a page can be mapped exactly when its bottom table exists. */
  lemma BottomCost(t: Tables, g: Tags, child: Frame, m: nat, i: nat)
    requires BottomSkeleton(t, child, m) && IsRoot(t, g, child) && 0 !in t && m <= i < PAGES
    ensures |Needed(t, child, PagesFrom(i, 1))| == 0 <==> Stretch(m, i)
    ensures Has(t, child, i, 0) <==> Stretch(m, i)
  {
    hide IsRoot, Descend;
    OneNumber(i);
    NeededOne(t, g, child, i);
    MissingDown(t, child, i, 1);
    assert Missing(t, child, i, 3) == 0;
    assert Missing(t, child, i, 2) == if Has(t, child, i, 2) then 0 else 1;
    if Has(t, child, i, 0) {
      HasUp(t, child, i, 1);
      HasUp(t, child, i, 2);
    }
  }
}
