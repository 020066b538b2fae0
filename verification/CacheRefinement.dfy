/**
  The cached-block list of src/fs/cache.c refines the cache of the log machine:
  evictions are Evict steps, and a round of write_log or install_trans is a run
  of Evict steps followed by one step that writes a sector.
 */
module CacheRefinement {
  import opened LogMachine
  import opened LogHistory
  import opened LogInvariant
  import opened LogRuns
  import opened LogTheorems
  import opened CacheList

  function EntryOf(e: CachedBlock): Entry {
    Entry(e.data, e.pinned, e.holder, e.dirty)
  }

  /** The list and the cache of the log machine hold the same blocks. */
  ghost predicate Represents(list: List, m: map<nat, Entry>) {
    && Distinct(list)
    && (forall i :: 0 <= i < |list| ==> list[i].no in m && m[list[i].no] == EntryOf(list[i]))
    && (forall b :: b in m ==> Cached(list, b))
  }

  /** A block that could be evicted is not held, except perhaps those in `blocks`. */
  ghost predicate FlaggedExcept(list: List, blocks: set<nat>) {
    forall i :: 0 <= i < |list| && Evictable(list[i]) && list[i].no !in blocks ==> list[i].holder.None?
  }

  /** Whoever holds a block that could be evicted has it flagged. */
  ghost predicate HoldersFlagged(list: List) {
    FlaggedExcept(list, {})
  }

  /** Every block that somebody holds is still in the list. */
  ghost predicate HeldStay(list: List, list': List) {
    forall i :: 0 <= i < |list| && list[i].holder.Some? ==> Cached(list', list[i].no)
  }

  /** Whoever holds a block in `c'` holds it in `c`. */
  ghost predicate SameHolders(c: map<nat, Entry>, c': map<nat, Entry>) {
    forall b :: b in c' && c'[b].holder.Some? ==> b in c && c[b].holder == c'[b].holder
  }

  predicate Unheld(m: map<nat, Entry>, b: nat) {
    b in m ==> m[b].holder.None?
  }

  lemma Update(list: List, m: map<nat, Entry>, i: nat, e: CachedBlock)
    requires Represents(list, m) && i < |list| && e.no == list[i].no
    ensures Represents(list[i := e], m[e.no := EntryOf(e)])
  {
    var l := list[i := e];
    forall b | b in m[e.no := EntryOf(e)] ensures Cached(l, b) {
      assert l[i].no == e.no;
      if b != e.no {
        var j :| 0 <= j < |list| && list[j].no == b;
        assert l[j].no == b;
      }
    }
  }

  lemma Front(list: List, m: map<nat, Entry>, i: nat)
    requires Represents(list, m) && i < |list|
    ensures Represents(MoveToFront(list, i), m)
  {
    var l := MoveToFront(list, i);
    forall k | 0 <= k < |l| ensures l[k].no in m && m[l[k].no] == EntryOf(l[k]) {
      FrontAt(list, i, k);
    }
    forall k, j | 0 <= k < j < |l| ensures l[k].no != l[j].no {
      FrontAt(list, i, k);
      FrontAt(list, i, j);
    }
    forall b | b in m ensures Cached(l, b) {
      var j :| 0 <= j < |list| && list[j].no == b;
      FrontAt(list, i, if j < i then 1 + j else if j == i then 0 else j);
    }
  }

  lemma Push(list: List, m: map<nat, Entry>, e: CachedBlock)
    requires Represents(list, m) && !Cached(list, e.no)
    ensures Represents([e] + list, m[e.no := EntryOf(e)])
  {
    var l := [e] + list;
    forall j | 0 < j < |l| ensures l[j] == list[j - 1] && l[j].no in m && l[j].no != e.no {
      assert list[j - 1].no in m;
    }
    assert l[0] == e;
    forall b | b in m[e.no := EntryOf(e)] ensures Cached(l, b) {
      assert l[0].no == e.no;
      if b != e.no {
        var j :| 0 <= j < |list| && list[j].no == b;
        assert l[1 + j].no == b;
      }
    }
  }

  lemma DropAt(a: List, e: CachedBlock, b: List, k: nat)
    requires k < |a + b|
    ensures (a + b)[k] == (a + [e] + b)[if k < |a| then k else k + 1]
  {
  }

  lemma Drop(a: List, e: CachedBlock, b: List, m: map<nat, Entry>)
    requires Represents(a + [e] + b, m)
    ensures Represents(a + b, m - {e.no})
    ensures e.no in m && m[e.no] == EntryOf(e)
  {
    var l, r := a + [e] + b, a + b;
    assert l[|a|] == e;
    forall k | 0 <= k < |r| ensures r[k].no in m - {e.no} && m[r[k].no] == EntryOf(r[k]) {
      DropAt(a, e, b, k);
    }
    forall k, j | 0 <= k < j < |r| ensures r[k].no != r[j].no {
      DropAt(a, e, b, k);
      DropAt(a, e, b, j);
    }
    forall x | x in m - {e.no} ensures Cached(r, x) {
      var j :| 0 <= j < |l| && l[j].no == x;
      DropAt(a, e, b, if j < |a| then j else j - 1);
    }
  }

  lemma FirstStep(g: Geometry, s: State, step: Step, more: seq<Step>)
    requires 1 <= g.numLog && Enabled(g, s, step) && Legal(g, Next(g, s, step), more)
    ensures Legal(g, s, [step] + more) && Exec(g, s, [step] + more) == Exec(g, Next(g, s, step), more)
  {
    assert ([step] + more)[1..] == more;
  }

  lemma SplitLast(list: List, rest: List)
    requires list != []
    ensures var n := |list| - 1; var e := list[n];
      && list + rest == list[..n] + [e] + rest
      && list + rest == list[..n] + ([e] + rest)
  {
    assert list == list[..|list| - 1] + [list[|list| - 1]];
  }

  lemma Assoc(a: List, e: CachedBlock, rest: List)
    ensures a + [e] + rest == a + ([e] + rest)
  {
  }

  lemma HeldStayFront(list: List, rest: List, m: map<nat, Entry>, k: int)
    requires list != [] && k > 0 && Represents(list + rest, m) && HeldStay(list, EvictTail(list, k))
    ensures var n := |list| - 1; var e := list[n];
      && (Evictable(e) ==> e.holder.None? && HeldStay(list[..n], EvictTail(list[..n], k - 1)))
      && (!Evictable(e) ==> HeldStay(list[..n], EvictTail(list[..n], k)))
  {
    var n := |list| - 1;
    var e := list[n];
    var k' := if Evictable(e) then k - 1 else k;
    assert forall i :: 0 <= i < |list| ==> (list + rest)[i] == list[i];
    EvictTailKeeps(list[..n], k');
    if Evictable(e) {
      assert !Cached(EvictTail(list[..n], k - 1), e.no);
    } else {
      forall i | 0 <= i < n && list[i].holder.Some? ensures Cached(EvictTail(list[..n], k), list[i].no) {
        CachedAppend(EvictTail(list[..n], k), e, list[i].no);
      }
    }
  }

  /** A block that is not evictable stays. */
  lemma FlaggedStay(list: List, m: map<nat, Entry>, k: int)
    requires Represents(list, m) && HoldersFlagged(list)
    ensures HeldStay(list, EvictTail(list, k))
  {
    hide EvictTail, NumEvictable;
    forall i | 0 <= i < |list| && list[i].holder.Some? ensures Cached(EvictTail(list, k), list[i].no) {
      VictimsAreOldest(list, k, i);
    }
  }

  /** Evicting from the list is a run of Evict steps. */
  lemma {:induction false} EvictsRefine(g: Geometry, s: State, list: List, rest: List, k: int)
    returns (steps: seq<Step>, m: map<nat, Entry>)
    requires 1 <= g.numLog && Represents(list + rest, s.cache) && HeldStay(list, EvictTail(list, k))
    ensures Represents(EvictTail(list, k) + rest, m)
    ensures Legal(g, s, steps) && Exec(g, s, steps) == s.(cache := m)
    ensures forall i :: 0 <= i < |steps| ==> steps[i].Evict?
    decreases |list|
  {
    if list == [] || k <= 0 {
      steps, m := [], s.cache;
    } else {
      hide Represents, Legal, Exec;
      var n := |list| - 1;
      var e := list[n];
      SplitLast(list, rest);
      HeldStayFront(list, rest, s.cache, k);
      if Evictable(e) {
        Drop(list[..n], e, rest, s.cache);
        var t := Next(g, s, Evict(e.no));
        var more;
        more, m := EvictsRefine(g, t, list[..n], rest, k - 1);
        steps := [Evict(e.no)] + more;
        FirstStep(g, s, Evict(e.no), more);
      } else {
        steps, m := EvictsRefine(g, s, list[..n], [e] + rest, k);
        Assoc(EvictTail(list[..n], k), e, rest);
      }
    }
  }

  lemma {:induction false} EvictTailFront(e: CachedBlock, list: List, k: int)
    requires !Evictable(e)
    ensures EvictTail([e] + list, k) == [e] + EvictTail(list, k)
  {
    if list == [] {
      assert [e] + list == [] + [e];
      assert ([e] + list)[..0] == [];
    } else if k > 0 {
      var n := |list| - 1;
      assert ([e] + list)[..n + 1] == [e] + list[..n];
      EvictTailFront(e, list[..n], if Evictable(list[n]) then k - 1 else k);
    }
  }

  // ------------------------------------------- list operations, as a cache

  lemma Hit(list: List, m: map<nat, Entry>, disk: Disk, b: nat, who: nat)
    requires Represents(list, m) && b in m && BlockSector(b) < |disk|
    ensures Represents(Acquired(list, disk, b, who), m[b := m[b].(holder := Some(who))])
  {
    var i := IndexOf(list, b);
    assert Cached(list, b);
    var e := list[i].(holder := Some(who));
    Update(list, m, i, e);
    Front(list[i := e], m[b := m[b].(holder := Some(who))], i);
  }

  function SetData(list: List, b: nat, data: Sector): List {
    var i := IndexOf(list, b);
    if i < |list| then list[i := list[i].(data := data)] else list
  }

  function ClearPinned(list: List, b: nat): List {
    var i := IndexOf(list, b);
    if i < |list| then list[i := list[i].(pinned := false)] else list
  }

  lemma DataSet(list: List, m: map<nat, Entry>, b: nat, data: Sector)
    requires Represents(list, m) && b in m
    ensures Represents(SetData(list, b, data), m[b := m[b].(data := data)])
  {
    assert Cached(list, b);
    var i := IndexOf(list, b);
    Update(list, m, i, list[i].(data := data));
  }

  lemma Release(list: List, m: map<nat, Entry>, b: nat)
    requires Represents(list, m) && b in m
    ensures Represents(Released(list, b), m[b := m[b].(holder := None)])
  {
    assert Cached(list, b);
    var i := IndexOf(list, b);
    Update(list, m, i, list[i].(acquired := false, holder := None));
  }

  lemma Unpinned(list: List, m: map<nat, Entry>, b: nat)
    requires Represents(list, m) && b in m
    ensures Represents(ClearPinned(list, b), m[b := m[b].(pinned := false)])
  {
    assert Cached(list, b);
    var i := IndexOf(list, b);
    Update(list, m, i, list[i].(pinned := false));
  }

  /** A miss by the only holder of cached blocks: a run of Evict steps, then the
      new block. */
  lemma Miss(g: Geometry, s: State, list: List, b: nat, who: nat)
    returns (steps: seq<Step>, m: map<nat, Entry>)
    requires 1 <= g.numLog && Represents(list, s.cache) && HeldStay(list, AfterEviction(list))
    requires b !in s.cache && BlockSector(b) < |s.disk|
    ensures Legal(g, s, steps) && Exec(g, s, steps) == s.(cache := m)
    ensures forall i :: 0 <= i < |steps| ==> steps[i].Evict?
    ensures Represents(AfterEviction(list), m) && !Cached(AfterEviction(list), b) && b !in m
    ensures Represents(Acquired(list, s.disk, b, who),
                       m[b := Entry(s.disk[BlockSector(b)], false, Some(who), false)])
  {
    hide HeldStay, EvictTail, Legal, Exec;
    NotCachedMap(list, s.cache, b);
    var k := |list| - EVICTION_THRESHOLD + 1;
    assert list + [] == list;
    steps, m := EvictsRefine(g, s, list, [], k);
    assert EvictTail(list, k) + [] == EvictTail(list, k);
    EvictTailKeeps(list, k);
    Push(AfterEviction(list), m, CachedBlock(b, s.disk[BlockSector(b)], true, false, Some(who), false));
  }

  /** The thread that commits or recovers. */
  const ME := 0

  /** Acquire `from` and `to`, copy the data, release both: one round of
      write_log. */
  function CopyRound(list: List, disk: Disk, from: nat, to: nat, data: Sector): List
    requires BlockSector(from) < |disk| && BlockSector(to) < |disk|
  {
    var l := Acquired(Acquired(list, disk, from, ME), disk, to, ME);
    Released(Released(SetData(l, to, data), from), to)
  }

  lemma AfterAcquires(list: List, m: map<nat, Entry>, from: nat, to: nat, data: Sector, r: map<nat, Entry>)
    requires Represents(list, m) && from in m && to in m && from != to
    requires r == m[from := m[from].(holder := None)][to := m[to].(holder := None, data := data)]
    ensures Represents(Released(Released(SetData(list, to, data), from), to), r)
  {
    DataSet(list, m, to, data);
    var l1, m1 := SetData(list, to, data), m[to := m[to].(data := data)];
    Release(l1, m1, from);
    var l2, m2 := Released(l1, from), m1[from := m1[from].(holder := None)];
    Release(l2, m2, to);
    SameUpdates(m, from, to, data);
  }

  lemma SameUpdates(m: map<nat, Entry>, from: nat, to: nat, data: Sector)
    requires from in m && to in m && from != to
    ensures var m1 := m[to := m[to].(data := data)];
      var m2 := m1[from := m1[from].(holder := None)];
      m2[to := m2[to].(holder := None)]
      == m[from := m[from].(holder := None)][to := m[to].(holder := None, data := data)]
  {
  }

  /** The second block is not cached, the first is pinned: evictions, then both
      are cached and held. */
  lemma HitThenMiss(g: Geometry, s: State, list: List, from: nat, to: nat)
    returns (steps: seq<Step>, m: map<nat, Entry>)
    requires 1 <= g.numLog && Represents(list, s.cache) && HoldersFlagged(list)
    requires from in s.cache && s.cache[from].pinned && to !in s.cache
    requires BlockSector(from) < |s.disk| && BlockSector(to) < |s.disk|
    ensures Legal(g, s, steps) && Exec(g, s, steps) == s.(cache := m)
    ensures forall i :: 0 <= i < |steps| ==> steps[i].Evict?
    ensures from in m && m[from] == s.cache[from] && to !in m
    ensures Represents(Acquired(Acquired(list, s.disk, from, ME), s.disk, to, ME),
                       m[from := m[from].(holder := Some(ME))]
                        [to := Entry(s.disk[BlockSector(to)], false, Some(ME), false)])
  {
    hide EvictTail, Legal, Exec, FlaggedExcept, HeldStay;
    var i := IndexOf(list, from);
    assert Cached(list, from);
    var e, held := list[i], list[i].(holder := Some(ME));
    var others := list[..i] + list[i + 1..];
    FrontLists(list, i, held);
    Front(list, s.cache, i);
    FlaggedFront(list, i, {});
    FlaggedStay([e] + others, s.cache, |[e] + others| - EVICTION_THRESHOLD + 1);
    steps, m := Miss(g, s, [e] + others, to, ME);
    EvictsKeep(g, s, steps, m);
    PushSecond(m, s.disk, e, held, others, to);
    Hit(list, s.cache, s.disk, from, ME);
    NotCachedMap(Acquired(list, s.disk, from, ME), s.cache[from := s.cache[from].(holder := Some(ME))], to);
  }

  lemma FrontLists(list: List, i: nat, held: CachedBlock)
    requires i < |list|
    ensures MoveToFront(list, i) == [list[i]] + (list[..i] + list[i + 1..])
    ensures MoveToFront(list[i := held], i) == [held] + (list[..i] + list[i + 1..])
  {
    assert list[i := held][..i] == list[..i];
    assert list[i := held][i + 1..] == list[i + 1..];
  }

  lemma FlaggedFront(list: List, i: nat, blocks: set<nat>)
    requires i < |list| && FlaggedExcept(list, blocks)
    ensures FlaggedExcept(MoveToFront(list, i), blocks)
  {
    var r := MoveToFront(list, i);
    forall k | 0 <= k < |r| && Evictable(r[k]) && r[k].no !in blocks ensures r[k].holder.None? {
      FrontAt(list, i, k);
    }
  }

  /** Eviction does not see that the unevictable first block is held. */
  lemma PushSecond(m: map<nat, Entry>, disk: Disk, e: CachedBlock, held: CachedBlock, others: List, to: nat)
    requires held == e.(holder := Some(ME)) && e.pinned && e.no != to && BlockSector(to) < |disk|
    requires Represents(AfterEviction([e] + others), m) && to !in m
    ensures Represents([CachedBlock(to, disk[BlockSector(to)], true, false, Some(ME), false)]
                       + AfterEviction([held] + others),
                       m[e.no := EntryOf(held)][to := Entry(disk[BlockSector(to)], false, Some(ME), false)])
  {
    var k := |[e] + others| - EVICTION_THRESHOLD + 1;
    EvictTailFront(e, others, k);
    EvictTailFront(held, others, k);
    var l := AfterEviction([e] + others);
    assert AfterEviction([held] + others) == l[0 := held];
    Update(l, m, 0, held);
    NotCachedMap(l[0 := held], m[e.no := EntryOf(held)], to);
    Push(l[0 := held], m[e.no := EntryOf(held)],
         CachedBlock(to, disk[BlockSector(to)], true, false, Some(ME), false));
  }

  /** With `from` cached and unevictable, acquiring `from` and then `to` is a run
      of Evict steps, and then both are cached and held. */
  lemma AcquireTwo(g: Geometry, s: State, list: List, from: nat, to: nat)
    returns (steps: seq<Step>, m: map<nat, Entry>)
    requires 1 <= g.numLog && Represents(list, s.cache) && HoldersFlagged(list)
    requires from in s.cache && from != to
    requires s.cache[from].pinned || to in s.cache
    requires BlockSector(from) < |s.disk| && BlockSector(to) < |s.disk|
    ensures Legal(g, s, steps) && Exec(g, s, steps) == s.(cache := m)
    ensures forall i :: 0 <= i < |steps| ==> steps[i].Evict?
    ensures from in m && m[from] == s.cache[from] && (to in s.cache ==> to in m && m[to] == s.cache[to])
    ensures to !in s.cache ==> to !in m
    ensures var e := if to in m then m[to] else Entry(s.disk[BlockSector(to)], false, None, false);
      Represents(Acquired(Acquired(list, s.disk, from, ME), s.disk, to, ME),
                 m[from := m[from].(holder := Some(ME))][to := e.(holder := Some(ME))])
  {
    if to in s.cache {
      hide Acquired, Represents;
      steps, m := [], s.cache;
      Hit(list, s.cache, s.disk, from, ME);
      Hit(Acquired(list, s.disk, from, ME), s.cache[from := s.cache[from].(holder := Some(ME))], s.disk, to, ME);
    } else {
      hide Acquired, Represents, Legal, Exec;
      steps, m := HitThenMiss(g, s, list, from, to);
    }
  }

  lemma CopyRefines(g: Geometry, s: State, list: List, from: nat, to: nat, data: Sector)
    returns (steps: seq<Step>, m: map<nat, Entry>)
    requires 1 <= g.numLog && Represents(list, s.cache) && HoldersFlagged(list)
    requires from in s.cache && s.cache[from].pinned && from != to
    requires Unheld(s.cache, from) && Unheld(s.cache, to)
    requires BlockSector(from) < |s.disk| && BlockSector(to) < |s.disk|
    ensures Legal(g, s, steps) && Exec(g, s, steps) == s.(cache := m)
    ensures forall i :: 0 <= i < |steps| ==> steps[i].Evict?
    ensures from in m && m[from] == s.cache[from]
    ensures Represents(CopyRound(list, s.disk, from, to, data), PutCached(m, to, data))
  {
    steps, m := AcquireTwo(g, s, list, from, to);
    BothReleased(list, s.disk, m, from, to, data);
  }

  lemma BothReleased(list: List, disk: Disk, m: map<nat, Entry>, from: nat, to: nat, data: Sector)
    requires BlockSector(from) < |disk| && BlockSector(to) < |disk| && from != to
    requires from in m && m[from].holder.None? && (to in m ==> m[to].holder.None?)
    requires var e := if to in m then m[to] else Entry(disk[BlockSector(to)], false, None, false);
      Represents(Acquired(Acquired(list, disk, from, ME), disk, to, ME),
                 m[from := m[from].(holder := Some(ME))][to := e.(holder := Some(ME))])
    ensures Represents(CopyRound(list, disk, from, to, data), PutCached(m, to, data))
  {
    var e := if to in m then m[to] else Entry(disk[BlockSector(to)], false, None, false);
    var m2 := m[from := m[from].(holder := Some(ME))][to := e.(holder := Some(ME))];
    BackToFree(m, from, to, e, data);
    AfterAcquires(Acquired(Acquired(list, disk, from, ME), disk, to, ME), m2, from, to, data, PutCached(m, to, data));
  }

  lemma BackToFree(m: map<nat, Entry>, from: nat, to: nat, e: Entry, data: Sector)
    requires from in m && m[from].holder.None? && from != to
    requires e.holder.None? && if to in m then e == m[to] else !e.pinned && !e.dirty
    ensures var m2 := m[from := m[from].(holder := Some(ME))][to := e.(holder := Some(ME))];
      PutCached(m, to, data) == m2[from := m2[from].(holder := None)][to := m2[to].(holder := None, data := data)]
  {
  }

  // ------------------------------------------------- rounds of the loops

  /** Evict steps take away blocks, never a pinned one. */
  lemma {:induction false} EvictsKeep(g: Geometry, s: State, steps: seq<Step>, m: map<nat, Entry>)
    requires 1 <= g.numLog && Legal(g, s, steps) && Exec(g, s, steps) == s.(cache := m)
    requires forall i :: 0 <= i < |steps| ==> steps[i].Evict?
    ensures forall b :: b in m ==> b in s.cache && m[b] == s.cache[b]
    ensures forall b :: b in s.cache && s.cache[b].pinned ==> b in m
    decreases |steps|
  {
    if steps != [] {
      var t := Next(g, s, steps[0]);
      EvictsKeep(g, t, steps[1..], m);
    }
  }

  /** The contents a round copies: those of the source block, once both blocks
      are acquired. */
  function SourceData(list: List, disk: Disk, from: nat, to: nat): Sector
    requires BlockSector(from) < |disk| && BlockSector(to) < |disk|
  {
    var l := Acquired(Acquired(list, disk, from, ME), disk, to, ME);
    var i := IndexOf(l, from);
    if i < |l| then l[i].data else disk[BlockSector(from)]
  }

  lemma ReadSource(l: List, m: map<nat, Entry>, b: nat)
    requires Represents(l, m) && b in m
    ensures IndexOf(l, b) < |l| && l[IndexOf(l, b)].data == m[b].data
  {
    assert Cached(l, b);
  }

  lemma FlaggedAcquired(list: List, disk: Disk, b: nat, who: nat, blocks: set<nat>)
    requires BlockSector(b) < |disk| && FlaggedExcept(list, blocks)
    ensures FlaggedExcept(Acquired(list, disk, b, who), blocks + {b})
  {
    hide EvictTail, IndexOf, MoveToFront;
    var i := IndexOf(list, b);
    if i < |list| {
      FlaggedFront(list[i := list[i].(holder := Some(who))], i, blocks + {b});
    } else {
      FlaggedEvicted(list, |list| - EVICTION_THRESHOLD + 1, blocks);
    }
  }

  lemma FlaggedEvicted(list: List, k: int, blocks: set<nat>)
    requires FlaggedExcept(list, blocks)
    ensures FlaggedExcept(EvictTail(list, k), blocks)
  {
    hide EvictTail;
    EvictTailKeeps(list, k);
    var r := EvictTail(list, k);
    forall i | 0 <= i < |r| && Evictable(r[i]) && r[i].no !in blocks ensures r[i].holder.None? {
      var j :| 0 <= j < |list| && list[j] == r[i];
    }
  }

  lemma FlaggedReleased(list: List, b: nat, blocks: set<nat>)
    requires Distinct(list) && FlaggedExcept(list, blocks)
    ensures FlaggedExcept(Released(list, b), blocks - {b})
  {
  }

  lemma FlaggedData(list: List, b: nat, data: Sector, blocks: set<nat>)
    requires FlaggedExcept(list, blocks)
    ensures FlaggedExcept(SetData(list, b, data), blocks)
  {
  }

  lemma DistinctRound(list: List, disk: Disk, from: nat, to: nat, data: Sector)
    requires BlockSector(from) < |disk| && BlockSector(to) < |disk| && Distinct(list)
    ensures var l := SetData(Acquired(Acquired(list, disk, from, ME), disk, to, ME), to, data);
      Distinct(l) && Distinct(Released(l, from))
  {
    hide Acquired;
    AcquireKeepsDistinct(list, disk, from, ME);
    AcquireKeepsDistinct(Acquired(list, disk, from, ME), disk, to, ME);
  }

  /** A round leaves nothing held that was not held before. */
  lemma RoundFlagged(list: List, disk: Disk, from: nat, to: nat, data: Sector)
    requires BlockSector(from) < |disk| && BlockSector(to) < |disk| && Distinct(list) && HoldersFlagged(list)
    ensures HoldersFlagged(CopyRound(list, disk, from, to, data))
  {
    hide Acquired, Released, SetData, FlaggedExcept, Distinct;
    var l1 := Acquired(list, disk, from, ME);
    var l2 := Acquired(l1, disk, to, ME);
    var l3 := SetData(l2, to, data);
    FlaggedAcquired(list, disk, from, ME, {});
    FlaggedAcquired(l1, disk, to, ME, {} + {from});
    FlaggedData(l2, to, data, {} + {from} + {to});
    DistinctRound(list, disk, from, to, data);
    FlaggedReleased(l3, from, {} + {from} + {to});
    FlaggedReleased(Released(l3, from), to, {} + {from} + {to} - {from});
    assert {} + {from} + {to} - {from} - {to} == {};
  }

  lemma CopyRoundSource(g: Geometry, s: State, list: List, from: nat, to: nat)
    requires 1 <= g.numLog && Represents(list, s.cache) && HoldersFlagged(list)
    requires from in s.cache && from != to && (s.cache[from].pinned || to in s.cache)
    requires BlockSector(from) < |s.disk| && BlockSector(to) < |s.disk|
    ensures SourceData(list, s.disk, from, to) == s.cache[from].data
  {
    hide Represents, Legal, Exec, Acquired;
    var steps, m := AcquireTwo(g, s, list, from, to);
    var e := if to in m then m[to] else Entry(s.disk[BlockSector(to)], false, None, false);
    ReadSource(Acquired(Acquired(list, s.disk, from, ME), s.disk, to, ME),
               m[from := m[from].(holder := Some(ME))][to := e.(holder := Some(ME))], from);
  }

  lemma InstallUncached(g: Geometry, s: State, list: List, from: nat, to: nat)
    returns (steps: seq<Step>, m: map<nat, Entry>)
    requires 1 <= g.numLog && Represents(list, s.cache) && HoldersFlagged(list)
    requires to in s.cache && s.cache[to].pinned && from !in s.cache
    requires BlockSector(from) < |s.disk| && BlockSector(to) < |s.disk|
    ensures Legal(g, s, steps) && Exec(g, s, steps) == s.(cache := m)
    ensures forall i :: 0 <= i < |steps| ==> steps[i].Evict?
    ensures from !in m && to in m && m[to] == s.cache[to]
    ensures Represents(Acquired(Acquired(list, s.disk, from, ME), s.disk, to, ME),
                       m[from := Entry(s.disk[BlockSector(from)], false, Some(ME), false)]
                        [to := m[to].(holder := Some(ME))])
  {
    FlaggedStay(list, s.cache, |list| - EVICTION_THRESHOLD + 1);
    steps, m := Miss(g, s, list, from, ME);
    EvictsKeep(g, s, steps, m);
    Hit(Acquired(list, s.disk, from, ME), m[from := Entry(s.disk[BlockSector(from)], false, Some(ME), false)],
        s.disk, to, ME);
  }

  /** What the two releases make of it. */
  lemma InstallReleased(list: List, disk: Disk, m: map<nat, Entry>, from: nat, to: nat, data: Sector)
    requires BlockSector(from) < |disk| && BlockSector(to) < |disk| && from != to && from !in m
    requires to in m ==> m[to].holder.None?
    requires data == disk[BlockSector(from)]
    requires var e := if to in m then m[to] else Entry(disk[BlockSector(to)], false, None, false);
      Represents(Acquired(Acquired(list, disk, from, ME), disk, to, ME),
                 m[from := Entry(data, false, Some(ME), false)][to := e.(holder := Some(ME))])
    ensures SourceData(list, disk, from, to) == data
    ensures Represents(CopyRound(list, disk, from, to, data), PutCached(PutCached(m, from, data), to, data))
  {
    var e := if to in m then m[to] else Entry(disk[BlockSector(to)], false, None, false);
    var m2 := m[from := Entry(data, false, Some(ME), false)][to := e.(holder := Some(ME))];
    var l := Acquired(Acquired(list, disk, from, ME), disk, to, ME);
    ReadSource(l, m2, from);
    LoadedThenFree(m, from, to, e, data);
    AfterAcquires(l, m2, from, to, data, PutCached(PutCached(m, from, data), to, data));
  }

  lemma InstallCached(g: Geometry, s: State, list: List, from: nat, to: nat, data: Sector)
    returns (steps: seq<Step>, m: map<nat, Entry>)
    requires 1 <= g.numLog && Represents(list, s.cache) && HoldersFlagged(list)
    requires to in s.cache && from in s.cache && from != to && s.cache[from].data == data
    requires Unheld(s.cache, from) && Unheld(s.cache, to)
    requires BlockSector(from) < |s.disk| && BlockSector(to) < |s.disk|
    ensures Legal(g, s, steps) && Exec(g, s, steps) == s.(cache := m)
    ensures forall i :: 0 <= i < |steps| ==> steps[i].Evict?
    ensures from in m && m[from] == s.cache[from]
    ensures SourceData(list, s.disk, from, to) == data
    ensures Represents(CopyRound(list, s.disk, from, to, data), PutCached(PutCached(m, from, data), to, data))
  {
    CopyRoundSource(g, s, list, from, to);
    steps, m := AcquireTwo(g, s, list, from, to);
    BothReleased(list, s.disk, m, from, to, data);
    PutSame(m, from);
  }

  lemma PutSame(m: map<nat, Entry>, b: nat)
    requires b in m
    ensures PutCached(m, b, m[b].data) == m
  {
  }

  /** install_trans outside recovery: the home block is pinned, the log block may
      have to be loaded. */
  lemma InstallRefines(g: Geometry, s: State, list: List, from: nat, to: nat, data: Sector)
    returns (steps: seq<Step>, m: map<nat, Entry>)
    requires 1 <= g.numLog && Represents(list, s.cache) && HoldersFlagged(list)
    requires to in s.cache && s.cache[to].pinned && from != to && Unheld(s.cache, from) && Unheld(s.cache, to)
    requires BlockSector(from) < |s.disk| && BlockSector(to) < |s.disk|
    requires data == Contents(s, from)
    ensures Legal(g, s, steps) && Exec(g, s, steps) == s.(cache := m)
    ensures forall i :: 0 <= i < |steps| ==> steps[i].Evict?
    ensures from in s.cache ==> from in m && m[from] == s.cache[from]
    ensures from !in s.cache ==> from !in m
    ensures SourceData(list, s.disk, from, to) == data
    ensures Represents(CopyRound(list, s.disk, from, to, data), PutCached(PutCached(m, from, data), to, data))
  {
    if from in s.cache {
      steps, m := InstallCached(g, s, list, from, to, data);
    } else {
      steps, m := InstallUncached(g, s, list, from, to);
      InstallReleased(list, s.disk, m, from, to, data);
    }
  }

  lemma LoadedThenFree(m: map<nat, Entry>, from: nat, to: nat, e: Entry, data: Sector)
    requires from !in m && from != to && (to in m ==> m[to].holder.None?)
    requires e.holder.None? && if to in m then e == m[to] else !e.pinned && !e.dirty
    ensures var m2 := m[from := Entry(data, false, Some(ME), false)][to := e.(holder := Some(ME))];
      PutCached(PutCached(m, from, data), to, data)
      == m2[from := m2[from].(holder := None)][to := m2[to].(holder := None, data := data)]
  {
  }

  /** install_trans in recovery: neither block is cached. */
  lemma BootRefines(g: Geometry, s: State, list: List, from: nat, to: nat)
    returns (steps: seq<Step>, m: map<nat, Entry>)
    requires 1 <= g.numLog && Represents(list, s.cache) && HoldersFlagged(list)
    requires from !in s.cache && to !in s.cache && from != to
    requires BlockSector(from) < |s.disk| && BlockSector(to) < |s.disk|
    ensures Legal(g, s, steps) && Exec(g, s, steps) == s.(cache := m)
    ensures forall i :: 0 <= i < |steps| ==> steps[i].Evict?
    ensures from !in m && to !in m
    ensures var data := s.disk[BlockSector(from)];
      && SourceData(list, s.disk, from, to) == data
      && Represents(CopyRound(list, s.disk, from, to, data), PutCached(PutCached(m, from, data), to, data))
  {
    hide Represents, Legal, Exec, InstallFirst;
    FlaggedStay(list, s.cache, |list| - EVICTION_THRESHOLD + 1);
    var steps1, m1 := Miss(g, s, list, from, ME);
    EvictsKeep(g, s, steps1, m1);
    var l1 := AfterEviction(list);
    EvictTailKeeps(list, |list| - EVICTION_THRESHOLD + 1);
    assert HoldersFlagged(l1);
    var e := CachedBlock(from, s.disk[BlockSector(from)], true, false, Some(ME), false);
    var t := s.(cache := m1);
    var steps2, m2 := SecondMiss(g, t, l1, e, to);
    steps, m := steps1 + steps2, m2;
    ExecAppend(g, s, steps1, steps2);
    NotCachedMap(list, s.cache, from);
    AcquiredMiss(list, s.disk, from);
    InstallReleased(list, s.disk, m, from, to, s.disk[BlockSector(from)]);
  }

  /** A miss while block `e`, just loaded, is held. */
  lemma SecondMiss(g: Geometry, s: State, list: List, e: CachedBlock, to: nat)
    returns (steps: seq<Step>, m: map<nat, Entry>)
    requires 1 <= g.numLog && Represents(list, s.cache) && HoldersFlagged(list)
    requires e.no !in s.cache && to !in s.cache && e.no != to && e.acquired
    requires BlockSector(to) < |s.disk|
    ensures Legal(g, s, steps) && Exec(g, s, steps) == s.(cache := m)
    ensures forall i :: 0 <= i < |steps| ==> steps[i].Evict?
    ensures e.no !in m && to !in m
    ensures Represents(Acquired([e] + list, s.disk, to, ME),
                       m[e.no := EntryOf(e)][to := Entry(s.disk[BlockSector(to)], false, Some(ME), false)])
  {
    hide Represents, Legal, Exec, EvictTail, Acquired;
    var k := |[e] + list| - EVICTION_THRESHOLD + 1;
    assert list + [] == list;
    FlaggedStay(list, s.cache, k);
    steps, m := EvictsRefine(g, s, list, [], k);
    EvictsKeep(g, s, steps, m);
    var kept := EvictTail(list, k);
    assert kept + [] == kept;
    EvictTailFront(e, list, k);
    PushTwo(kept, m, e, CachedBlock(to, s.disk[BlockSector(to)], true, false, Some(ME), false));
    NotCachedMap(list, s.cache, e.no);
    Push(list, s.cache, e);
    NotCachedMap([e] + list, s.cache[e.no := EntryOf(e)], to);
    AcquiredMiss([e] + list, s.disk, to);
  }

  lemma PushTwo(list: List, m: map<nat, Entry>, e: CachedBlock, f: CachedBlock)
    requires Represents(list, m) && e.no !in m && f.no !in m && e.no != f.no
    ensures Represents([f] + ([e] + list), m[e.no := EntryOf(e)][f.no := EntryOf(f)])
  {
    hide Represents;
    NotCachedMap(list, m, e.no);
    Push(list, m, e);
    NotCachedMap([e] + list, m[e.no := EntryOf(e)], f.no);
    Push([e] + list, m[e.no := EntryOf(e)], f);
  }

  lemma AcquiredMiss(list: List, disk: Disk, b: nat)
    requires BlockSector(b) < |disk| && IndexOf(list, b) == |list|
    ensures Acquired(list, disk, b, ME)
         == [CachedBlock(b, disk[BlockSector(b)], true, false, Some(ME), false)]
          + EvictTail(list, |list| - EVICTION_THRESHOLD + 1)
  {
  }

  lemma NotCachedMap(list: List, m: map<nat, Entry>, b: nat)
    requires Represents(list, m) && b !in m
    ensures !Cached(list, b) && IndexOf(list, b) == |list|
  {
  }

  // --------------------------------------------- rounds as machine steps

  /** Evictions, then one more step. */
  lemma ThenStep(g: Geometry, init: Image, s: State, steps: seq<Step>, m: map<nat, Entry>, last: Step)
    returns (all: seq<Step>)
    requires 1 <= g.numLog && Inv(g, init, s) && Legal(g, s, steps) && Exec(g, s, steps) == s.(cache := m)
    requires Enabled(g, s.(cache := m), last)
    ensures all == steps + [last] && Legal(g, s, all) && Exec(g, s, all) == Next(g, s.(cache := m), last)
    ensures Inv(g, init, Next(g, s.(cache := m), last))
  {
    hide Inv, Next, Enabled;
    all := steps + [last];
    RunKeepsInvariant(g, init, s, steps);
    KeepsInvariant(g, init, s.(cache := m), last);
    assert [last][1..] == [];
    ExecAppend(g, s, steps, [last]);
  }

  /** `l` is a list that represents the cache after step `last` has followed the
      evictions that lead from `s` to cache `m`. */
  ghost predicate RoundGives(g: Geometry, s: State, evicts: seq<Step>, m: map<nat, Entry>, last: Step,
                             sector: nat, data: Sector, l: List)
  {
    && 1 <= g.numLog && Legal(g, s, evicts) && Exec(g, s, evicts) == s.(cache := m)
    && Enabled(g, s.(cache := m), last)
    && sector < |s.disk|
    && var t := Next(g, s.(cache := m), last);
    && t.disk == s.disk[sector := data]
    && Represents(l, t.cache) && HoldersFlagged(l) && SameHolders(s.cache, t.cache)
  }

  lemma CopyEffect(g: Geometry, s: State, from: nat, to: nat)
    requires 1 <= g.numLog && s.phase.CopyingToLog? && s.phase.tail < NumLogged(s.header) <= LOG_MAX_SIZE
    requires from == s.header[1 + s.phase.tail] && to == LogBlock(g, s.phase.tail)
    requires BlockSector(from) < |s.disk| && BlockSector(to) < |s.disk|
    requires from in s.cache && s.cache[from].holder.None?
    ensures Enabled(g, s, CopyToLog)
    ensures var t := Next(g, s, CopyToLog); var data := s.cache[from].data;
      t.disk == s.disk[BlockSector(to) := data] && t.cache == PutCached(s.cache, to, data)
  {
  }

  lemma InstallStepEffect(g: Geometry, s: State, from: nat, to: nat)
    requires 1 <= g.numLog && (s.phase.Installing? || s.phase.BootInstalling?)
    requires s.phase.tail < NumLogged(s.header) <= LOG_MAX_SIZE
    requires to == s.header[1 + s.phase.tail] && from == LogBlock(g, s.phase.tail)
    requires BlockSector(from) < |s.disk| && BlockSector(to) < |s.disk|
    requires to in s.cache ==> s.cache[to].holder.None?
    ensures Enabled(g, s, InstallBlock)
    ensures var t := Next(g, s, InstallBlock); var data := Contents(s, from);
      var c := PutCached(PutCached(s.cache, from, data), to, data);
      && t.disk == s.disk[BlockSector(to) := data]
      && t.cache == if s.phase.BootInstalling? then c[to := c[to].(pinned := false)] else c
  {
  }

  /** Evictions and loads change no holder. */
  lemma EvictsSameHolders(g: Geometry, s: State, steps: seq<Step>, m: map<nat, Entry>, from: nat, to: nat, data: Sector)
    requires 1 <= g.numLog && Legal(g, s, steps) && Exec(g, s, steps) == s.(cache := m)
    requires forall i :: 0 <= i < |steps| ==> steps[i].Evict?
    ensures SameHolders(s.cache, m) && SameHolders(s.cache, PutCached(m, to, data))
    ensures var c := PutCached(PutCached(m, from, data), to, data);
      SameHolders(s.cache, c) && SameHolders(s.cache, c[to := c[to].(pinned := false)])
  {
    hide Legal, Exec, SameHolders, PutCached;
    EvictsKeep(g, s, steps, m);
    PutHolders(s.cache, m, from, to, data);
  }

  lemma PutHolders(c: map<nat, Entry>, m: map<nat, Entry>, from: nat, to: nat, data: Sector)
    requires forall b :: b in m ==> b in c && m[b] == c[b]
    ensures SameHolders(c, m) && SameHolders(c, PutCached(m, to, data))
    ensures var d := PutCached(PutCached(m, from, data), to, data);
      to in d && SameHolders(c, d) && SameHolders(c, d[to := d[to].(pinned := false)])
  {
    assert SameHolders(c, m);
    hide PutCached, SameHolders;
    PutOne(c, m, to, data);
    PutOne(c, m, from, data);
    PutOne(c, PutCached(m, from, data), to, data);
  }

  lemma PutOne(c: map<nat, Entry>, m: map<nat, Entry>, b: nat, data: Sector)
    requires SameHolders(c, m)
    ensures var d := PutCached(m, b, data); b in d && SameHolders(c, d) && SameHolders(c, d[b := d[b].(pinned := false)])
  {
  }

  lemma CopyFrees(g: Geometry, s: State, list: List, from: nat, to: nat)
    returns (evicts: seq<Step>, m: map<nat, Entry>)
    requires 1 <= g.numLog && from != to
    requires BlockSector(from) < |s.disk| && BlockSector(to) < |s.disk|
    requires from in s.cache && s.cache[from].pinned && Represents(list, s.cache) && HoldersFlagged(list)
    requires Unheld(s.cache, from) && Unheld(s.cache, to)
    ensures Legal(g, s, evicts) && Exec(g, s, evicts) == s.(cache := m)
    ensures from in m && m[from] == s.cache[from] && m[from].holder.None?
    ensures SourceData(list, s.disk, from, to) == m[from].data
    ensures var l := CopyRound(list, s.disk, from, to, m[from].data);
      && Represents(l, PutCached(m, to, m[from].data)) && HoldersFlagged(l)
      && SameHolders(s.cache, PutCached(m, to, m[from].data))
  {
    hide CopyRound, SourceData, Legal, Exec;
    CopyRoundSource(g, s, list, from, to);
    evicts, m := CopyRefines(g, s, list, from, to, s.cache[from].data);
    EvictsSameHolders(g, s, evicts, m, from, to, m[from].data);
    RoundFlagged(list, s.disk, from, to, m[from].data);
  }

  /** A round of write_log on a pinned block. */
  lemma CopyGives(g: Geometry, s: State, list: List, from: nat, to: nat)
    returns (evicts: seq<Step>, m: map<nat, Entry>)
    requires 1 <= g.numLog && s.phase.CopyingToLog? && s.phase.tail < NumLogged(s.header) <= LOG_MAX_SIZE
    requires from == s.header[1 + s.phase.tail] && to == LogBlock(g, s.phase.tail) && from != to
    requires BlockSector(from) < |s.disk| && BlockSector(to) < |s.disk|
    requires from in s.cache && s.cache[from].pinned && Represents(list, s.cache) && HoldersFlagged(list)
    requires Unheld(s.cache, from) && Unheld(s.cache, to)
    ensures var data := SourceData(list, s.disk, from, to);
      RoundGives(g, s, evicts, m, CopyToLog, BlockSector(to), data, CopyRound(list, s.disk, from, to, data))
  {
    hide CopyRound, SourceData;
    evicts, m := CopyFrees(g, s, list, from, to);
    CopyEffect(g, s.(cache := m), from, to);
  }

  lemma InstallFrees(g: Geometry, s: State, list: List, from: nat, to: nat)
    returns (evicts: seq<Step>, m: map<nat, Entry>)
    requires 1 <= g.numLog && from != to
    requires BlockSector(from) < |s.disk| && BlockSector(to) < |s.disk|
    requires to in s.cache && s.cache[to].pinned && Represents(list, s.cache) && HoldersFlagged(list)
    requires Unheld(s.cache, from) && Unheld(s.cache, to)
    ensures Legal(g, s, evicts) && Exec(g, s, evicts) == s.(cache := m)
    ensures to in m ==> m[to].holder.None?
    ensures var data := SourceData(list, s.disk, from, to); var l := CopyRound(list, s.disk, from, to, data);
      && data == Contents(s.(cache := m), from)
      && Represents(l, PutCached(PutCached(m, from, data), to, data)) && HoldersFlagged(l)
      && SameHolders(s.cache, PutCached(PutCached(m, from, data), to, data))
  {
    var data := Contents(s, from);
    evicts, m := InstallRefines(g, s, list, from, to, data);
    EvictsKeep(g, s, evicts, m);
    EvictsSameHolders(g, s, evicts, m, from, to, data);
    RoundFlagged(list, s.disk, from, to, data);
  }

  /** A round of install_trans, outside recovery. */
  lemma InstallGives(g: Geometry, s: State, list: List, from: nat, to: nat)
    returns (evicts: seq<Step>, m: map<nat, Entry>)
    requires 1 <= g.numLog && s.phase.Installing? && s.phase.tail < NumLogged(s.header) <= LOG_MAX_SIZE
    requires to == s.header[1 + s.phase.tail] && from == LogBlock(g, s.phase.tail) && from != to
    requires BlockSector(from) < |s.disk| && BlockSector(to) < |s.disk|
    requires to in s.cache && s.cache[to].pinned && Represents(list, s.cache) && HoldersFlagged(list)
    requires Unheld(s.cache, from) && Unheld(s.cache, to)
    ensures var data := SourceData(list, s.disk, from, to);
      RoundGives(g, s, evicts, m, InstallBlock, BlockSector(to), data, CopyRound(list, s.disk, from, to, data))
  {
    evicts, m := InstallFrees(g, s, list, from, to);
    InstallStepEffect(g, s.(cache := m), from, to);
  }

  /** A block just loaded and released is free, so unpinning it is harmless. */
  lemma LoadedUnpinned(l: List, c: map<nat, Entry>, to: nat)
    requires Represents(l, c) && HoldersFlagged(l) && Unheld(c, to)
    ensures HoldersFlagged(ClearPinned(l, to))
  {
  }

  lemma BootFrees(g: Geometry, s: State, list: List, from: nat, to: nat)
    returns (evicts: seq<Step>, m: map<nat, Entry>)
    requires 1 <= g.numLog && from != to
    requires BlockSector(from) < |s.disk| && BlockSector(to) < |s.disk|
    requires from !in s.cache && to !in s.cache && Represents(list, s.cache) && HoldersFlagged(list)
    ensures Legal(g, s, evicts) && Exec(g, s, evicts) == s.(cache := m)
    ensures from !in m && to !in m
    ensures forall b :: b in m ==> b in s.cache
    ensures var data := SourceData(list, s.disk, from, to);
      var l := ClearPinned(CopyRound(list, s.disk, from, to, data), to);
      var c := PutCached(PutCached(m, from, data), to, data);
      && data == s.disk[BlockSector(from)]
      && Represents(l, c[to := c[to].(pinned := false)]) && HoldersFlagged(l)
      && SameHolders(s.cache, c[to := c[to].(pinned := false)])
  {
    var data := s.disk[BlockSector(from)];
    evicts, m := BootRefines(g, s, list, from, to);
    EvictsKeep(g, s, evicts, m);
    EvictsSameHolders(g, s, evicts, m, from, to, data);
    var l := CopyRound(list, s.disk, from, to, data);
    var c := PutCached(PutCached(m, from, data), to, data);
    Unpinned(l, c, to);
    RoundFlagged(list, s.disk, from, to, data);
    LoadedUnpinned(l, c, to);
  }

  /** A round of install_trans in recovery, with neither block cached. */
  lemma BootGives(g: Geometry, s: State, list: List, from: nat, to: nat)
    returns (evicts: seq<Step>, m: map<nat, Entry>)
    requires 1 <= g.numLog && s.phase.BootInstalling? && s.phase.tail < NumLogged(s.header) <= LOG_MAX_SIZE
    requires to == s.header[1 + s.phase.tail] && from == LogBlock(g, s.phase.tail) && from != to
    requires BlockSector(from) < |s.disk| && BlockSector(to) < |s.disk|
    requires from !in s.cache && to !in s.cache && Represents(list, s.cache) && HoldersFlagged(list)
    ensures var data := SourceData(list, s.disk, from, to);
      RoundGives(g, s, evicts, m, InstallBlock, BlockSector(to), data,
                 ClearPinned(CopyRound(list, s.disk, from, to, data), to))
    ensures forall b :: b in Next(g, s.(cache := m), InstallBlock).cache ==> b in s.cache || b == from || b == to
  {
    evicts, m := BootFrees(g, s, list, from, to);
    InstallStepEffect(g, s.(cache := m), from, to);
  }

  /** What write_log needs to know about the block it copies. */
  lemma CopyReady(g: Geometry, init: Image, s: State)
    requires Inv(g, init, s) && s.phase.CopyingToLog?
    ensures 1 <= g.numLog && s.phase.tail < NumLogged(s.header) <= LOG_MAX_SIZE
    ensures var from, to := s.header[1 + s.phase.tail], LogBlock(g, s.phase.tail);
      && BlockSector(from) < |s.disk| && BlockSector(to) < |s.disk| && from != to
      && from in s.cache && s.cache[from].pinned && Unheld(s.cache, to)
  {
    hide Replay, Survivors, Stable, Current, History, Durability, Recoverable, Budget, NumOpen;
    assert Logged(s.header)[s.phase.tail] == s.header[1 + s.phase.tail];
  }

  /** What install_trans needs to know. */
  lemma InstallReady(g: Geometry, init: Image, s: State)
    requires Inv(g, init, s) && (s.phase.Installing? || s.phase.BootInstalling?)
    ensures 1 <= g.numLog && s.phase.tail < NumLogged(s.header) <= LOG_MAX_SIZE
    ensures var from, to := LogBlock(g, s.phase.tail), s.header[1 + s.phase.tail];
      && BlockSector(from) < |s.disk| && BlockSector(to) < |s.disk| && from != to
      && (s.phase.Installing? ==> to in s.cache && s.cache[to].pinned) && Unheld(s.cache, from)
  {
    hide Replay, Survivors, Stable, Current, History, Durability, Recoverable, Budget, NumOpen;
    assert Logged(s.header)[s.phase.tail] == s.header[1 + s.phase.tail];
  }

  /** While recovery installs entry `tail`, only blocks of earlier entries are
      cached. */
  ghost predicate OnlyEarlier(g: Geometry, h: Sector, tail: nat, cache: map<nat, Entry>) {
    forall b :: b in cache ==>
      exists i :: 0 <= i < tail && i < LOG_MAX_SIZE && (b == LogBlock(g, i) || b == h[1 + i])
  }

  lemma EarlierGrows(g: Geometry, h: Sector, tail: nat, c: map<nat, Entry>, c': map<nat, Entry>)
    requires tail < LOG_MAX_SIZE && OnlyEarlier(g, h, tail, c)
    requires forall b :: b in c' ==> b in c || b == LogBlock(g, tail) || b == h[1 + tail]
    ensures OnlyEarlier(g, h, tail + 1, c')
  {
  }

  lemma NotEarlier(g: Geometry, init: Image, s: State)
    requires Inv(g, init, s) && s.phase.BootInstalling? && OnlyEarlier(g, s.header, s.phase.tail, s.cache)
    ensures LogBlock(g, s.phase.tail) !in s.cache
    ensures s.phase.tail < LOG_MAX_SIZE && s.header[1 + s.phase.tail] !in s.cache
  {
  }

  /** From `s`, with list `list`, a run leads to `t`, with list `l`, writing
      `data` to `sector`. */
  ghost predicate Round(g: Geometry, init: Image, s: State, steps: seq<Step>, t: State,
                        sector: nat, data: Sector, l: List)
  {
    && 1 <= g.numLog && Legal(g, s, steps) && t == Exec(g, s, steps) && Inv(g, init, t)
    && sector < |s.disk| && t.disk == s.disk[sector := data]
    && t.header == s.header && t.ops == s.ops && t.outstanding == s.outstanding && t.mu == s.mu
    && t.committing == s.committing
    && t.issued == s.issued && t.mark == s.mark && t.durable == s.durable
    && Represents(l, t.cache) && HoldersFlagged(l) && SameHolders(s.cache, t.cache)
  }

  lemma GivesRound(g: Geometry, init: Image, s: State, evicts: seq<Step>, m: map<nat, Entry>, last: Step,
                   sector: nat, data: Sector, l: List)
    returns (steps: seq<Step>, t: State)
    requires Inv(g, init, s) && RoundGives(g, s, evicts, m, last, sector, data, l)
    requires last.CopyToLog? || last.InstallBlock?
    ensures t == Next(g, s.(cache := m), last)
    ensures Round(g, init, s, steps, t, sector, data, l)
  {
    steps := ThenStep(g, init, s, evicts, m, last);
    t := Next(g, s.(cache := m), last);
  }

  /** One round of write_log. */
  lemma CopyStep(g: Geometry, init: Image, s: State, list: List, from: nat, to: nat)
    returns (steps: seq<Step>, t: State)
    requires Inv(g, init, s) && s.phase.CopyingToLog? && Represents(list, s.cache) && HoldersFlagged(list)
    requires s.phase.tail < LOG_MAX_SIZE && from == s.header[1 + s.phase.tail] && to == LogBlock(g, s.phase.tail)
    requires Unheld(s.cache, from)
    ensures BlockSector(from) < |s.disk| && BlockSector(to) < |s.disk|
    ensures var data := SourceData(list, s.disk, from, to);
      Round(g, init, s, steps, t, BlockSector(to), data, CopyRound(list, s.disk, from, to, data))
    ensures t.phase == CopyPhase(NumLogged(s.header), s.phase.tail + 1)
  {
    hide Inv, Represents, Round, SourceData, CopyRound;
    CopyReady(g, init, s);
    var evicts, m := CopyGives(g, s, list, from, to);
    var data := SourceData(list, s.disk, from, to);
    steps, t := GivesRound(g, init, s, evicts, m, CopyToLog, BlockSector(to), data,
                           CopyRound(list, s.disk, from, to, data));
  }

  /** One round of install_trans, outside recovery. */
  lemma InstallStep(g: Geometry, init: Image, s: State, list: List, from: nat, to: nat)
    returns (steps: seq<Step>, t: State)
    requires Inv(g, init, s) && s.phase.Installing? && Represents(list, s.cache) && HoldersFlagged(list)
    requires s.phase.tail < LOG_MAX_SIZE && from == LogBlock(g, s.phase.tail) && to == s.header[1 + s.phase.tail]
    requires Unheld(s.cache, to)
    ensures BlockSector(from) < |s.disk| && BlockSector(to) < |s.disk|
    ensures var data := SourceData(list, s.disk, from, to);
      Round(g, init, s, steps, t, BlockSector(to), data, CopyRound(list, s.disk, from, to, data))
    ensures t.phase == InstallPhase(NumLogged(s.header), s.phase.tail + 1)
  {
    hide Inv, Represents, Round, SourceData, CopyRound;
    InstallReady(g, init, s);
    var evicts, m := InstallGives(g, s, list, from, to);
    var data := SourceData(list, s.disk, from, to);
    steps, t := GivesRound(g, init, s, evicts, m, InstallBlock, BlockSector(to), data,
                           CopyRound(list, s.disk, from, to, data));
  }

  /** One round of install_trans in recovery. */
  lemma BootStep(g: Geometry, init: Image, s: State, list: List, from: nat, to: nat)
    returns (steps: seq<Step>, t: State)
    requires Inv(g, init, s) && s.phase.BootInstalling? && Represents(list, s.cache) && HoldersFlagged(list)
    requires s.phase.tail < LOG_MAX_SIZE && from == LogBlock(g, s.phase.tail) && to == s.header[1 + s.phase.tail]
    requires OnlyEarlier(g, s.header, s.phase.tail, s.cache)
    ensures BlockSector(from) < |s.disk| && BlockSector(to) < |s.disk|
    ensures var data := SourceData(list, s.disk, from, to);
      Round(g, init, s, steps, t, BlockSector(to), data, ClearPinned(CopyRound(list, s.disk, from, to, data), to))
    ensures t.phase == BootPhase(NumLogged(s.header), s.phase.tail + 1)
    ensures OnlyEarlier(g, s.header, s.phase.tail + 1, t.cache)
  {
    hide Inv, Represents, Round, SourceData, CopyRound, ClearPinned, OnlyEarlier;
    InstallReady(g, init, s);
    NotEarlier(g, init, s);
    var evicts, m := BootGives(g, s, list, from, to);
    var data := SourceData(list, s.disk, from, to);
    steps, t := GivesRound(g, init, s, evicts, m, InstallBlock, BlockSector(to), data,
                           ClearPinned(CopyRound(list, s.disk, from, to, data), to));
    EarlierGrows(g, s.header, s.phase.tail, s.cache, t.cache);
  }

  // --------------------------------------------------- acquire and release

  /** Nobody holds a logged block. */
  ghost predicate LoggedFree(h: Sector, cache: map<nat, Entry>) {
    forall b :: b in Logged(h) ==> Unheld(cache, b)
  }

  lemma StillFree(h: Sector, c: map<nat, Entry>, c': map<nat, Entry>)
    requires LoggedFree(h, c) && SameHolders(c, c')
    ensures LoggedFree(h, c')
  {
  }

  lemma EntryFree(h: Sector, c: map<nat, Entry>, tail: nat)
    requires LoggedFree(h, c) && tail < NumLogged(h) <= LOG_MAX_SIZE
    ensures Unheld(c, h[1 + tail])
  {
    assert Logged(h)[tail] == h[1 + tail];
  }

  /** After a hit or a miss, a block that was held is gone only if it was evicted. */
  lemma HeldStayAcquired(list: List, m: map<nat, Entry>, disk: Disk, b: nat, who: nat)
    requires Represents(list, m) && BlockSector(b) < |disk|
    ensures b in m ==> HeldStay(list, Acquired(list, disk, b, who))
    ensures b !in m ==> (HeldStay(list, Acquired(list, disk, b, who)) <==> HeldStay(list, AfterEviction(list)))
  {
    hide AfterEviction, MoveToFront, IndexOf, Acquired;
    if b in m {
      assert Cached(list, b);
      Found(list, b);
      forall i | 0 <= i < |list| ensures Cached(Acquired(list, disk, b, who), list[i].no) {
        FoundKeeps(list, disk, b, who, i);
      }
    } else {
      NotCachedMap(list, m, b);
      AcquiredMissBy(list, disk, b, who);
      var e := CachedBlock(b, disk[BlockSector(b)], true, false, Some(who), false);
      forall i | 0 <= i < |list|
        ensures Cached(Acquired(list, disk, b, who), list[i].no) <==> Cached(AfterEviction(list), list[i].no)
      {
        CachedPush(AfterEviction(list), e, list[i].no);
      }
    }
  }

  lemma Found(list: List, b: nat)
    requires Cached(list, b)
    ensures IndexOf(list, b) < |list|
  {
    hide IndexOf;
    var j :| 0 <= j < |list| && list[j].no == b;
    assert IndexOf(list, b) <= j;
  }

  lemma AcquiredMissBy(list: List, disk: Disk, b: nat, who: nat)
    requires BlockSector(b) < |disk| && IndexOf(list, b) == |list|
    ensures Acquired(list, disk, b, who)
         == [CachedBlock(b, disk[BlockSector(b)], true, false, Some(who), false)] + AfterEviction(list)
  {
  }

  /** cache_acquire is a run of Evict steps and the Acquire step, as long as it
      evicts no block that somebody holds; the block it gives has the current
      contents. */
  lemma AcquireRefines(g: Geometry, init: Image, s: State, list: List, b: nat, who: nat)
    returns (steps: seq<Step>, t: State)
    requires Inv(g, init, s) && Represents(list, s.cache) && Booted(s.phase) && IsDataBlock(g, b) && !Held(s, b)
    requires BlockSector(b) < |s.disk| && HeldStay(list, Acquired(list, s.disk, b, who))
    ensures 1 <= g.numLog && Legal(g, s, steps) && t == Exec(g, s, steps) && Inv(g, init, t)
    ensures steps != [] && steps[|steps| - 1] == Acquire(who, b)
    ensures forall i :: 0 <= i < |steps| - 1 ==> steps[i].Evict?
    ensures Represents(Acquired(list, s.disk, b, who), t.cache)
    ensures t == s.(cache := t.cache) && b in t.cache && t.cache[b].holder == Some(who) && !t.cache[b].dirty
  {
    hide Legal, Exec, Represents, Acquired, HeldStay;
    var evicts, m := [], s.cache;
    NumLogOk(g, init, s);
    HeldStayAcquired(list, s.cache, s.disk, b, who);
    if b in s.cache {
      NoEvicts(g, s);
      Hit(list, s.cache, s.disk, b, who);
    } else {
      evicts, m := Miss(g, s, list, b, who);
    }
    AcquireEffect(g, init, s, m, b, who);
    steps := ThenStep(g, init, s, evicts, m, Acquire(who, b));
    t := Next(g, s.(cache := m), Acquire(who, b));
  }

  lemma NumLogOk(g: Geometry, init: Image, s: State)
    requires Inv(g, init, s)
    ensures 1 <= g.numLog
  {
  }

  lemma NoEvicts(g: Geometry, s: State)
    requires 1 <= g.numLog
    ensures Legal(g, s, []) && Exec(g, s, []) == s.(cache := s.cache)
  {
  }

  lemma AcquireEffect(g: Geometry, init: Image, s: State, m: map<nat, Entry>, b: nat, who: nat)
    requires Inv(g, init, s) && Booted(s.phase) && IsDataBlock(g, b) && !Held(s, b) && BlockSector(b) < |s.disk|
    requires 1 <= g.numLog && (b in s.cache ==> m == s.cache) && (b !in s.cache ==> b !in m)
    ensures Enabled(g, s.(cache := m), Acquire(who, b))
    ensures Next(g, s.(cache := m), Acquire(who, b))
         == s.(cache := m[b := if b in s.cache then s.cache[b].(holder := Some(who))
                               else Entry(s.disk[BlockSector(b)], false, Some(who), false)])
    ensures b in s.cache ==> !s.cache[b].dirty
  {
    hide Replay, Survivors, Stable, Current, Recorded, Accounting, Recoverable, Progress, Pending, CacheAgrees;
  }

  /** A clean cached block has the current contents. */
  lemma CleanIsCurrent(g: Geometry, init: Image, s: State, b: nat)
    requires Inv(g, init, s) && b in s.cache && !s.cache[b].dirty && IsDataBlock(g, b)
    ensures b < |Current(init, s)| && s.cache[b].data == Current(init, s)[b]
  {
    hide Replay, Survivors, Stable, Recorded, Accounting, Recoverable, Progress;
  }
}
