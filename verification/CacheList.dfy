/**
  The list of cached blocks (src/fs/cache.c): most recently acquired first.
  What cache_acquire does to it, as functions, and what that means.
 */
module CacheList {
  import opened LogMachine

  const EVICTION_THRESHOLD := 20

  /** `struct Block`.  `holder` stands for the sleep lock, `acquired` is the C
      flag of that name (set when the block is loaded, not when it is found in
      the cache), and `dirty` says that the holder has changed the data since
      the last sync. */
  datatype CachedBlock = CachedBlock(no: nat, data: Sector, acquired: bool, pinned: bool,
                                     holder: Option<nat>, dirty: bool)

  type List = seq<CachedBlock>

  predicate Evictable(e: CachedBlock) {
    !e.pinned && !e.acquired
  }

  ghost predicate Distinct(list: List) {
    forall i, j :: 0 <= i < j < |list| ==> list[i].no != list[j].no
  }

  predicate Cached(list: List, b: nat) {
    exists i :: 0 <= i < |list| && list[i].no == b
  }

  /** Position of block `b`, or the length of the list. */
  function IndexOf(list: List, b: nat): (i: nat)
    ensures i <= |list|
    ensures i < |list| ==> list[i].no == b
    ensures forall j :: 0 <= j < i ==> list[j].no != b
  {
    if list == [] || list[0].no == b then 0 else 1 + IndexOf(list[1..], b)
  }

  function NumEvictable(list: List): (n: nat)
    ensures n <= |list|
  {
    if list == [] then 0 else (if Evictable(list[0]) then 1 else 0) + NumEvictable(list[1..])
  }

  /** Remove up to `k` evictable blocks, beginning at the end of the list. */
  function EvictTail(list: List, k: int): (r: List)
    ensures |r| <= |list|
  {
    if list == [] || k <= 0 then list
    else
      var n := |list| - 1;
      if Evictable(list[n]) then EvictTail(list[..n], k - 1)
      else EvictTail(list[..n], k) + [list[n]]
  }

  function MoveToFront(list: List, i: nat): (r: List)
    requires i < |list|
    ensures |r| == |list|
  {
    [list[i]] + list[..i] + list[i + 1..]
  }

  /** The list as seen by a miss: how many blocks must go to get below the
      threshold. */
  function AfterEviction(list: List): List {
    EvictTail(list, |list| - EVICTION_THRESHOLD + 1)
  }

  /** cache_acquire, called by `who` for a block nobody holds. */
  function Acquired(list: List, disk: Disk, b: nat, who: nat): (r: List)
    requires BlockSector(b) < |disk|
  {
    var i := IndexOf(list, b);
    if i < |list| then MoveToFront(list[i := list[i].(holder := Some(who))], i)
    else [CachedBlock(b, disk[BlockSector(b)], true, false, Some(who), false)] + AfterEviction(list)
  }

  /** What is in front afterwards: a block that was found, with its flag as it was, or
      the block of the disk, flagged; and its holder is the caller. */
  lemma AcquiredIs(list: List, disk: Disk, b: nat, who: nat)
    requires BlockSector(b) < |disk|
    ensures var r := Acquired(list, disk, b, who);
      && r != [] && r[0].no == b && r[0].holder == Some(who)
      && (!Cached(list, b) ==> r[0] == CachedBlock(b, disk[0x20800 + b], true, false, Some(who), false))
      && (forall i :: 0 <= i < |list| && list[i].no == b && Distinct(list) ==>
            r == [list[i].(holder := Some(who))] + list[..i] + list[i + 1..])
  {
    hide AfterEviction;
    var k := IndexOf(list, b);
    if k < |list| {
      assert list[k := list[k].(holder := Some(who))][..k] == list[..k];
      assert list[k := list[k].(holder := Some(who))][k + 1..] == list[k + 1..];
    }
  }

  // ----------------------------------------------------- victims, exactly

  lemma {:induction false} NumEvictableAppend(a: List, b: List)
    ensures NumEvictable(a + b) == NumEvictable(a) + NumEvictable(b)
  {
    if a == [] {
      assert a + b == b;
    } else {
      assert (a + b)[1..] == a[1..] + b;
      NumEvictableAppend(a[1..], b);
    }
  }

  lemma {:induction false} CachedAppend(a: List, e: CachedBlock, b: nat)
    ensures Cached(a + [e], b) <==> Cached(a, b) || e.no == b
  {
    var r := a + [e];
    assert r[|a|] == e;
    assert forall i :: 0 <= i < |a| ==> r[i] == a[i];
  }

  /** The kept blocks are those of the list, in the same order, without some
      evictable ones. */
  lemma {:induction false} EvictTailKeeps(list: List, k: int)
    ensures forall i :: 0 <= i < |EvictTail(list, k)| ==> EvictTail(list, k)[i] in list
    ensures Distinct(list) ==> Distinct(EvictTail(list, k))
  {
    if list != [] && k > 0 {
      var n := |list| - 1;
      var k' := if Evictable(list[n]) then k - 1 else k;
      EvictTailKeeps(list[..n], k');
    }
  }

  /** Least recently acquired first: the block at position `i` is a victim
      exactly when it may be evicted and fewer than `k` blocks that may be
      evicted were acquired longer ago. */
  lemma {:induction false} VictimsAreOldest(list: List, k: int, i: nat)
    requires Distinct(list) && i < |list|
    ensures Cached(EvictTail(list, k), list[i].no)
       <==> !(Evictable(list[i]) && NumEvictable(list[i + 1..]) < k)
  {
    if k > 0 {
      var n := |list| - 1;
      var k' := if Evictable(list[n]) then k - 1 else k;
      EvictTailKeeps(list[..n], k');
      if i == n {
        assert list[i + 1..] == [];
      } else {
        assert list[i + 1..] == list[..n][i + 1..] + [list[n]];
        NumEvictableAppend(list[..n][i + 1..], [list[n]]);
        VictimsAreOldest(list[..n], k', i);
      }
      CachedAppend(EvictTail(list[..n], k'), list[n], list[i].no);
    }
  }

  /** Exactly as many blocks go as needed, or all that may. */
  lemma {:induction false} EvictTailLength(list: List, k: int)
    ensures |EvictTail(list, k)|
         == |list| - (if k <= 0 then 0 else if k <= NumEvictable(list) then k else NumEvictable(list))
    ensures 0 <= k ==>
      NumEvictable(EvictTail(list, k)) == if k <= NumEvictable(list) then NumEvictable(list) - k else 0
  {
    if list != [] && k > 0 {
      var n := |list| - 1;
      assert list == list[..n] + [list[n]];
      NumEvictableAppend(list[..n], [list[n]]);
      var k' := if Evictable(list[n]) then k - 1 else k;
      EvictTailLength(list[..n], k');
      NumEvictableAppend(EvictTail(list[..n], k'), [list[n]]);
    }
  }

  /** How many blocks are cached after a miss: no more than twenty, unless twenty or more
      were pinned or flagged as acquired, and then exactly those and the new one. */
  lemma CacheSize(list: List, disk: Disk, b: nat, who: nat)
    requires BlockSector(b) < |disk| && !Cached(list, b)
    ensures var r := Acquired(list, disk, b, who);
      && var kept := |list| - NumEvictable(list);
      && |r| == (if kept >= 20 then kept + 1 else if |list| >= 20 then 20 else |list| + 1)
      && (|r| > 20 ==> forall i :: 1 <= i < |r| ==> r[i].pinned || r[i].acquired)
  {
    hide EvictTail, NumEvictable, MoveToFront;
    EvictTailLength(list, |list| - EVICTION_THRESHOLD + 1);
    var kept := AfterEviction(list);
    if 1 + |kept| > EVICTION_THRESHOLD {
      NoneEvictable(kept);
    }
  }

  lemma {:induction false} NoneEvictable(list: List)
    requires NumEvictable(list) == 0
    ensures forall i :: 0 <= i < |list| ==> list[i].pinned || list[i].acquired
  {
    if list != [] {
      NoneEvictable(list[1..]);
      assert forall i :: 1 <= i < |list| ==> list[i] == list[1..][i - 1];
    }
  }

  lemma {:induction false} AllPinned(list: List)
    requires forall i :: 0 <= i < |list| ==> list[i].pinned
    ensures NumEvictable(list) == 0
  {
    if list != [] {
      AllPinned(list[1..]);
    }
  }

  /** Blocks 0, .., 19, all pinned. */
  function TwentyPinned(): List {
    seq(EVICTION_THRESHOLD, i requires 0 <= i < EVICTION_THRESHOLD => CachedBlock(i, ZeroSector(), false, true, None, false))
  }

  /** Blocks stay pinned after a commit, so the cache can outgrow its threshold. */
  lemma CacheOutgrowsThreshold(disk: Disk)
    requires BlockSector(EVICTION_THRESHOLD) < |disk|
    ensures Distinct(TwentyPinned()) && |Acquired(TwentyPinned(), disk, EVICTION_THRESHOLD, 1)| == EVICTION_THRESHOLD + 1
  {
    AllPinned(TwentyPinned());
    CacheSize(TwentyPinned(), disk, EVICTION_THRESHOLD, 1);
  }

  lemma FrontAt(list: List, i: nat, k: nat)
    requires i < |list| && k < |list|
    ensures MoveToFront(list, i)[k] == list[if k == 0 then i else if k <= i then k - 1 else k]
  {
  }

  /** At most one cached copy per block number, after any acquire. */
  lemma AcquireKeepsDistinct(list: List, disk: Disk, b: nat, who: nat)
    requires BlockSector(b) < |disk| && Distinct(list)
    ensures Distinct(Acquired(list, disk, b, who))
    ensures Acquired(list, disk, b, who)[0].no == b
  {
    var i := IndexOf(list, b);
    if i == |list| {
      EvictTailKeeps(list, |list| - EVICTION_THRESHOLD + 1);
    } else {
      FrontDistinct(list[i := list[i].(holder := Some(who))], i);
    }
  }

  lemma FrontDistinct(list: List, i: nat)
    requires Distinct(list) && i < |list|
    ensures Distinct(MoveToFront(list, i))
  {
    var l := MoveToFront(list, i);
    forall k, j | 0 <= k < j < |l| ensures l[k].no != l[j].no {
      FrontAt(list, i, k);
      FrontAt(list, i, j);
    }
  }

  // ------------------------------------------- a held block can be evicted

  /** The block at position `i` outlives the acquire of `b`, exactly when one of
      these can be seen beforehand: `b` is cached, the cache is small, the block
      is pinned or was loaded by its holder, or enough older blocks can go. */
  lemma SurvivesAcquireIff(list: List, disk: Disk, b: nat, who: nat, i: nat)
    requires BlockSector(b) < |disk| && Distinct(list) && i < |list|
    ensures Cached(Acquired(list, disk, b, who), list[i].no) <==>
      || Cached(list, b)
      || |list| < EVICTION_THRESHOLD
      || list[i].pinned
      || list[i].acquired
      || NumEvictable(list[i + 1..]) > |list| - EVICTION_THRESHOLD
  {
    hide EvictTail, NumEvictable;
    if IndexOf(list, b) < |list| {
      FoundKeeps(list, disk, b, who, i);
    } else {
      VictimsAreOldest(list, |list| - EVICTION_THRESHOLD + 1, i);
      CachedPush(AfterEviction(list), CachedBlock(b, disk[BlockSector(b)], true, false, Some(who), false), list[i].no);
    }
  }

  lemma FoundKeeps(list: List, disk: Disk, b: nat, who: nat, i: nat)
    requires BlockSector(b) < |disk| && i < |list| && IndexOf(list, b) < |list|
    ensures Cached(Acquired(list, disk, b, who), list[i].no) && Cached(list, b)
  {
    hide AfterEviction, MoveToFront, IndexOf;
    var p := IndexOf(list, b);
    var l := list[p := list[p].(holder := Some(who))];
    var k := if i < p then 1 + i else if i == p then 0 else i;
    FrontAt(l, p, k);
    assert MoveToFront(l, p)[k].no == list[i].no;
  }

  lemma CachedPush(list: List, e: CachedBlock, b: nat)
    requires e.no != b
    ensures Cached([e] + list, b) <==> Cached(list, b)
  {
    var l := [e] + list;
    assert forall j :: 0 <= j < |list| ==> l[1 + j] == list[j];
    if Cached(list, b) {
      var j :| 0 <= j < |list| && list[j].no == b;
      assert l[1 + j].no == b;
    }
  }

  /** Releasing block `b`. */
  function Released(list: List, b: nat): List {
    var i := IndexOf(list, b);
    if i < |list| then list[i := list[i].(acquired := false, holder := None)] else list
  }

  /** cache_release clears the flag and the holder of the block, and nothing else. */
  lemma ReleasedIs(list: List, b: nat, i: nat)
    requires Distinct(list) && i < |list|
    ensures var r := Released(list, b);
      |r| == |list| && r[i] == if list[i].no == b then list[i].(acquired := false, holder := None) else list[i]
  {
    assert IndexOf(list, b) < |list| ==> list[IndexOf(list, b)].no == b;
  }

  /** The cache after thread 1 has loaded and released block `b` and thread 7
      has then found it. */
  function FoundAgain(disk: Disk, b: nat): List
    requires BlockSector(b) < |disk|
  {
    Acquired(Released(Acquired([], disk, b, 1), b), disk, b, 7)
  }

  /** Thread 7 finds block 0; then blocks 1, ..., n are loaded and released. */
  function Churn(disk: Disk, n: nat): List
    requires BlockSector(n) < |disk|
  {
    if n == 0 then FoundAgain(disk, n) else Released(Acquired(Churn(disk, n - 1), disk, n, 1), n)
  }

  ghost predicate ChurnShape(l: List, n: nat) {
    && |l| == n + 1
    && (forall i :: 0 <= i <= n ==> l[i].no == n - i && Evictable(l[i]))
    && l[n].holder == Some(7)
  }

  lemma ChurnStart(disk: Disk, b: nat)
    requires BlockSector(b) < |disk|
    ensures var l := FoundAgain(disk, b);
      |l| == 1 && l[0].no == b && Evictable(l[0]) && l[0].holder == Some(7)
  {
    var a := Acquired([], disk, b, 1);
    assert a == [CachedBlock(b, disk[BlockSector(b)], true, false, Some(1), false)];
    var r := Released(a, b);
    assert r == [CachedBlock(b, disk[BlockSector(b)], false, false, None, false)];
    assert IndexOf(r, b) == 0;
  }

  lemma ChurnStep(disk: Disk, l: List, n: nat)
    requires 0 < n < EVICTION_THRESHOLD && BlockSector(n) < |disk| && ChurnShape(l, n - 1)
    ensures ChurnShape(Released(Acquired(l, disk, n, 1), n), n)
  {
    assert AfterEviction(l) == l;
    assert IndexOf(l, n) == |l|;
    var a := Acquired(l, disk, n, 1);
    assert a[0].no == n;
    assert IndexOf(a, n) == 0;
    assert forall i :: 1 <= i <= n ==> a[i] == l[i - 1];
  }

  lemma {:induction false} ChurnHasShape(disk: Disk, n: nat)
    requires n < EVICTION_THRESHOLD && BlockSector(n) < |disk|
    ensures ChurnShape(Churn(disk, n), n)
  {
    hide Acquired, Released, FoundAgain;
    if n == 0 {
      ChurnStart(disk, n);
    } else {
      ChurnHasShape(disk, n - 1);
      ChurnStep(disk, Churn(disk, n - 1), n);
    }
  }

  /** Twenty-one blocks are enough to evict a block while thread 7 holds it. */
  lemma HeldBlockIsEvicted(disk: Disk, n: nat)
    requires n + 1 == EVICTION_THRESHOLD && BlockSector(n + 1) < |disk|
    ensures var l := Churn(disk, n);
      && |l| == n + 1 && l[n].no == 0 && l[n].holder == Some(7)
      && !Cached(Acquired(l, disk, n + 1, 1), 0)
  {
    ChurnHasShape(disk, n);
    var l := Churn(disk, n);
    assert l[n].no == 0 && l[n].holder == Some(7);
    assert l[n + 1..] == [];
    SurvivesAcquireIff(l, disk, n + 1, 1, n);
  }
}
