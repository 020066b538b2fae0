/**
  The slab allocator (src/core/arena.c) with the bitmaps of src/common/bitmap.h.
  A page is 4096 bytes: a header of 64 bytes, then objects of one size.
 */
module Arena {
  import opened Bits
  import opened CircularList

  const PAGE_SIZE := 4096
  const HEADER := 64
  const CAPACITY := 4032
  const MIN_OBJECT_SIZE := 16
  const BITS := 256
  const CELLS := 4
  const BITS_PER_CELL := 64

  // ------------------------------------------------------------ bitmaps

  type Cells = s: seq<nat> | |s| == CELLS witness [0, 0, 0, 0]

  /** bitmap_get */
  predicate BitmapGet(cells: Cells, index: nat)
    requires index < BITS
  {
    Bit(cells[index / BITS_PER_CELL], index % BITS_PER_CELL)
  }

  /** bitmap_set */
  function BitmapSet(cells: Cells, index: nat): Cells
    requires index < BITS
  {
    var c := index / BITS_PER_CELL;
    if BitmapGet(cells, index) then cells else cells[c := WithBit(cells[c], index % BITS_PER_CELL)]
  }

  /** bitmap_clear */
  function BitmapClear(cells: Cells, index: nat): Cells
    requires index < BITS
  {
    var c := index / BITS_PER_CELL;
    if BitmapGet(cells, index) then cells[c := WithoutBit(cells[c], index % BITS_PER_CELL)] else cells
  }

  /** Setting or clearing a bit changes that bit and no other. */
  lemma BitmapLaws(cells: Cells, i: nat, j: nat)
    requires i < BITS && j < BITS
    ensures BitmapGet(BitmapSet(cells, i), j) <==> j == i || BitmapGet(cells, j)
    ensures BitmapGet(BitmapClear(cells, i), j) <==> j != i && BitmapGet(cells, j)
  {
    hide Bit, WithBit, WithoutBit;
    var c := i / BITS_PER_CELL;
    SameBit(i, j);
    if j / BITS_PER_CELL == c {
      if BitmapGet(cells, i) {
        BitsAfterClear(cells[c], i % BITS_PER_CELL, j % BITS_PER_CELL);
      } else {
        BitsAfterSet(cells[c], i % BITS_PER_CELL, j % BITS_PER_CELL);
      }
    }
  }

  lemma SameBit(i: nat, j: nat)
    ensures i == j <==> i / BITS_PER_CELL == j / BITS_PER_CELL && i % BITS_PER_CELL == j % BITS_PER_CELL
  {
  }

  /** The used slots of a page. */
  function Slots(cells: Cells, n: nat): set<nat>
    requires n <= BITS
  {
    set i | 0 <= i < n && BitmapGet(cells, i)
  }

  lemma SlotsAfterSet(cells: Cells, n: nat, i: nat)
    requires i < n <= BITS && !BitmapGet(cells, i)
    ensures Slots(BitmapSet(cells, i), n) == Slots(cells, n) + {i}
    ensures |Slots(BitmapSet(cells, i), n)| == |Slots(cells, n)| + 1
  {
    hide BitmapGet, BitmapSet;
    forall j | 0 <= j < n ensures BitmapGet(BitmapSet(cells, i), j) <==> j == i || BitmapGet(cells, j) {
      BitmapLaws(cells, i, j);
    }
  }

  lemma SlotsAfterClear(cells: Cells, n: nat, i: nat)
    requires i < n <= BITS && BitmapGet(cells, i)
    ensures Slots(BitmapClear(cells, i), n) == Slots(cells, n) - {i}
    ensures |Slots(BitmapClear(cells, i), n)| == |Slots(cells, n)| - 1
  {
    hide BitmapGet, BitmapClear;
    forall j | 0 <= j < n ensures BitmapGet(BitmapClear(cells, i), j) <==> j != i && BitmapGet(cells, j) {
      BitmapLaws(cells, i, j);
    }
  }

  lemma {:induction false} SlotCount(cells: Cells, n: nat)
    requires n <= BITS
    ensures |Slots(cells, n)| <= n
    ensures |Slots(cells, n)| == n <==> forall i :: 0 <= i < n ==> BitmapGet(cells, i)
  {
    hide BitmapGet;
    if n > 0 {
      SlotCount(cells, n - 1);
      var s := Slots(cells, n - 1);
      assert Slots(cells, n) == if BitmapGet(cells, n - 1) then s + {n - 1} else s;
    } else {
      assert Slots(cells, n) == {};
    }
  }

  // ---------------------------------------------------------- addresses

  /** The address of slot `i` of page `p`. */
  function Address(p: Ptr, i: nat, size: nat): nat {
    p + HEADER + i * size
  }

  /** get_container_page */
  function ContainerPage(a: nat): Ptr {
    a - a % PAGE_SIZE
  }

  lemma SlotFits(i: nat, n: nat, size: nat)
    requires MIN_OBJECT_SIZE <= size <= CAPACITY && n == CAPACITY / size && i < n
    ensures 0 <= i * size && i * size + size <= CAPACITY && n <= BITS
  {
    Floor(n, size);
    Times(i + 1, n, size);
    NextMultiple(i, size);
    MaxCountBound(size);
  }

  lemma Floor(n: nat, size: nat)
    requires 0 < size && n == CAPACITY / size
    ensures n * size <= CAPACITY
  {
  }

  lemma Times(a: nat, b: nat, size: nat)
    requires a <= b
    ensures a * size <= b * size
  {
  }

  lemma NextMultiple(i: nat, size: nat)
    ensures (i + 1) * size == i * size + size
  {
  }

  /** Rounding an object address down finds its page. */
  lemma RoundDownFindsPage(p: Ptr, i: nat, n: nat, size: nat)
    requires p % PAGE_SIZE == 0 && MIN_OBJECT_SIZE <= size <= CAPACITY && n == CAPACITY / size && i < n
    ensures ContainerPage(Address(p, i, size)) == p
    ensures p + HEADER <= Address(p, i, size) && Address(p, i, size) + size <= p + PAGE_SIZE
  {
    SlotFits(i, n, size);
    WithinPage(p, HEADER + i * size);
  }

  lemma WithinPage(p: nat, d: nat)
    requires p % PAGE_SIZE == 0 && d < PAGE_SIZE
    ensures (p + d) - (p + d) % PAGE_SIZE == p && (p + d) % PAGE_SIZE == d
  {
    var q := p / PAGE_SIZE;
    assert p + d == PAGE_SIZE * q + d;
  }

  /** What free_object computes from the address of an object is its slot. */
  lemma FreeFindsSlot(p: Ptr, i: nat, n: nat, size: nat)
    requires p % PAGE_SIZE == 0 && MIN_OBJECT_SIZE <= size <= CAPACITY && n == CAPACITY / size && i < n
    ensures var addr := Address(p, i, size); var offset := addr - ContainerPage(addr) - HEADER;
      HEADER <= addr % PAGE_SIZE && offset % size == 0 && offset / size == i
  {
    RoundDownFindsPage(p, i, n, size);
    Multiple(i, size);
  }

  lemma Multiple(i: nat, size: nat)
    requires size > 0
    ensures i * size % size == 0 && i * size / size == i
  {
    var q, r := i * size / size, i * size % size;
    assert i * size == q * size + r;
    if q < i {
      Times(q + 1, i, size);
      NextMultiple(q, size);
    } else if q > i {
      Times(i + 1, q, size);
      NextMultiple(i, size);
    }
  }

  /** The objects in two different slots do not overlap. */
  lemma SlotsDisjoint(p: Ptr, i: nat, q: Ptr, j: nat, n: nat, size: nat)
    requires p % PAGE_SIZE == 0 && q % PAGE_SIZE == 0 && (p, i) != (q, j)
    requires MIN_OBJECT_SIZE <= size <= CAPACITY && n == CAPACITY / size && i < n && j < n
    ensures Address(p, i, size) + size <= Address(q, j, size) || Address(q, j, size) + size <= Address(p, i, size)
  {
    RoundDownFindsPage(p, i, n, size);
    RoundDownFindsPage(q, j, n, size);
    if p == q {
      if i < j {
        Ordered(i, j, size);
      } else {
        Ordered(j, i, size);
      }
    } else {
      DifferentPages(p, q);
    }
  }

  lemma Ordered(i: nat, j: nat, size: nat)
    requires i < j
    ensures i * size + size <= j * size
  {
    Times(i + 1, j, size);
    NextMultiple(i, size);
  }

  lemma DifferentPages(p: nat, q: nat)
    requires p % PAGE_SIZE == 0 && q % PAGE_SIZE == 0 && p != q
    ensures p + PAGE_SIZE <= q || q + PAGE_SIZE <= p
  {
    var a, b := p / PAGE_SIZE, q / PAGE_SIZE;
    assert p == PAGE_SIZE * a && q == PAGE_SIZE * b;
  }

  // -------------------------------------------------------------- pages

  /** The slots that hold objects. */
  function Live(ring: seq<Ptr>, used: map<Ptr, Cells>, n: nat): set<(Ptr, nat)>
    requires n <= BITS
  {
    set p, i | p in ring && p in used && 0 <= i < n && BitmapGet(used[p], i) :: (p, i)
  }

  /** The count of a page is the number of its used slots. */
  ghost predicate PageOk(p: Ptr, used: map<Ptr, Cells>, count: map<Ptr, nat>, n: nat)
    requires n <= BITS
  {
    && p in used && p in count && p % PAGE_SIZE == 0 && count[p] == |Slots(used[p], n)|
    && forall i :: n <= i < BITS ==> !BitmapGet(used[p], i)
  }

  ghost predicate PagesOk(ring: seq<Ptr>, used: map<Ptr, Cells>, count: map<Ptr, nat>, n: nat)
    requires n <= BITS
  {
    forall k :: 0 <= k < |ring| ==> PageOk(ring[k], used, count, n)
  }

  predicate Full(p: Ptr, count: map<Ptr, nat>, n: nat) {
    p in count && count[p] >= n
  }

  /** The pages with a free slot come first. */
  ghost predicate FreeFirst(ring: seq<Ptr>, count: map<Ptr, nat>, n: nat) {
    forall i, j :: 0 <= i < j < |ring| && Full(ring[i], count, n) ==> Full(ring[j], count, n)
  }

  /** The list after its head moved on by one page. */
  function Turned(ring: seq<Ptr>): seq<Ptr>
    requires ring != []
  {
    ring[1..] + [ring[0]]
  }

  /** The list after page `k` was moved to the front. */
  function Fronted(ring: seq<Ptr>, k: nat): seq<Ptr>
    requires k < |ring|
  {
    [ring[k]] + (ring[..k] + ring[k + 1..])
  }

  class Arena {
    const objectSize: nat
    const maxCount: nat
    const links: Links
    var pages: Ptr
    var used: map<Ptr, Cells>
    var count: map<Ptr, nat>
    var numObjects: nat
    var numPages: nat
    /** The pages in list order, from `pages` on. */
    ghost var ring: seq<Ptr>

    ghost predicate Sized() {
      MIN_OBJECT_SIZE <= objectSize <= CAPACITY && maxCount == CAPACITY / objectSize && 0 < maxCount <= BITS
    }

    ghost predicate Valid()
      reads this, links
    {
      && Sized() && Ring(links.next, links.prev, ring) && pages == (if ring == [] then 0 else ring[0])
      && PagesOk(ring, used, count, maxCount) && FreeFirst(ring, count, maxCount)
      && numPages == |ring| && numObjects == |Live(ring, used, maxCount)|
    }

    ghost function Objects(): set<(Ptr, nat)>
      reads this
      requires Sized()
    {
      Live(ring, used, maxCount)
    }

    /** init_arena */
    constructor (size: nat)
      requires 16 <= size <= 4032
      ensures Valid() && fresh(links) && objectSize == size && ring == [] && numObjects == 0
    {
      objectSize := size;
      maxCount := CAPACITY / size;
      links := new Links();
      pages, used, count, numObjects, numPages, ring := 0, map[], map[], 0, 0, [];
      new;
      MaxCountBound(size);
    }

    /** add_page, for the page that the allocator returned. */
    method AddPage(page: Ptr)
      requires Valid() && page != 0 && page % PAGE_SIZE == 0 && page !in ring
      modifies this, links
      ensures Valid() && ring == [page] + old(ring) && Objects() == old(Objects()) && numObjects == old(numObjects)
      ensures page in count && count[page] == 0
    {
      hide Ring, FreeFirst, Live, BitmapGet, PagesOk;
      links.InitListNode(page);
      KeepRing(old(links.next), old(links.prev), links.next, links.prev, ring, page);
      EmptyPage(ring, used, count, maxCount, page);
      used := used[page := [0, 0, 0, 0]];
      count := count[page := 0];
      if pages != 0 {
        NotInRing(ring, page);
        var head := links.MergeList(page, pages, [page], ring);
        assert Joined([page], ring) == [page] + ring;
        pages := head;
      } else {
        DistinctRing(old(links.next), old(links.prev), ring);
        assert [page] + ring == [page];
        pages := page;
      }
      ring := [page] + ring;
      numPages := numPages + 1;
    }

    /** alloc_object, where `page` is what the allocator returns if it is asked.  It
        is asked exactly when every slot of every page is in use.  The object is a
        slot that was free. */
    method AllocObject(page: Ptr) returns (ok: bool, addr: nat, asked: bool, ghost p: Ptr, ghost i: nat)
      requires Valid() && page !in ring
      modifies this, links
      ensures asked <==> old(forall p, i :: p in ring && 0 <= i < maxCount ==> (p, i) in Objects())
      ensures ok <==> !asked || (page != 0 && page % PAGE_SIZE == 0)
      ensures ok ==>
        && Valid() && numObjects == old(numObjects) + 1
        && addr == Address(p, i, objectSize) && p in ring && i < maxCount
        && (p, i) !in old(Objects()) && Objects() == old(Objects()) + {(p, i)}
        && multiset(ring) == multiset(old(ring)) + if asked then multiset{page} else multiset{}
    {
      hide Ring, FreeFirst, Live, BitmapGet, PagesOk, Slots;
      addr, p, i := 0, 0, 0;
      WhenFull(ring, used, count, maxCount);
      DistinctRing(links.next, links.prev, ring);
      asked := pages == 0 || count[pages] >= maxCount;
      if asked {
        if page == 0 || page % PAGE_SIZE != 0 {
          return false, addr, asked, p, i;
        }
        AddPage(page);
      }
      addr, p, i := TakeFromHead();
      ok := true;
    }

    /** The slot search in the first page, which has a free slot. */
    method TakeFromHead() returns (addr: nat, ghost p: Ptr, ghost i: nat)
      requires Valid() && ring != [] && ring[0] in count && count[ring[0]] < maxCount
      modifies this
      ensures Valid() && numObjects == old(numObjects) + 1
      ensures addr == Address(p, i, objectSize) && p in ring && i < maxCount
      ensures (p, i) !in old(Objects()) && Objects() == old(Objects()) + {(p, i)}
      ensures multiset(ring) == multiset(old(ring))
    {
      hide Ring, FreeFirst, Live, BitmapGet, PagesOk, Slots, BitmapSet;
      var cur := pages;
      HeadPage(ring, used, count, maxCount);
      var index := FindFree(used[cur], maxCount);
      addr := Address(cur, index, objectSize);
      p, i := cur, index;
      ghost var c1 := count;
      TakeSlot(links.next, links.prev, ring, used, count, maxCount, index);
      used := used[cur := BitmapSet(used[cur], index)];
      count := count[cur := count[cur] + 1];
      numObjects := numObjects + 1;
      HeadCounted(links.next, links.prev, ring, c1, count, maxCount);
      if count[cur] >= maxCount {
        RingNode(links.next, links.prev, ring, 0);
        TurnRing(links.next, links.prev, ring);
        TurnedMembers(ring);
        SameMembers(ring, Turned(ring), used, count, maxCount);
        pages := links.next[cur];
        ring := Turned(ring);
      }
    }

    /** free_object, for an address behind the header of a page of the arena.  It
        panics exactly when no object is at that address. */
    method FreeObject(addr: nat) returns (ok: bool)
      requires Valid() && ContainerPage(addr) in ring && HEADER <= addr % PAGE_SIZE
      modifies this, links
      ensures var page := ContainerPage(addr); var offset := addr - page - HEADER;
        ok <==> offset % objectSize == 0 && (page, offset / objectSize) in old(Objects())
      ensures Valid() && multiset(ring) == multiset(old(ring))
      ensures !ok ==> ring == old(ring) && used == old(used)
      ensures ok ==>
        var page := ContainerPage(addr); var index := (addr - page - HEADER) / objectSize;
        && numObjects == old(numObjects) - 1 && addr == Address(page, index, objectSize)
        && Objects() == old(Objects()) - {(page, index)}
    {
      hide Ring, FreeFirst, Live, BitmapGet, PagesOk, Slots, ContainerPage, Address;
      SlotOfAddress(addr, objectSize);
      var page := ContainerPage(addr);
      var offset := addr - page - HEADER;
      var index := offset / objectSize;
      WhoIsLive(ring, used, count, maxCount, page, index);
      if offset % objectSize != 0 {
        return false;
      }
      if !BitmapGet(used[page], index) {
        return false;
      }
      GiveBack(page, index);
      return true;
    }

    /** The end of free_object: the bit is cleared and the page moves to the front. */
    method GiveBack(page: Ptr, index: nat)
      requires Valid() && page in ring && page in used && index < maxCount && BitmapGet(used[page], index)
      modifies this, links
      ensures Valid() && multiset(ring) == multiset(old(ring)) && numObjects == old(numObjects) - 1
      ensures Objects() == old(Objects()) - {(page, index)}
    {
      hide Ring, FreeFirst, Live, BitmapGet, PagesOk, Slots, BitmapClear;
      ghost var c1 := count;
      GiveSlot(ring, used, count, maxCount, page, index);
      used := used[page := BitmapClear(used[page], index)];
      count := count[page := count[page] - 1];
      numObjects := numObjects - 1;
      MovePageToHead(page, c1);
    }

    /** move_page_to_head, for a page that just lost an object. */
    method MovePageToHead(page: Ptr, ghost before: map<Ptr, nat>)
      requires Sized() && Ring(links.next, links.prev, ring) && pages == (if ring == [] then 0 else ring[0])
      requires PagesOk(ring, used, count, maxCount) && FreeFirst(ring, before, maxCount)
      requires page in ring && page in before && before[page] > 0 && count == before[page := before[page] - 1]
      requires before[page] <= maxCount
      requires numPages == |ring| && numObjects == |Live(ring, used, maxCount)|
      modifies this`pages, this`ring, links
      ensures Valid() && multiset(ring) == multiset(old(ring)) && Objects() == old(Objects())
      ensures exists k ::
        0 <= k < |old(ring)| && old(ring)[k] == page && ring == [page] + (old(ring)[..k] + old(ring)[k + 1..])
    {
      hide Ring, FreeFirst, Live, BitmapGet, PagesOk, Slots;
      ghost var k := IndexOf(ring, page);
      FrontedPages(links.next, links.prev, ring, used, before, count, maxCount, k);
      if pages != page {
        Requeue(page, pages, ring, k);
        pages := page;
      }
      ring := Fronted(ring, k);
    }

    /** Detaching node `k` of a ring and putting it in front of the first node. */
    method Requeue(page: Ptr, head: Ptr, ghost s: seq<Ptr>, ghost k: nat)
      requires Ring(links.next, links.prev, s) && 0 < k < |s| && s[k] == page && s[0] == head
      modifies links
      ensures Ring(links.next, links.prev, Fronted(s, k))
    {
      hide Ring;
      ghost var turned := s[k..] + s[..k];
      ghost var others := s[..k] + s[k + 1..];
      DistinctRing(links.next, links.prev, s);
      Rotate(links.next, links.prev, s, k);
      var r := links.DetachFromList(page, turned);
      ghost var rest := turned[1..];
      Rotate(links.next, links.prev, rest, |rest| - k);
      assert rest[|rest| - k..] + rest[..|rest| - k] == others;
      r := links.MergeList(page, head, [page], others);
      assert Joined([page], others) == [page] + others;
    }
  }

  /** The first clear bit. */
  method FindFree(cells: Cells, n: nat) returns (index: nat)
    requires n <= BITS && |Slots(cells, n)| < n
    ensures index < n && !BitmapGet(cells, index)
    ensures forall j :: 0 <= j < index ==> BitmapGet(cells, j)
  {
    hide BitmapGet, Slots;
    SlotCount(cells, n);
    index := 0;
    while BitmapGet(cells, index)
      invariant 0 <= index < n && forall j :: 0 <= j < index ==> BitmapGet(cells, j)
      decreases n - index
    {
      index := index + 1;
    }
  }

  // -------------------------------------------------------------- lemmas

  lemma MaxCountBound(size: nat)
    requires MIN_OBJECT_SIZE <= size <= CAPACITY
    ensures 0 < CAPACITY / size <= BITS
  {
    var n := CAPACITY / size;
    Floor(n, size);
    Times(MIN_OBJECT_SIZE, size, n);
    if n == 0 {
      Remainder(size);
    }
  }

  lemma Remainder(size: nat)
    requires 0 < size <= CAPACITY
    ensures CAPACITY / size > 0
  {
  }

  lemma KeepRing(next: map<Ptr, Ptr>, prev: map<Ptr, Ptr>, next': map<Ptr, Ptr>, prev': map<Ptr, Ptr>, s: seq<Ptr>,
                 page: Ptr)
    requires Ring(next, prev, s) && page !in s
    requires next' == next[page := page] && prev' == prev[page := page]
    ensures Ring(next', prev', s)
  {
    forall i | 0 <= i < |s| ensures Linked(next', prev', s[i], s[After(i, |s|)]) {
      assert Linked(next, prev, s[i], s[After(i, |s|)]) && s[i] in s && s[After(i, |s|)] in s;
    }
  }

  lemma NotInRing(s: seq<Ptr>, page: Ptr)
    requires page !in s
    ensures Apart([page], s)
  {
    forall j | 0 <= j < |s| ensures page != s[j] {
      assert s[j] in s;
    }
  }

  lemma {:induction false} ZeroBits(k: nat)
    ensures !Bit(0, k)
  {
    if k > 0 {
      ZeroBits(k - 1);
    }
  }

  /** A new empty page in front. */
  lemma EmptyPage(ring: seq<Ptr>, used: map<Ptr, Cells>, count: map<Ptr, nat>, n: nat, page: Ptr)
    requires 0 < n <= BITS && PagesOk(ring, used, count, n) && FreeFirst(ring, count, n)
    requires page !in ring && page % PAGE_SIZE == 0
    ensures var ring', used', count' := [page] + ring, used[page := [0, 0, 0, 0]], count[page := 0];
      && PagesOk(ring', used', count', n) && FreeFirst(ring', count', n)
      && Live(ring', used', n) == Live(ring, used, n)
  {
    hide BitmapGet, Slots;
    var zero: Cells := [0, 0, 0, 0];
    var ring', used', count' := [page] + ring, used[page := zero], count[page := 0];
    EmptyCells(n);
    forall k | 0 <= k < |ring'|
      ensures PageOk(ring'[k], used', count', n)
      ensures k > 0 ==> Full(ring'[k], count', n) == Full(ring[k - 1], count, n)
    {
      if k > 0 {
        assert ring'[k] == ring[k - 1] && ring[k - 1] in ring;
      }
    }
    forall i, j | 0 <= i < j < |ring'| && Full(ring'[i], count', n) ensures Full(ring'[j], count', n) {
      assert i > 0 && Full(ring[i - 1], count, n);
    }
  }

  lemma EmptyCells(n: nat)
    requires n <= BITS
    ensures Slots([0, 0, 0, 0], n) == {} && forall i :: 0 <= i < BITS ==> !BitmapGet([0, 0, 0, 0], i)
  {
    forall i | 0 <= i < BITS ensures !BitmapGet([0, 0, 0, 0], i) {
      ZeroBits(i % BITS_PER_CELL);
    }
  }

  /** When the head is full, or there is none, every slot is in use. */
  lemma WhenFull(ring: seq<Ptr>, used: map<Ptr, Cells>, count: map<Ptr, nat>, n: nat)
    requires 0 < n <= BITS && PagesOk(ring, used, count, n) && FreeFirst(ring, count, n)
    ensures ring != [] ==> ring[0] in count && ring[0] in used
    ensures (ring == [] || count[ring[0]] >= n) <==> forall p, i :: p in ring && 0 <= i < n ==> (p, i) in Live(ring, used, n)
  {
    hide BitmapGet, Slots;
    if ring != [] {
      assert PageOk(ring[0], used, count, n) && ring[0] in ring;
      if count[ring[0]] >= n {
        forall p, i | p in ring && 0 <= i < n ensures (p, i) in Live(ring, used, n) {
          var k :| 0 <= k < |ring| && ring[k] == p;
          assert PageOk(ring[k], used, count, n) && Full(ring[0], count, n);
          SlotCount(used[p], n);
        }
      } else {
        SlotCount(used[ring[0]], n);
        var i :| 0 <= i < n && !BitmapGet(used[ring[0]], i);
        assert (ring[0], i) !in Live(ring, used, n);
      }
    }
  }

  lemma HeadPage(ring: seq<Ptr>, used: map<Ptr, Cells>, count: map<Ptr, nat>, n: nat)
    requires n <= BITS && PagesOk(ring, used, count, n) && ring != []
    ensures ring[0] in ring && ring[0] in used && ring[0] in count && count[ring[0]] == |Slots(used[ring[0]], n)|
  {
    assert PageOk(ring[0], used, count, n);
  }

  /** One more object in the first page. */
  lemma TakeSlot(next: map<Ptr, Ptr>, prev: map<Ptr, Ptr>, ring: seq<Ptr>, used: map<Ptr, Cells>,
                 count: map<Ptr, nat>, n: nat, i: nat)
    requires ring != [] && i < n <= BITS && Ring(next, prev, ring) && PagesOk(ring, used, count, n)
    requires ring[0] in used && !BitmapGet(used[ring[0]], i)
    ensures ring[0] in count
    ensures var p := ring[0]; var used', count' := used[p := BitmapSet(used[p], i)], count[p := count[p] + 1];
      && PagesOk(ring, used', count', n)
      && (p, i) !in Live(ring, used, n) && Live(ring, used', n) == Live(ring, used, n) + {(p, i)}
      && |Live(ring, used', n)| == |Live(ring, used, n)| + 1
  {
    hide BitmapGet, BitmapSet, Slots, Linked;
    var p := ring[0];
    assert PageOk(p, used, count, n) && p in ring;
    var used', count' := used[p := BitmapSet(used[p], i)], count[p := count[p] + 1];
    SlotsAfterSet(used[p], n, i);
    forall j | 0 <= j < BITS ensures BitmapGet(used'[p], j) <==> j == i || BitmapGet(used[p], j) {
      BitmapLaws(used[p], i, j);
    }
    forall k | 0 <= k < |ring| ensures PageOk(ring[k], used', count', n) {
      assert PageOk(ring[k], used, count, n);
    }
    assert Live(ring, used', n) == Live(ring, used, n) + {(p, i)};
  }

  /** After the first page got one more object: the free pages still come first,
      once a full head has moved on. */
  lemma HeadCounted(next: map<Ptr, Ptr>, prev: map<Ptr, Ptr>, ring: seq<Ptr>, before: map<Ptr, nat>,
                    count: map<Ptr, nat>, n: nat)
    requires ring != [] && Ring(next, prev, ring) && FreeFirst(ring, before, n)
    requires ring[0] in before && count == before[ring[0] := before[ring[0]] + 1]
    ensures FreeFirst(if count[ring[0]] >= n then Turned(ring) else ring, count, n)
  {
    hide Linked;
    forall k | 0 < k < |ring| ensures Full(ring[k], count, n) == Full(ring[k], before, n) {
    }
    if count[ring[0]] >= n {
      var turned := Turned(ring);
      forall i, j | 0 <= i < j < |turned| && Full(turned[i], count, n) ensures Full(turned[j], count, n) {
        assert turned[i] == ring[i + 1];
        assert turned[j] == if j + 1 < |ring| then ring[j + 1] else ring[0];
      }
    }
  }

  lemma TurnRing(next: map<Ptr, Ptr>, prev: map<Ptr, Ptr>, ring: seq<Ptr>)
    requires ring != [] && Ring(next, prev, ring)
    ensures Ring(next, prev, Turned(ring)) && Turned(ring)[0] == ring[After(0, |ring|)]
  {
    hide Linked;
    if |ring| == 1 {
      assert Turned(ring) == ring;
    } else {
      Rotate(next, prev, ring, 1);
      assert Turned(ring) == ring[1..] + ring[..1];
    }
  }

  lemma TurnedMembers(ring: seq<Ptr>)
    requires ring != []
    ensures multiset(Turned(ring)) == multiset(ring)
  {
    assert ring == [ring[0]] + ring[1..];
  }

  lemma FrontedMembers(ring: seq<Ptr>, k: nat)
    requires k < |ring|
    ensures multiset(Fronted(ring, k)) == multiset(ring)
  {
    assert ring == ring[..k] + [ring[k]] + ring[k + 1..];
  }

  lemma DistinctRing(next: map<Ptr, Ptr>, prev: map<Ptr, Ptr>, s: seq<Ptr>)
    requires Ring(next, prev, s)
    ensures forall i, j :: 0 <= i < j < |s| ==> s[i] != s[j]
    ensures forall i :: 0 <= i < |s| ==> s[i] != 0
  {
  }

  /** Only the members of the list matter, not their order. */
  lemma SameMembers(ring: seq<Ptr>, ring': seq<Ptr>, used: map<Ptr, Cells>, count: map<Ptr, nat>, n: nat)
    requires n <= BITS && PagesOk(ring, used, count, n) && multiset(ring') == multiset(ring)
    ensures PagesOk(ring', used, count, n) && Live(ring', used, n) == Live(ring, used, n) && |ring'| == |ring|
    ensures forall p :: p in ring' <==> p in ring
  {
    hide BitmapGet, PageOk;
    forall p ensures p in ring' <==> p in ring {
      assert p in ring' <==> p in multiset(ring');
      assert p in ring <==> p in multiset(ring);
    }
    forall k | 0 <= k < |ring'| ensures PageOk(ring'[k], used, count, n) {
      assert ring'[k] in ring';
      var j :| 0 <= j < |ring| && ring[j] == ring'[k];
    }
    assert |multiset(ring')| == |multiset(ring)|;
  }

  lemma SlotOfOffset(offset: nat, size: nat, index: nat)
    requires offset < CAPACITY && MIN_OBJECT_SIZE <= size && index == offset / size
    ensures index < BITS
    ensures offset % size == 0 ==> offset == index * size
  {
    assert offset == index * size + offset % size;
    Times(MIN_OBJECT_SIZE, size, index);
  }

  lemma SlotOfAddress(addr: nat, size: nat)
    requires HEADER <= addr % PAGE_SIZE && MIN_OBJECT_SIZE <= size
    ensures ContainerPage(addr) + HEADER <= addr
    ensures var page := ContainerPage(addr); var offset := addr - page - HEADER;
      offset / size < BITS && (offset % size == 0 ==> addr == Address(page, offset / size, size))
  {
    var offset := addr % PAGE_SIZE - HEADER;
    SlotOfOffset(offset, size, offset / size);
  }

  lemma WhoIsLive(ring: seq<Ptr>, used: map<Ptr, Cells>, count: map<Ptr, nat>, n: nat, page: Ptr, index: nat)
    requires n <= BITS && PagesOk(ring, used, count, n) && page in ring && index < BITS
    ensures page in used && page in count
    ensures (page, index) in Live(ring, used, n) <==> BitmapGet(used[page], index)
    ensures BitmapGet(used[page], index) ==> index < n
  {
    hide BitmapGet, Slots;
    var k :| 0 <= k < |ring| && ring[k] == page;
    assert PageOk(ring[k], used, count, n);
  }

  /** One object less in a page. */
  lemma GiveSlot(ring: seq<Ptr>, used: map<Ptr, Cells>, count: map<Ptr, nat>, n: nat, p: Ptr, i: nat)
    requires p in ring && i < n <= BITS && PagesOk(ring, used, count, n) && p in used && BitmapGet(used[p], i)
    ensures p in count && 0 < count[p] <= n
    ensures var used', count' := used[p := BitmapClear(used[p], i)], count[p := count[p] - 1];
      && PagesOk(ring, used', count', n)
      && (p, i) in Live(ring, used, n) && Live(ring, used', n) == Live(ring, used, n) - {(p, i)}
      && |Live(ring, used', n)| == |Live(ring, used, n)| - 1
  {
    hide BitmapGet, BitmapClear, Slots;
    var m :| 0 <= m < |ring| && ring[m] == p;
    assert PageOk(ring[m], used, count, n);
    SlotsAfterClear(used[p], n, i);
    SlotCount(used[p], n);
    var used', count' := used[p := BitmapClear(used[p], i)], count[p := count[p] - 1];
    forall j | 0 <= j < BITS ensures BitmapGet(used'[p], j) <==> j != i && BitmapGet(used[p], j) {
      BitmapLaws(used[p], i, j);
    }
    forall k | 0 <= k < |ring| ensures PageOk(ring[k], used', count', n) {
      assert PageOk(ring[k], used, count, n);
    }
    assert Live(ring, used', n) == Live(ring, used, n) - {(p, i)};
  }

  ghost function IndexOf(s: seq<Ptr>, x: Ptr): (k: nat)
    requires x in s
    ensures k < |s| && s[k] == x
  {
    var k :| 0 <= k < |s| && s[k] == x;
    k
  }

  /** A page that lost an object, in front. */
  lemma FrontedFree(ring: seq<Ptr>, before: map<Ptr, nat>, count: map<Ptr, nat>, n: nat, k: nat)
    requires k < |ring| && FreeFirst(ring, before, n) && ring[k] in before && 0 < before[ring[k]] <= n
    requires count == before[ring[k] := before[ring[k]] - 1]
    requires forall i, j :: 0 <= i < j < |ring| ==> ring[i] != ring[j]
    ensures FreeFirst(Fronted(ring, k), count, n)
  {
    var front := Fronted(ring, k);
    forall m | 0 <= m < |ring| && m != k ensures Full(ring[m], count, n) == Full(ring[m], before, n) {
    }
    forall i, j | 0 <= i < j < |front| && Full(front[i], count, n) ensures Full(front[j], count, n) {
      var a, b := if i <= k then i - 1 else i, if j <= k then j - 1 else j;
      assert i > 0 && front[i] == ring[a] && front[j] == ring[b];
    }
  }

  lemma FrontedPages(next: map<Ptr, Ptr>, prev: map<Ptr, Ptr>, ring: seq<Ptr>, used: map<Ptr, Cells>,
                     before: map<Ptr, nat>, count: map<Ptr, nat>, n: nat, k: nat)
    requires Ring(next, prev, ring) && n <= BITS && PagesOk(ring, used, count, n)
    requires k < |ring| && FreeFirst(ring, before, n) && ring[k] in before && 0 < before[ring[k]] <= n
    requires count == before[ring[k] := before[ring[k]] - 1]
    ensures var front := Fronted(ring, k);
      && PagesOk(front, used, count, n) && FreeFirst(front, count, n) && Live(front, used, n) == Live(ring, used, n)
      && multiset(front) == multiset(ring) && |front| == |ring| && front[0] == ring[k]
      && (ring[0] == ring[k] <==> k == 0) && (k == 0 ==> front == ring)
  {
    hide FreeFirst, Live, PagesOk, Ring;
    DistinctRing(next, prev, ring);
    FrontedMembers(ring, k);
    SameMembers(ring, Fronted(ring, k), used, count, n);
    FrontedFree(ring, before, count, n, k);
  }
}
