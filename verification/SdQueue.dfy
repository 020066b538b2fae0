/**
  The SD card driver's request queue (src/driver/buf.c; sdrw and sd_intr in
  src/driver/sd.c).  The card is abstract: it takes one command, carries it out
  and raises the interrupt of that command.
 */
module SdQueue {
  type Ptr = nat
  type Data = seq<nat>

  const B_VALID := 2
  const B_DIRTY := 4

  // ---------------------------------------------------------- the queue

  /** `bufQueue` with the links of its buffers; 0 is the null pointer. */
  class BufQueue {
    var begin: Ptr
    var end: Ptr
    var sz: nat
    var next: map<Ptr, Ptr>
    var prev: map<Ptr, Ptr>
    ghost var contents: seq<Ptr>

    /** Following `next` from `begin` gives the contents. */
    ghost predicate Linked()
      reads this
    {
      && sz == |contents|
      && (contents != [] ==> begin == contents[0] && end == contents[|contents| - 1])
      && (forall i :: 0 <= i < |contents| - 1 ==> contents[i] in next && next[contents[i]] == contents[i + 1])
    }

    /** And no buffer is queued twice. */
    ghost predicate Valid()
      reads this
    {
      Linked() && Distinct(contents)
    }

    constructor ()
      ensures Valid() && contents == [] && next == map[]
    {
      begin, end, sz, next, prev, contents := 0, 0, 0, map[], map[], [];
    }

    /** The links stay good exactly when the last buffer is not queued a second time
        further ahead (unless `y` already follows it there). */
    method Push(y: Ptr)
      requires Linked()
      modifies this
      ensures contents == old(contents) + [y]
      ensures Linked() <==>
        forall i :: 0 <= i < |old(contents)| - 1 && old(contents)[i] == old(end) ==> old(contents)[i + 1] == y
      ensures old(Valid()) ==> Linked() && (Valid() <==> y !in old(contents))
      ensures sz == old(sz) + 1 && begin == (if old(sz) == 0 then y else old(begin)) && end == y
      ensures next == if old(sz) == 0 then old(next) else old(next)[old(end) := y]
    {
      contents := contents + [y];
      if sz == 0 {
        begin, end := y, y;
        sz := 1;
        return;
      }
      next := next[end := y];
      prev := prev[y := end];
      end := y;
      sz := sz + 1;
      ghost var was, n := old(contents), |old(contents)|;
      assert contents[n - 1] == old(end) && contents[n] == y;
      if forall i :: 0 <= i < n - 1 && was[i] == old(end) ==> was[i + 1] == y {
        forall i | 0 <= i < n ensures contents[i] in next && next[contents[i]] == contents[i + 1] {
        }
      } else {
        var i :| 0 <= i < n - 1 && was[i] == old(end) && was[i + 1] != y;
        assert contents[i] == old(end) && contents[i + 1] != y;
      }
      AddedDistinct(was, y);
    }

    /** It panics (`ok` is false) on an empty queue. */
    method Pop() returns (ok: bool)
      requires Linked()
      modifies this
      ensures Linked() && (old(Valid()) ==> Valid()) && (ok <==> old(contents) != [])
      ensures contents == if ok then old(contents)[1..] else old(contents)
    {
      if sz == 0 {
        return false;
      }
      if sz == 1 {
        begin, end, sz := 0, 0, 0;
        contents := contents[1..];
        return true;
      }
      begin := next[begin];
      prev := prev[begin := 0];
      sz := sz - 1;
      contents := contents[1..];
      return true;
    }

    /** It panics (`ok` is false) on an empty queue. */
    method Front() returns (ok: bool, y: Ptr)
      requires Linked()
      ensures ok <==> contents != []
      ensures ok ==> y == contents[0]
    {
      ok, y := sz != 0, begin;
    }

    method Empty() returns (b: bool)
      requires Linked()
      ensures b <==> contents == []
    {
      b := sz == 0;
    }
  }

  ghost predicate Distinct(q: seq<Ptr>) {
    forall i, j :: 0 <= i < j < |q| ==> q[i] != q[j]
  }

  lemma AddedDistinct(q: seq<Ptr>, y: Ptr)
    ensures Distinct(q + [y]) <==> Distinct(q) && y !in q
  {
    var r := q + [y];
    assert r[|q|] == y && forall i :: 0 <= i < |q| ==> r[i] == q[i];
    if Distinct(r) {
      forall i, j | 0 <= i < j < |q| ensures q[i] != q[j] {
        assert r[i] != r[j];
      }
      forall i | 0 <= i < |q| ensures q[i] != y {
        assert r[i] != r[|q|];
      }
    }
  }

  /** Buffer 1 is queued again while it is queued.  After the next push, the links
      from the first buffer lead to buffer 3 and never to buffer 2. */
  method LostBuffer() returns (q: BufQueue)
    ensures fresh(q) && q.contents == [1, 2, 1, 3] && q.sz == 4
    ensures q.begin == 1 && 1 in q.next && q.next[1] == 3 && 3 !in q.next
  {
    q := new BufQueue();
    q.Push(1);
    q.Push(2);
    q.Push(1);
    q.Push(3);
  }

  // ------------------------------------------------------------ requests

  datatype Buf = Buf(flags: nat, block: nat, data: Data)

  predicate Dirty(flags: nat) {
    flags / B_DIRTY % 2 == 1
  }

  /** A request as it was when sdrw was called. */
  datatype Request = Request(b: Ptr, block: nat, write: bool, data: Data)

  function RequestOf(b: Ptr, x: Buf): Request {
    Request(b, x.block, Dirty(x.flags), if Dirty(x.flags) then x.data else [])
  }

  type Disk = map<nat, Data>

  function ReadBlock(disk: Disk, block: nat): Data {
    if block in disk then disk[block] else []
  }

  function Effect(disk: Disk, req: Request): Disk {
    if req.write then disk[req.block := req.data] else disk
  }

  /** The disk after requests took effect one by one. */
  function Replay(disk: Disk, reqs: seq<Request>): Disk {
    if reqs == [] then disk else Effect(Replay(disk, reqs[..|reqs| - 1]), reqs[|reqs| - 1])
  }

  /** What is read after requests is the data of the last write to the block. */
  lemma {:induction false} LastWriteIsRead(disk: Disk, reqs: seq<Request>, i: nat, block: nat)
    requires i < |reqs| && LastWrite(reqs, i, block)
    ensures ReadBlock(Replay(disk, reqs), block) == reqs[i].data
  {
    var n := |reqs| - 1;
    if i < n {
      LastWriteIsRead(disk, reqs[..n], i, block);
    }
  }

  /** A block that no request writes reads as before. */
  lemma {:induction false} UnwrittenIsRead(disk: Disk, reqs: seq<Request>, block: nat)
    requires forall i :: 0 <= i < |reqs| && reqs[i].write ==> reqs[i].block != block
    ensures ReadBlock(Replay(disk, reqs), block) == ReadBlock(disk, block)
  {
    if reqs != [] {
      UnwrittenIsRead(disk, reqs[..|reqs| - 1], block);
    }
  }

  /** Request `i` writes the block and no later one does. */
  predicate LastWrite(reqs: seq<Request>, i: nat, block: nat)
    requires i < |reqs|
  {
    && reqs[i].write && reqs[i].block == block
    && forall j :: i < j < |reqs| ==> !(reqs[j].write && reqs[j].block == block)
  }

  datatype Card = Ready | Busy(req: Request)

  /** What sd_intr finds in the interrupt register: the card raises ReadReady for a read
      and DataDone for a write. */
  datatype Interrupt = ReadReady | DataDone | OtherInterrupt

  /** The requests behind the first `done` are those of the queue, unchanged. */
  ghost predicate Matches(pushed: seq<Request>, done: nat, q: seq<Ptr>, buf: map<Ptr, Buf>) {
    && |pushed| == done + |q|
    && forall i :: 0 <= i < |q| ==> q[i] in buf && pushed[done + i] == RequestOf(q[i], buf[q[i]])
  }

  /** A caller waits exactly as long as its buffer is queued. */
  ghost predicate WaitersQueued(waiting: set<Ptr>, q: seq<Ptr>, buf: map<Ptr, Buf>) {
    forall b :: b in waiting ==> b in buf && (buf[b].flags == B_VALID <==> b !in q)
  }

  class Driver {
    const sdque: BufQueue
    var buf: map<Ptr, Buf>
    var disk: Disk
    var card: Card
    /** The callers that sleep in sdrw. */
    var waiting: set<Ptr>
    /** All requests ever made, in the order of the calls; the first `done` of
        them are complete, and `started` commands were given to the card. */
    ghost var pushed: seq<Request>
    ghost var done: nat
    ghost var started: nat
    ghost const disk0: Disk

    /** The card works on exactly the front of the queue, and the disk holds the
        effect of the completed requests in the order of the calls. */
    ghost predicate Valid()
      reads this, sdque
    {
      && sdque.Valid() && done <= |pushed|
      && Matches(pushed, done, sdque.contents, buf)
      && disk == Replay(disk0, pushed[..done])
      && card == (if sdque.contents == [] then Ready else Busy(pushed[done]))
      && started == (if sdque.contents == [] then done else done + 1)
      && WaitersQueued(waiting, sdque.contents, buf)
    }

    /** A caller fills a buffer that is neither queued nor waited for. */
    method Fill(b: Ptr, x: Buf)
      requires Valid() && b !in sdque.contents && b !in waiting
      modifies this`buf
      ensures Valid() && buf == old(buf)[b := x]
    {
      buf := buf[b := x];
    }

    constructor (disk: Disk, buf: map<Ptr, Buf>)
      ensures Valid() && fresh(sdque) && this.disk == disk && this.buf == buf && sdque.contents == [] && waiting == {}
    {
      sdque := new BufQueue();
      this.buf, this.disk, card, waiting := buf, disk, Ready, {};
      pushed, done, started, disk0 := [], 0, 0, disk;
    }

    /** sdrw up to its return or its first sleep.  It returns at once exactly when
        the buffer was valid and not dirty, and then the request that it queued has
        not taken effect.  The driver's state stays good exactly when the buffer was
        neither queued nor waited for. */
    method Sdrw(b: Ptr) returns (returned: bool)
      requires Valid() && b in buf
      modifies this, sdque
      ensures Valid() <==> b !in old(sdque.contents) && b !in old(waiting)
      ensures buf == old(buf) && disk == old(disk) && done == old(done)
      ensures sdque.contents == old(sdque.contents) + [b]
      ensures |pushed| == |old(pushed)| + 1 &&
        var req := pushed[|old(pushed)|];
        && pushed == old(pushed) + [req] && req.b == b && req.block == buf[b].block
        && (req.write <==> buf[b].flags / 4 % 2 == 1) && (req.write ==> req.data == buf[b].data)
      ensures returned <==> buf[b].flags == B_VALID
      ensures waiting == if returned then old(waiting) else old(waiting) + {b}
    {
      hide Matches, WaitersQueued, Replay, BufQueue.Linked, Distinct;
      ghost var req := RequestOf(b, buf[b]);
      Queued(pushed, done, sdque.contents, buf, waiting, b);
      var none := sdque.Empty();
      sdque.Push(b);
      if none {
        var _, f := sdque.Front();
        card := Busy(RequestOf(f, buf[f]));
        started := started + 1;
      }
      assert (pushed + [req])[..done] == pushed[..done];
      pushed := pushed + [req];
      if buf[b].flags == B_VALID {
        return true;
      }
      waiting := waiting + {b};
      return false;
    }

    /** sdrw after a wakeup: it returns exactly when its request is complete. */
    method Resume(b: Ptr) returns (returned: bool)
      requires Valid() && b in waiting
      modifies this`waiting
      ensures Valid() && (returned <==> b !in sdque.contents)
      ensures returned <==> forall k :: done <= k < |pushed| ==> pushed[k].b != b
      ensures waiting == if returned then old(waiting) - {b} else old(waiting)
    {
      hide BufQueue.Valid, Replay;
      PendingRequests(pushed, done, sdque.contents, buf, b);
      returned := buf[b].flags == B_VALID;
      if returned {
        waiting := waiting - {b};
      }
    }

    /** sd_intr.  It panics (`ok` is false) exactly when the interrupt is not that of
        the command that the card works on; without a command every interrupt is
        ignored.  Otherwise the oldest request completes: a write is on the disk, a
        read got what all earlier requests left there.  Then the next one is
        started. */
    method SdIntr(intr: Interrupt) returns (ok: bool)
      requires Valid()
      modifies this, sdque
      ensures Valid() && pushed == old(pushed) && waiting == old(waiting)
      ensures ok <==> (old(card).Busy? ==> intr == if old(card).req.write then DataDone else ReadReady)
      ensures !ok || old(sdque.contents) == [] ==>
        done == old(done) && buf == old(buf) && disk == old(disk) && sdque.contents == old(sdque.contents)
      ensures ok && old(sdque.contents) != [] ==>
        var b := old(sdque.contents)[0]; var k := old(done); var req := pushed[k];
        && done == k + 1 && sdque.contents == old(sdque.contents)[1..] && req.b == b
        && b in buf && buf[b].flags == B_VALID && buf[b].block == req.block
        && buf[b].data == (if req.write then req.data else ReadBlock(Replay(disk0, pushed[..k]), req.block))
        && (req.write ==> ReadBlock(disk, req.block) == req.data)
        && (forall n: nat :: !req.write || n != req.block ==> ReadBlock(disk, n) == old(ReadBlock(disk, n)))
        && forall c :: c in old(buf) && c != b ==> c in buf && buf[c] == old(buf)[c]
    {
      hide Matches, WaitersQueued, Replay, Dirty, BufQueue.Linked, Distinct;
      var none := sdque.Empty();
      if none {
        return true;
      }
      var _, bid := sdque.Front();
      ghost var q := sdque.contents;
      FrontRequest(pushed, done, q, buf);
      if intr != ReadReady && intr != DataDone {
        return false;
      }
      var write := Dirty(buf[bid].flags);
      if (write && intr != DataDone) || (!write && intr != ReadReady) {
        return false;
      }
      var data := buf[bid].data;
      if write {
        disk := disk[card.req.block := card.req.data];
      } else {
        data := ReadBlock(disk, card.req.block);
      }
      Advance(disk0, pushed, done);
      buf := buf[bid := Buf(B_VALID, buf[bid].block, data)];
      var _ := sdque.Pop();
      Popped(pushed, done, q, old(buf), buf, waiting);
      done := done + 1;
      StartNext();
      return true;
    }

    /** The end of sd_intr: the new front is started. */
    method StartNext()
      requires sdque.Valid() && done <= |pushed| && Matches(pushed, done, sdque.contents, buf) && started == done
      modifies this`card, this`started
      ensures card == (if sdque.contents == [] then Ready else Busy(pushed[done]))
      ensures started == (if sdque.contents == [] then done else done + 1)
    {
      hide Matches, BufQueue.Linked, RequestOf, Distinct;
      var none := sdque.Empty();
      if none {
        card := Ready;
      } else {
        var _, f := sdque.Front();
        FrontRequest(pushed, done, sdque.contents, buf);
        card := Busy(RequestOf(f, buf[f]));
        started := started + 1;
      }
    }
  }

  lemma Queued(pushed: seq<Request>, done: nat, q: seq<Ptr>, buf: map<Ptr, Buf>, waiting: set<Ptr>, b: Ptr)
    requires Matches(pushed, done, q, buf) && WaitersQueued(waiting, q, buf) && b in buf
    ensures |pushed| == done + |q|
    ensures Matches(pushed + [RequestOf(b, buf[b])], done, q + [b], buf)
    ensures b !in q ==> (WaitersQueued(waiting, q + [b], buf) <==> b !in waiting)
    ensures b !in q && b !in waiting && buf[b].flags != B_VALID ==> WaitersQueued(waiting + {b}, q + [b], buf)
    ensures b !in q && b in waiting ==> buf[b].flags == B_VALID
  {
    hide RequestOf;
    assert b in q + [b];
  }

  /** The requests of a buffer that are not complete. */
  lemma PendingRequests(pushed: seq<Request>, done: nat, q: seq<Ptr>, buf: map<Ptr, Buf>, b: Ptr)
    requires Matches(pushed, done, q, buf)
    ensures b !in q <==> forall k :: done <= k < |pushed| ==> pushed[k].b != b
  {
    forall k | done <= k < |pushed| ensures pushed[k].b == q[k - done] {
      assert pushed[done + (k - done)] == RequestOf(q[k - done], buf[q[k - done]]);
    }
    if b in q {
      var i :| 0 <= i < |q| && q[i] == b;
      assert pushed[done + i].b == b;
    }
  }

  lemma FrontRequest(pushed: seq<Request>, done: nat, q: seq<Ptr>, buf: map<Ptr, Buf>)
    requires Matches(pushed, done, q, buf) && q != []
    ensures done < |pushed| && q[0] in buf && pushed[done] == RequestOf(q[0], buf[q[0]])
  {
    assert pushed[done + 0] == RequestOf(q[0], buf[q[0]]);
  }

  lemma Advance(disk: Disk, pushed: seq<Request>, done: nat)
    requires done < |pushed|
    ensures Replay(disk, pushed[..done + 1]) == Effect(Replay(disk, pushed[..done]), pushed[done])
  {
    assert pushed[..done + 1][..done] == pushed[..done];
  }

  lemma Popped(pushed: seq<Request>, done: nat, q: seq<Ptr>, buf: map<Ptr, Buf>, buf': map<Ptr, Buf>, waiting: set<Ptr>)
    requires Matches(pushed, done, q, buf) && q != [] && Distinct(q)
    requires WaitersQueued(waiting, q, buf)
    requires q[0] in buf' && buf' == buf[q[0] := buf'[q[0]]] && buf'[q[0]].flags == B_VALID
    ensures Matches(pushed, done + 1, q[1..], buf') && WaitersQueued(waiting, q[1..], buf')
  {
    hide RequestOf;
    var rest := q[1..];
    forall i | 0 <= i < |rest| ensures rest[i] in buf' && pushed[done + 1 + i] == RequestOf(rest[i], buf'[rest[i]]) {
      assert rest[i] == q[i + 1] && pushed[done + (i + 1)] == RequestOf(q[i + 1], buf[q[i + 1]]);
    }
    forall b | b in waiting ensures b in buf' && (buf'[b].flags == B_VALID <==> b !in rest) {
      assert q == [q[0]] + rest;
    }
  }

  /** A clean buffer: sdrw returns while its read is still pending, and the caller
      does not have the contents of the block. */
  method EarlyReturn() returns (d: Driver, returned: bool)
    ensures fresh(d) && d.Valid() && returned && d.done < |d.pushed| && d.pushed[d.done].b == 1
    ensures 1 in d.buf && d.buf[1].data == [9] && ReadBlock(d.disk, d.buf[1].block) == [1]
  {
    hide WaitersQueued, Replay, Dirty;
    d := new Driver(map[7 := [1]], map[1 := Buf(B_VALID, 7, [9])]);
    returned := d.Sdrw(1);
    assert d.pushed[d.done + 0] == RequestOf(1, d.buf[1]);
  }
}
