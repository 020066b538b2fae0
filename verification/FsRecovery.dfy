/**
  The file system on the log: the image that a mount recovers after a crash,
  read as blocks, bitmap and inodes (src/fs/defines.h), is consistent.
 */
module FsRecovery {
  import opened FsLayout
  import opened FsOwnership
  import FsImage
  import FileSystem
  import opened LogMachine
  import opened LogHistory
  import opened LogInvariant
  import opened LogRuns
  import opened LogTheorems
  import opened LogConsistency
  import opened LogBudget

  // ----------------------------------------------------- reading the disk

  /** Byte `k` of a number. */
  function ByteOf(x: nat, k: nat): Byte {
    if k == 0 then x % 0x100 else ByteOf(x / 0x100, k - 1)
  }

  /** The 512 bytes of a sector of 64 little-endian machine words. */
  function BytesOf(sector: Sector): Block {
    seq(BLOCK_SIZE, i requires 0 <= i < BLOCK_SIZE => ByteOf(sector[i / 8], i % 8))
  }

  /** A sector is its bytes: each word is spelled by eight of them, lowest first. */
  lemma BytesSpell(sector: Sector, i: nat)
    requires i < 64 && sector[i] < 0x1_0000_0000_0000_0000
    ensures sector[i] == FsImage.LowFirst(BytesOf(sector)[8 * i..8 * i + 8])
  {
    var bytes := BytesOf(sector)[8 * i..8 * i + 8];
    forall k | 0 <= k < 8 ensures bytes[k] == ByteOf(sector[i], k) {
      assert bytes[k] == BytesOf(sector)[8 * i + k];
    }
    assert Power256(4) == 0x1_0000_0000;
    assert Power256(8) == 0x1_0000_0000 * Power256(4);
    Spelled(sector[i], bytes);
  }

  function Power256(n: nat): nat {
    if n == 0 then 1 else 0x100 * Power256(n - 1)
  }

  lemma {:induction false} Spelled(x: nat, bytes: seq<Byte>)
    requires x < Power256(|bytes|) && forall k :: 0 <= k < |bytes| ==> bytes[k] == ByteOf(x, k)
    ensures FsImage.LowFirst(bytes) == x
  {
    if bytes != [] {
      forall k | 0 <= k < |bytes| - 1 ensures bytes[1..][k] == ByteOf(x / 0x100, k) {
        assert bytes[k + 1] == ByteOf(x, k + 1);
      }
      Spelled(x / 0x100, bytes[1..]);
    }
  }

  function BlockOf(image: Image, b: nat): Block {
    if b < |image| then BytesOf(image[b]) else ZeroBlock()
  }

  /** The blocks of an image, where those of the log do not count. */
  function DiskBlocks(g: Geometry, image: Image): (r: seq<Block>)
    ensures |r| == g.numBlocks
  {
    seq<Block>(g.numBlocks, b requires 0 <= b => if IsDataBlock(g, b) then BlockOf(image, b) else ZeroBlock())
  }

  /** The super block puts inodes and bitmap outside the log. */
  ghost predicate Fits(g: Geometry, sb: Super) {
    && sb.numBlocks == g.numBlocks && ValidSuper(sb)
    && (forall i: nat :: i <= sb.numInodes ==> IsDataBlock(g, InodeBlock(sb, i)))
    && (forall b: nat :: b < sb.numBlocks ==> IsDataBlock(g, BitmapBlock(sb, b)))
  }

  /** The image holds a consistent file system, with inodes and bitmap outside the
      log. */
  ghost predicate GoodImage(g: Geometry, sb: Super, image: Image) {
    Fits(g, sb) && FileSystem.GoodBlocks(sb, DiskBlocks(g, image))
  }

  /** The log blocks of an image do not matter. */
  lemma GoodIgnoresLog(g: Geometry, sb: Super)
    ensures IgnoresLog(g, image => GoodImage(g, sb, image))
  {
    hide BytesOf, FileSystem.GoodBlocks, Fits;
    forall a: Image, b: Image | SameData(g, a, b) && GoodImage(g, sb, a) ensures GoodImage(g, sb, b) {
      assert DiskBlocks(g, a) == DiskBlocks(g, b);
    }
  }

  // ------------------------------------------------------- transactions

  /** The issued writes as syncs of the file system. */
  function SyncsOf(ws: seq<Write>): (q: seq<FsImage.Sync>)
    ensures |q| == |ws|
  {
    seq(|ws|, i requires 0 <= i < |ws| => FsImage.Sync.Sync(ws[i].block, BytesOf(ws[i].data)))
  }

  /** `q` is made of transactions of the file system, one after the other. */
  ghost predicate Composed(sb: Super, image: seq<Block>, q: seq<FsImage.Sync>, parts: seq<seq<FsImage.Sync>>)
    decreases |parts|
  {
    if parts == [] then q == []
    else
      && parts[0] <= q && FileSystem.KeepsGood(sb, image, parts[0])
      && Composed(sb, FsImage.Applied(image, parts[0]), q[|parts[0]|..], parts[1..])
  }

  /** Along the run, each time the last open operation ends, the writes since the
      last commit are made of transactions. */
  ghost predicate ByTransactions(g: Geometry, sb: Super, init: Image, s: State, steps: seq<Step>)
    requires 1 <= g.numLog && Legal(g, s, steps)
    decreases |steps|
  {
    steps == [] ||
      var t := Next(g, s, steps[0]);
      && (steps[0].EndOp? && t.outstanding == 0 ==> MadeOfTransactions(g, sb, Stable(init, t), t.issued, t.mark))
      && ByTransactions(g, sb, init, t, steps[1..])
  }

  ghost predicate MadeOfTransactions(g: Geometry, sb: Super, stable: Image, issued: seq<Write>, mark: nat) {
    mark <= |issued| && exists parts :: Composed(sb, DiskBlocks(g, stable), SyncsOf(issued[mark..]), parts)
  }

  lemma {:induction false} ComposedKeepsGood(sb: Super, image: seq<Block>, q: seq<FsImage.Sync>,
                                             parts: seq<seq<FsImage.Sync>>)
    requires FileSystem.GoodBlocks(sb, image) && Composed(sb, image, q, parts)
    ensures FileSystem.GoodBlocks(sb, FsImage.Applied(image, q))
    decreases |parts|
  {
    hide FileSystem.GoodBlocks;
    if parts != [] {
      var rest := q[|parts[0]|..];
      ComposedKeepsGood(sb, FsImage.Applied(image, parts[0]), rest, parts[1..]);
      assert parts[0] + rest == q;
      FsImage.AppliedConcat(image, parts[0], rest);
    }
  }

  /** Replaying writes is applying syncs. */
  lemma {:induction false} ReplayIsApplied(g: Geometry, base: Image, ws: seq<Write>)
    requires |base| == g.numBlocks && forall i :: 0 <= i < |ws| ==> IsDataBlock(g, ws[i].block)
    ensures DiskBlocks(g, Replay(base, ws)) == FsImage.Applied(DiskBlocks(g, base), SyncsOf(ws))
  {
    hide BytesOf;
    if ws != [] {
      var n := |ws| - 1;
      ReplayIsApplied(g, base, ws[..n]);
      assert SyncsOf(ws)[..n] == SyncsOf(ws[..n]);
      WriteIsSync(g, Replay(base, ws[..n]), ws[n].block, ws[n].data);
    }
  }

  lemma WriteIsSync(g: Geometry, image: Image, b: nat, data: Sector)
    requires |image| == g.numBlocks && IsDataBlock(g, b)
    ensures DiskBlocks(g, image[b := data]) == DiskBlocks(g, image)[b := BytesOf(data)]
  {
    hide BytesOf;
  }

  lemma GroupKeepsGood(g: Geometry, sb: Super, init: Image, s: State)
    requires Inv(g, init, s) && GoodImage(g, sb, Stable(init, s))
    requires MadeOfTransactions(g, sb, Stable(init, s), s.issued, s.mark)
    ensures GoodImage(g, sb, Current(init, s))
  {
    hide FileSystem.GoodBlocks, Fits, Composed, Core, Survivors, BytesOf, DiskBlocks;
    var ws := s.issued[s.mark..];
    IssuedToData(g, init, s);
    var parts :| Composed(sb, DiskBlocks(g, Stable(init, s)), SyncsOf(ws), parts);
    ComposedKeepsGood(sb, DiskBlocks(g, Stable(init, s)), SyncsOf(ws), parts);
    ReplayIsApplied(g, Stable(init, s), ws);
  }

  lemma IssuedToData(g: Geometry, init: Image, s: State)
    requires Inv(g, init, s)
    ensures |init| == g.numBlocks && forall i :: 0 <= i < |s.issued| ==> IsDataBlock(g, s.issued[i].block)
  {
    hide Core;
  }

  /** Transactions keep the file system good whenever no operation is open. */
  lemma {:induction false} TransactionsKeepGood(g: Geometry, sb: Super, init: Image, s: State, steps: seq<Step>)
    requires 1 <= g.numLog && Inv(g, init, s) && Safe(init, s, image => GoodImage(g, sb, image))
    requires Legal(g, s, steps) && ByTransactions(g, sb, init, s, steps)
    ensures GoodWhenQuiet(g, init, s, steps, image => GoodImage(g, sb, image))
    decreases |steps|
  {
    hide Inv, Next, Enabled, GoodImage, MadeOfTransactions, Stable, Current;
    if steps != [] {
      var t := Next(g, s, steps[0]);
      KeepsInvariant(g, init, s, steps[0]);
      if steps[0].EndOp? && t.outstanding == 0 {
        EndKeepsStable(g, init, s, steps[0].op);
        GroupKeepsGood(g, sb, init, t);
      }
      SafeStep(g, init, s, steps[0], image => GoodImage(g, sb, image));
      TransactionsKeepGood(g, sb, init, t, steps[1..]);
    }
  }

  lemma EndKeepsStable(g: Geometry, init: Image, s: State, op: nat)
    requires 1 <= g.numLog && Inv(g, init, s) && Enabled(g, s, EndOp(op))
    ensures Stable(init, Next(g, s, EndOp(op))) == Stable(init, s)
  {
    hide Stable, Current, Recorded, Accounting, Recoverable, Progress, CacheAgrees, Pending, PinnedWhileLogged, HeldByOpen;
    EndImages(g, init, s, op);
  }

  /** When all writes come from transactions of the file system, every mount after a
      crash finds a consistent file system. */
  lemma ConsistentAfterCrash(g: Geometry, sb: Super, d: Disk, steps: seq<Step>, s: State)
    requires Reaches(g, d, steps, s) && GoodImage(g, sb, Recovered(g, d))
    requires ByTransactions(g, sb, Recovered(g, d), PowerOn(d), steps)
    ensures Mountable(g, s.disk) && GoodImage(g, sb, Recovered(g, s.disk))
  {
    hide GoodImage, GoodWhenQuiet, ByTransactions, Inv, Exec, Legal, Recoverable, Stable, Current;
    var init := Recovered(g, d);
    GoodIgnoresLog(g, sb);
    PowerOnInvariant(g, d);
    NothingYet(init, d);
    TransactionsKeepGood(g, sb, init, PowerOn(d), steps);
    CrashConsistency(g, d, steps, s, image => GoodImage(g, sb, image));
  }

  // ------------------------------------------------------------ the budget

  /** In every run: an operation that works through the syncs of an inode_write of at
      most 1536 bytes never panics in sync, because only its last sync can be of a
      tenth block. */
  lemma WriteFitsBudget(g: Geometry, d: Disk, steps: seq<Step>, s: State, op: nat, q: seq<FsImage.Sync>, i: nat)
    requires Reaches(g, d, steps, s) && IsOpen(s.ops, op) && FileSystem.TenthIsLast(q) && i < |q|
    requires SyncedBy(s.issued, op) <= FsImage.Numbers(q[..i])
    ensures !SyncPanics(g, s, op, q[i].block)
  {
    hide Reaches, SyncedBy, SyncPanics, FsImage.Numbers;
    var b, before := q[i].block, SyncedBy(s.issued, op);
    FileSystem.SubsetSize(before, FsImage.Numbers(q[..i]));
    if b in before {
      assert before + {b} == before;
    }
    TenBlocksSuffice(g, d, steps, s, op, b);
  }
}
