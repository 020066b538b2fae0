/**
  Every step of the log machine keeps the part of the invariant that does not
  look at the history.
 */
module LogCore {
  import opened LogMachine
  import opened LogHistory
  import opened LogInvariant

  /** Outside the log, the disk holds the current contents. */
  lemma UnloggedOnDisk(g: Geometry, s: State, stable: Image, current: Image, b: nat)
    requires Core(g, s, stable, current) && Booted(s.phase) && IsDataBlock(g, b) && b !in Logged(s.header)
    ensures s.disk[BlockSector(b)] == current[b]
  {
  }

  lemma CoreBegin(g: Geometry, s: State, stable: Image, current: Image)
    requires Core(g, s, stable, current) && Enabled(g, s, BeginOp)
    ensures Core(g, Next(g, s, BeginOp), stable, current)
  {
    var t := Next(g, s, BeginOp);
    assert t.ops[..|t.ops| - 1] == s.ops;
    assert HeldByOpen(t.cache, t.ops, t.phase);
  }

  lemma CoreAcquire(g: Geometry, s: State, stable: Image, current: Image, who: nat, b: nat)
    requires Core(g, s, stable, current) && Enabled(g, s, Acquire(who, b))
    ensures Core(g, Next(g, s, Acquire(who, b)), stable, current)
  {
    if b !in s.cache {
      UnloggedOnDisk(g, s, stable, current, b);
    }
  }

  lemma CoreModify(g: Geometry, s: State, stable: Image, current: Image, op: nat, b: nat, data: Sector)
    requires Core(g, s, stable, current) && Enabled(g, s, Modify(op, b, data))
    ensures Core(g, Next(g, s, Modify(op, b, data)), stable, current)
  {
  }

  lemma CoreRelease(g: Geometry, s: State, stable: Image, current: Image, who: nat, b: nat)
    requires Core(g, s, stable, current) && Enabled(g, s, Release(who, b))
    ensures Core(g, Next(g, s, Release(who, b)), stable, current)
  {
  }

  lemma CoreEvict(g: Geometry, s: State, stable: Image, current: Image, b: nat)
    requires Core(g, s, stable, current) && Enabled(g, s, Evict(b))
    ensures Core(g, Next(g, s, Evict(b)), stable, current)
  {
  }

  lemma RecordKeepsHeader(g: Geometry, h: Sector, b: nat)
    requires ValidGeometry(g) && ValidHeader(g, h) && IsDataBlock(g, b) && b !in Logged(h)
    requires NumLogged(h) < LogCapacity(g)
    ensures ValidHeader(g, Record(h, b)) && NumLogged(Record(h, b)) == NumLogged(h) + 1
    ensures Logged(Record(h, b)) == Logged(h) + [b]
  {
    var k := Record(h, b);
    assert forall i :: 1 <= i < 1 + NumLogged(h) ==> k[i] == h[i] && h[i] == Logged(h)[i - 1];
  }

  /** Setting a held block's entry to clean data makes that data current. */
  lemma SyncCache(g: Geometry, cache: map<nat, Entry>, d: Disk, current: Image, b: nat, e: Entry)
    requires ValidGeometry(g) && ValidDisk(g, d) && |current| == g.numBlocks
    requires CacheAgrees(g, cache, d, current) && IsDataBlock(g, b) && b in cache
    ensures CacheAgrees(g, cache[b := e], d, current[b := e.data])
  {
  }

  lemma SyncOps(g: Geometry, s: State, op: nat, b: nat)
    requires ValidGeometry(g)
    requires Accounting(g, s.header, s.ops, s.outstanding, s.mu, s.committing, s.phase)
    requires IsDataBlock(g, b) && Enabled(g, s, Sync(op, b))
    ensures s.phase.Idle?
    ensures var t := AfterSync(s, op, b);
      && Accounting(g, t.header, t.ops, t.outstanding, t.mu, t.committing, t.phase)
      && b in Logged(t.header)
      && (forall x :: x in Logged(s.header) ==> x in Logged(t.header))
      && (forall x :: x in Logged(t.header) ==> x in Logged(s.header) || x == b)
  {
    BudgetMember(s.ops, op);
    if b !in Logged(s.header) {
      BudgetUpdate(s.ops, op, Open(s.ops[op].rm - 1));
      RecordKeepsHeader(g, s.header, b);
    }
  }

  lemma SyncPending(g: Geometry, h: Sector, h': Sector, stable: Image, current: Image, b: nat, data: Sector)
    requires Pending(g, Idle, h, stable, current) && b < |current| && b in Logged(h')
    requires forall x :: x in Logged(h) ==> x in Logged(h')
    ensures Pending(g, Idle, h', stable, current[b := data])
  {
  }

  /** Only the entry of `b` and the budget of `op` change. */
  lemma SyncHolders(s: State, op: nat, b: nat)
    requires IsOpen(s.ops, op) && b in s.cache && s.cache[b].holder == Some(op) && s.phase.Idle?
    requires b in Logged(s.header) || s.ops[op].rm > 0
    requires HeldByOpen(s.cache, s.ops, Idle) && PinnedWhileLogged(Idle, s.header, s.cache)
    requires var t := AfterSync(s, op, b); forall x :: x in Logged(t.header) ==> x in Logged(s.header) || x == b
    ensures var t := AfterSync(s, op, b);
      HeldByOpen(t.cache, t.ops, Idle) && PinnedWhileLogged(Idle, t.header, t.cache)
  {
  }

  lemma CoreSync(g: Geometry, s: State, stable: Image, current: Image, op: nat, b: nat)
    requires Core(g, s, stable, current) && Enabled(g, s, Sync(op, b))
    ensures b < |current|
    ensures Core(g, Next(g, s, Sync(op, b)), stable, current[b := s.cache[b].data])
  {
    hide Accounting, Recoverable, PinnedWhileLogged, HeldByOpen;
    var t := Next(g, s, Sync(op, b));
    HeldIsData(g, s.cache, s.disk, current, b);
    SyncOps(g, s, op, b);
    SyncCache(g, s.cache, s.disk, current, b, t.cache[b]);
    assert t.cache == s.cache[b := t.cache[b]];
    SyncHolders(s, op, b);
    SyncPending(g, s.header, t.header, stable, current, b, s.cache[b].data);
    AccountedHeader(g, s);
    AccountedHeader(g, t);
  }

  lemma HeldIsData(g: Geometry, cache: map<nat, Entry>, d: Disk, current: Image, b: nat)
    requires ValidGeometry(g) && ValidDisk(g, d) && |current| == g.numBlocks
    requires CacheAgrees(g, cache, d, current) && b in cache && cache[b].holder.Some?
    ensures IsDataBlock(g, b)
  {
  }

  lemma AccountedHeader(g: Geometry, s: State)
    requires ValidGeometry(g) && Accounting(g, s.header, s.ops, s.outstanding, s.mu, s.committing, s.phase)
    ensures ValidHeader(g, s.header)
  {
  }

  lemma {:induction false} NoneOpen(ops: seq<OpStatus>)
    requires NumOpen(ops) == 0
    ensures forall i :: 0 <= i < |ops| ==> !ops[i].Open?
  {
    if ops != [] {
      NoneOpen(ops[..|ops| - 1]);
    }
  }

  lemma CoreEnd(g: Geometry, s: State, stable: Image, current: Image, op: nat)
    requires Core(g, s, stable, current) && Enabled(g, s, EndOp(op))
    requires NumLogged(s.header) == 0 ==> current == stable
    ensures Core(g, Next(g, s, EndOp(op)), stable, current)
  {
    var t := Next(g, s, EndOp(op));
    BudgetMember(s.ops, op);
    BudgetUpdate(s.ops, op, Waiting);
    if t.outstanding == 0 {
      NoneOpen(t.ops);
    }
    assert Accounting(g, t.header, t.ops, t.outstanding, t.mu, t.committing, t.phase);
    assert HeldByOpen(t.cache, t.ops, t.phase);
  }

  /** Writing a block both to the cache and to the disk. */
  lemma WriteThrough(g: Geometry, cache: map<nat, Entry>, d: Disk, current: Image, b: nat, data: Sector)
    requires ValidGeometry(g) && ValidDisk(g, d) && |current| == g.numBlocks
    requires CacheAgrees(g, cache, d, current) && b < g.numBlocks
    requires IsDataBlock(g, b) ==> current[b] == data
    ensures CacheAgrees(g, PutCached(cache, b, data), d[BlockSector(b) := data], current)
  {
  }

  /** A write to the log area is harmless while the header on disk is empty. */
  lemma LogAreaIsScratch(g: Geometry, d: Disk, stable: Image, tail: nat, data: Sector)
    requires ValidGeometry(g) && Recoverable(g, d, stable) && NumLogged(d[HeaderSector(g)]) == 0
    requires tail < LogCapacity(g)
    ensures Recoverable(g, d[BlockSector(LogBlock(g, tail)) := data], stable)
  {
  }

  lemma PutCachedKeepsHolders(cache: map<nat, Entry>, ops: seq<OpStatus>, p: Phase, h: Sector, b: nat, data: Sector)
    requires HeldByOpen(cache, ops, p) && PinnedWhileLogged(p, h, cache)
    ensures var c := PutCached(cache, b, data);
      && HeldByOpen(c, ops, p) && PinnedWhileLogged(p, h, c)
  {
  }

  lemma CopyOneMore(g: Geometry, h: Sector, d: Disk, current: Image, tail: nat)
    requires ValidGeometry(g) && ValidDisk(g, d) && |current| == g.numBlocks && ValidHeader(g, h)
    requires Copied(g, h, d, current, tail) && tail < NumLogged(h)
    ensures var e := d[BlockSector(LogBlock(g, tail)) := current[h[1 + tail]]];
      && e[HeaderSector(g)] == d[HeaderSector(g)]
      && Copied(g, h, e, current, tail + 1)
      && (tail + 1 == NumLogged(h) ==> Copied(g, h, e, current, LOG_MAX_SIZE))
  {
  }

  /** What the copy step finds. */
  lemma CopyFacts(g: Geometry, s: State, stable: Image, current: Image)
    requires Core(g, s, stable, current) && Enabled(g, s, CopyToLog)
    ensures |stable| == g.numBlocks && |current| == g.numBlocks && ValidHeader(g, s.header)
    ensures NumLogged(s.disk[HeaderSector(g)]) == 0 && s.phase.tail < NumLogged(s.header) <= LogCapacity(g)
    ensures Copied(g, s.header, s.disk, current, s.phase.tail)
  {
    hide Recoverable, CacheAgrees, PinnedWhileLogged, HeldByOpen, Budget, NumOpen;
  }

  /** The logged block is in the cache, clean and current. */
  lemma LoggedIsCurrent(g: Geometry, s: State, stable: Image, current: Image)
    requires Core(g, s, stable, current) && Enabled(g, s, CopyToLog)
    ensures s.header[1 + s.phase.tail] < |current| && Contents(s, s.header[1 + s.phase.tail]) == current[s.header[1 + s.phase.tail]]
  {
    hide Recoverable, Progress, Budget, NumOpen;
    assert Logged(s.header)[s.phase.tail] == s.header[1 + s.phase.tail];
  }

  /** The copy step changes the phase within the commit. */
  lemma CopyKeepsAccounts(g: Geometry, s: State, stable: Image, current: Image)
    requires Core(g, s, stable, current) && Enabled(g, s, CopyToLog)
    ensures var p := CopyPhase(NumLogged(s.header), s.phase.tail + 1);
      && Accounting(g, s.header, s.ops, s.outstanding, s.mu, s.committing, p)
      && Pending(g, p, s.header, stable, current)
      && (forall cache :: PinnedWhileLogged(s.phase, s.header, cache) ==> PinnedWhileLogged(p, s.header, cache))
      && (forall cache :: HeldByOpen(cache, s.ops, s.phase) ==> HeldByOpen(cache, s.ops, p))
  {
    hide Recoverable, Progress, CacheAgrees, Budget, NumOpen, ValidHeader;
  }

  lemma CoreCopy(g: Geometry, s: State, stable: Image, current: Image)
    requires Core(g, s, stable, current) && Enabled(g, s, CopyToLog)
    ensures Core(g, Next(g, s, CopyToLog), stable, current)
  {
    hide Recoverable, Accounting, CacheAgrees, PinnedWhileLogged, HeldByOpen, Pending, Copied, ValidHeader, PutCached;
    CopyFacts(g, s, stable, current);
    LoggedIsCurrent(g, s, stable, current);
    CopyKeepsAccounts(g, s, stable, current);
    var tail := s.phase.tail;
    var b := s.header[1 + tail];
    LogAreaIsScratch(g, s.disk, stable, tail, current[b]);
    WriteThrough(g, s.cache, s.disk, current, LogBlock(g, tail), current[b]);
    PutCachedKeepsHolders(s.cache, s.ops, s.phase, s.header, LogBlock(g, tail), current[b]);
    CopyOneMore(g, s.header, s.disk, current, tail);
  }

  lemma CoreWriteHeader(g: Geometry, s: State, stable: Image, current: Image)
    requires Core(g, s, stable, current) && Enabled(g, s, WriteHeader)
    ensures Core(g, Next(g, s, WriteHeader), current, current)
  {
    var t := Next(g, s, WriteHeader);
    assert Recoverable(g, t.disk, current);
    assert Progress(g, t.phase, t.header, t.disk, current, current);
    assert CacheAgrees(g, t.cache, t.disk, current);
  }

  /** Installing a logged block keeps the disk recoverable. */
  lemma InstallIsHarmless(g: Geometry, d: Disk, stable: Image, i: nat)
    requires ValidGeometry(g) && Recoverable(g, d, stable)
    requires var h := d[HeaderSector(g)]; 1 <= i < 1 + NumLogged(h)
    ensures var h := d[HeaderSector(g)]; Recoverable(g, d[BlockSector(h[i]) := stable[h[i]]], stable)
  {
    assert Logged(d[HeaderSector(g)])[i - 1] == d[HeaderSector(g)][i];
  }

  lemma InstallOneMore(g: Geometry, h: Sector, d: Disk, stable: Image, current: Image, tail: nat)
    requires ValidGeometry(g) && ValidDisk(g, d) && ValidHeader(g, h)
    requires |stable| == g.numBlocks && |current| == g.numBlocks
    requires Installed(g, h, d, stable, tail) && tail < NumLogged(h) && d[HeaderSector(g)] == h
    ensures var e := d[BlockSector(h[1 + tail]) := stable[h[1 + tail]]];
      && Progress(g, InstallPhase(NumLogged(h), tail + 1), h, e, stable, current)
      && Progress(g, BootPhase(NumLogged(h), tail + 1), h, e, stable, current)
  {
    var e := d[BlockSector(h[1 + tail]) := stable[h[1 + tail]]];
    assert Installed(g, h, e, stable, tail + 1);
  }

  lemma InstallFacts(g: Geometry, s: State, stable: Image, current: Image)
    requires Core(g, s, stable, current) && (s.phase.Installing? || s.phase.BootInstalling?)
    ensures |stable| == g.numBlocks && |current| == g.numBlocks && ValidHeader(g, s.header)
    ensures s.disk[HeaderSector(g)] == s.header && s.phase.tail < NumLogged(s.header)
    ensures Installed(g, s.header, s.disk, stable, s.phase.tail)
  {
  }

  /** The state after an install step, spelled out. */
  lemma InstallEffect(g: Geometry, s: State, stable: Image, current: Image)
    requires Core(g, s, stable, current) && Enabled(g, s, InstallBlock)
    ensures var b := s.header[1 + s.phase.tail]; var t := Next(g, s, InstallBlock);
      && t.disk == s.disk[BlockSector(b) := stable[b]]
      && Recoverable(g, t.disk, stable)
      && Progress(g, t.phase, s.header, t.disk, stable, current)
  {
    hide Recoverable, Accounting, CacheAgrees, PinnedWhileLogged, HeldByOpen, Pending;
    InstallFacts(g, s, stable, current);
    LogCopyIsStable(g, s, stable, current);
    InstallIsHarmless(g, s.disk, stable, 1 + s.phase.tail);
    InstallOneMore(g, s.header, s.disk, stable, current, s.phase.tail);
  }

  lemma InstallCache(g: Geometry, s: State, stable: Image, current: Image)
    requires Core(g, s, stable, current) && Enabled(g, s, InstallBlock)
    ensures var t := Next(g, s, InstallBlock);
      && ValidDisk(g, t.disk)
      && CacheAgrees(g, t.cache, t.disk, current)
      && HeldByOpen(t.cache, s.ops, s.phase)
      && (Booted(s.phase) ==> PinnedWhileLogged(s.phase, s.header, t.cache))
  {
    hide Recoverable, Accounting, Pending, Progress, CacheAgrees, HeldByOpen;
    var b, from := s.header[1 + s.phase.tail], LogBlock(g, s.phase.tail);
    LogCopyIsStable(g, s, stable, current);
    var c := PutCached(s.cache, from, stable[b]);
    LoadLogBlock(g, s.cache, s.disk, current, from, stable[b]);
    PutCachedKeepsHolders(s.cache, s.ops, s.phase, s.header, from, stable[b]);
    WriteThrough(g, c, s.disk, current, b, stable[b]);
    PutCachedKeepsHolders(c, s.ops, s.phase, s.header, b, stable[b]);
    if s.phase.BootInstalling? {
      Unpin(g, PutCached(c, b, stable[b]), s.disk[BlockSector(b) := stable[b]], current, s.ops, s.phase, b);
    }
  }

  lemma LoadLogBlock(g: Geometry, cache: map<nat, Entry>, d: Disk, current: Image, b: nat, data: Sector)
    requires ValidGeometry(g) && ValidDisk(g, d) && |current| == g.numBlocks
    requires CacheAgrees(g, cache, d, current) && IsLogBlock(g, b) && d[BlockSector(b)] == data
    ensures CacheAgrees(g, PutCached(cache, b, data), d, current)
  {
  }

  lemma CoreInstall(g: Geometry, s: State, stable: Image, current: Image)
    requires Core(g, s, stable, current) && Enabled(g, s, InstallBlock)
    ensures Core(g, Next(g, s, InstallBlock), stable, current)
  {
    InstallEffect(g, s, stable, current);
    InstallCache(g, s, stable, current);
  }

  /** The block that an install step copies from the log is the durable one. */
  lemma LogCopyIsStable(g: Geometry, s: State, stable: Image, current: Image)
    requires Core(g, s, stable, current) && Enabled(g, s, InstallBlock)
    ensures IsLogBlock(g, LogBlock(g, s.phase.tail)) && s.header[1 + s.phase.tail] < g.numBlocks
    ensures |stable| == g.numBlocks && current == stable
    ensures Contents(s, LogBlock(g, s.phase.tail)) == stable[s.header[1 + s.phase.tail]]
    ensures s.disk[BlockSector(LogBlock(g, s.phase.tail))] == stable[s.header[1 + s.phase.tail]]
  {
  }

  lemma Unpin(g: Geometry, c: map<nat, Entry>, d: Disk, current: Image, ops: seq<OpStatus>, p: Phase, b: nat)
    requires ValidGeometry(g) && ValidDisk(g, d) && |current| == g.numBlocks
    requires CacheAgrees(g, c, d, current) && HeldByOpen(c, ops, p) && b in c
    ensures var e := c[b := c[b].(pinned := false)];
      CacheAgrees(g, e, d, current) && HeldByOpen(e, ops, p)
  {
  }

  /** Once everything is installed, the home locations hold the durable image. */
  lemma AllInstalled(g: Geometry, h: Sector, d: Disk, stable: Image)
    requires ValidGeometry(g) && Recoverable(g, d, stable) && d[HeaderSector(g)] == h
    requires Installed(g, h, d, stable, LOG_MAX_SIZE)
    ensures forall b: nat :: IsDataBlock(g, b) ==> d[BlockSector(b)] == stable[b]
  {
    forall b: nat | IsDataBlock(g, b) ensures d[BlockSector(b)] == stable[b] {
      if b in Logged(h) {
        var i :| 0 <= i < |Logged(h)| && Logged(h)[i] == b;
        assert h[1 + i] == b;
      }
    }
  }

  lemma CoreErase(g: Geometry, s: State, stable: Image, current: Image)
    requires Core(g, s, stable, current) && Enabled(g, s, EraseHeader)
    ensures Core(g, Next(g, s, EraseHeader), stable, current)
  {
    var t := Next(g, s, EraseHeader);
    AllInstalled(g, s.header, s.disk, stable);
    assert Recoverable(g, t.disk, stable);
    assert Progress(g, t.phase, t.header, t.disk, stable, current);
    assert CacheAgrees(g, t.cache, t.disk, current);
  }

  lemma CoreWakeUp(g: Geometry, s: State, stable: Image, current: Image)
    requires Core(g, s, stable, current) && Enabled(g, s, WakeUp)
    ensures Core(g, Next(g, s, WakeUp), stable, current)
  {
    var t := Next(g, s, WakeUp);
    BudgetNone(s.ops);
    BudgetNone(t.ops);
    assert HeldByOpen(t.cache, t.ops, t.phase);
  }

  lemma CoreReturn(g: Geometry, s: State, stable: Image, current: Image, op: nat)
    requires Core(g, s, stable, current) && Enabled(g, s, ReturnFromEnd(op))
    ensures Core(g, Next(g, s, ReturnFromEnd(op)), stable, current)
  {
    var t := Next(g, s, ReturnFromEnd(op));
    BudgetUpdate(s.ops, op, Returned);
    assert Accounting(g, t.header, t.ops, t.outstanding, t.mu, t.committing, t.phase);
    assert HeldByOpen(t.cache, t.ops, t.phase);
  }

  lemma CoreCrash(g: Geometry, s: State, stable: Image, current: Image)
    requires Core(g, s, stable, current)
    ensures Core(g, Next(g, s, Crash), stable, stable)
  {
    var t := Next(g, s, Crash);
    BudgetNone(t.ops);
  }

  lemma CoreReadHeader(g: Geometry, s: State, stable: Image, current: Image)
    requires Core(g, s, stable, current) && Enabled(g, s, ReadHeader)
    ensures Core(g, Next(g, s, ReadHeader), stable, current)
  {
    BudgetNone(s.ops);
  }
}
