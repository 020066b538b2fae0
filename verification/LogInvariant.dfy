/**
  The invariant of the log machine.  Each part speaks of the state components
  it needs; `stable` is the durable image and `current` the image that running
  operations see.
 */
module LogInvariant {
  import opened LogMachine
  import opened LogHistory

  ghost predicate ValidHeader(g: Geometry, h: Sector)
    requires 1 <= g.numLog
  {
    && NumLogged(h) <= LogCapacity(g)
    && (forall i :: 1 <= i < 1 + NumLogged(h) ==> IsDataBlock(g, h[i]))
    && (forall i, j :: 1 <= i < j < 1 + NumLogged(h) ==> h[i] != h[j])
  }

  predicate BeforeCommitPoint(p: Phase) {
    p.Idle? || p.CopyingToLog? || p.WritingHeader?
  }

  predicate AfterCommitPoint(p: Phase) {
    p.Installing? || p.ErasingHeader? || p.WakingUp?
  }

  /** log.mu, log.outstanding, log.committing and the header agree with the
      operations. */
  ghost predicate Accounting(g: Geometry, h: Sector, ops: seq<OpStatus>,
                             outstanding: int, mu: int, committing: bool, p: Phase)
    requires 1 <= g.numLog
  {
    && mu == Budget(ops)
    && outstanding == NumOpen(ops)
    && NumLogged(h) + mu <= LogCapacity(g)
    && ValidHeader(g, h)
    && (committing <==> (Booted(p) && !p.Idle?))
    && (committing || !Booted(p) ==> forall i :: 0 <= i < |ops| ==> !ops[i].Open?)
    && (!Booted(p) ==> forall i :: 0 <= i < |ops| ==> ops[i].Returned? || ops[i].Lost?)
  }

  /** The writes after `mark` are those of the operations of the current group. */
  ghost predicate History(g: Geometry, issued: seq<Write>, mark: nat, ops: seq<OpStatus>, h: Sector, p: Phase) {
    && mark <= |issued|
    && (forall i :: 0 <= i < |issued| ==> issued[i].op < |ops| && IsDataBlock(g, issued[i].block))
    && (forall i :: mark <= i < |issued| ==> ops[issued[i].op].Open? || ops[issued[i].op].Waiting?)
    && (forall i :: mark <= i < |issued| ==> issued[i].block in Logged(h))
    && (!BeforeCommitPoint(p) ==> mark == |issued|)
    && (forall i :: 0 <= i < mark ==> !ops[issued[i].op].Open?)
    && (BeforeCommitPoint(p) ==> forall i :: 0 <= i < mark ==> !ops[issued[i].op].Waiting?)
  }

  ghost predicate Durability(durable: set<nat>, ops: seq<OpStatus>, p: Phase) {
    && (forall op :: op in durable ==> op < |ops| && !ops[op].Open?)
    && (forall op :: 0 <= op < |ops| && (ops[op].Woken? || ops[op].Returned?) ==> op in durable)
    && (forall op :: 0 <= op < |ops| && ops[op].Waiting? ==> (op in durable <==> AfterCommitPoint(p)))
  }

  /** Reading the header and installing the logged blocks gives `stable`. */
  ghost predicate Recoverable(g: Geometry, d: Disk, stable: Image)
    requires ValidGeometry(g)
  {
    && ValidDisk(g, d) && |stable| == g.numBlocks
    && var h := d[HeaderSector(g)];
    && ValidHeader(g, h)
    && (forall i :: 1 <= i < 1 + NumLogged(h) ==> d[BlockSector(LogBlock(g, i - 1))] == stable[h[i]])
    && (forall b: nat :: IsDataBlock(g, b) && b !in Logged(h) ==> d[BlockSector(b)] == stable[b])
  }

  /** The first `n` logged blocks have been copied to the log area. */
  ghost predicate Copied(g: Geometry, h: Sector, d: Disk, current: Image, n: nat)
    requires ValidGeometry(g) && ValidDisk(g, d) && |current| == g.numBlocks && ValidHeader(g, h)
  {
    forall i :: 1 <= i < 1 + n && i < 1 + NumLogged(h) ==>
      d[BlockSector(LogBlock(g, i - 1))] == current[h[i]]
  }

  /** The first `n` logged blocks have been installed at their home. */
  ghost predicate Installed(g: Geometry, h: Sector, d: Disk, stable: Image, n: nat)
    requires ValidGeometry(g) && ValidDisk(g, d) && |stable| == g.numBlocks && ValidHeader(g, h)
  {
    forall i :: 1 <= i < 1 + n && i < 1 + NumLogged(h) ==> d[BlockSector(h[i])] == stable[h[i]]
  }

  ghost predicate Progress(g: Geometry, p: Phase, h: Sector, d: Disk, stable: Image, current: Image)
    requires ValidGeometry(g) && ValidDisk(g, d) && ValidHeader(g, h)
    requires |stable| == g.numBlocks && |current| == g.numBlocks
  {
    var dh := d[HeaderSector(g)];
    match p
    case Idle => NumLogged(dh) == 0
    case CopyingToLog(t) => NumLogged(dh) == 0 && t < NumLogged(h) && Copied(g, h, d, current, t)
    case WritingHeader => NumLogged(dh) == 0 && 0 < NumLogged(h) && Copied(g, h, d, current, LOG_MAX_SIZE)
    case Installing(t) => dh == h && t < NumLogged(h) && Installed(g, h, d, stable, t)
    case ErasingHeader => dh == h && Installed(g, h, d, stable, LOG_MAX_SIZE)
    case WakingUp => NumLogged(dh) == 0 && NumLogged(h) == 0
    case BootReadHeader => NumLogged(h) == 0
    case BootInstalling(t) => dh == h && t < NumLogged(h) && Installed(g, h, d, stable, t)
    case BootErasingHeader => dh == h && Installed(g, h, d, stable, LOG_MAX_SIZE)
  }

  /** Only logged blocks differ between the durable and the current image. */
  ghost predicate Pending(g: Geometry, p: Phase, h: Sector, stable: Image, current: Image) {
    && |stable| == g.numBlocks && |current| == g.numBlocks
    && (!BeforeCommitPoint(p) ==> current == stable)
    && (forall b: nat :: IsDataBlock(g, b) && b !in Logged(h) ==> current[b] == stable[b])
  }

  /** A logged block stays in the cache, pinned, until its group is committed. */
  ghost predicate PinnedWhileLogged(p: Phase, h: Sector, cache: map<nat, Entry>) {
    Booted(p) ==> forall b :: b in Logged(h) ==> b in cache && cache[b].pinned
  }

  /** Cached log blocks equal the disk; clean cached data blocks are current. */
  ghost predicate CacheAgrees(g: Geometry, cache: map<nat, Entry>, d: Disk, current: Image)
    requires ValidGeometry(g) && ValidDisk(g, d) && |current| == g.numBlocks
  {
    && (forall b :: b in cache ==> b < g.numBlocks)
    && (forall b :: b in cache && IsLogBlock(g, b) ==>
          cache[b] == Entry(d[BlockSector(b)], false, None, false))
    && (forall b :: b in cache && !IsLogBlock(g, b) && !cache[b].dirty ==> cache[b].data == current[b])
  }

  /** A changed block is held by an open operation. */
  ghost predicate HeldByOpen(cache: map<nat, Entry>, ops: seq<OpStatus>, p: Phase) {
    && (forall b :: b in cache && cache[b].dirty ==>
          cache[b].holder.Some? && IsOpen(ops, cache[b].holder.value))
    && (!Booted(p) ==> forall b :: b in cache ==> cache[b].holder.None?)
  }

  /** The part of the invariant that does not look at the history. */
  ghost predicate Core(g: Geometry, s: State, stable: Image, current: Image) {
    && ValidGeometry(g) && ValidDisk(g, s.disk)
    && Accounting(g, s.header, s.ops, s.outstanding, s.mu, s.committing, s.phase)
    && Pending(g, s.phase, s.header, stable, current)
    && Recoverable(g, s.disk, stable)
    && Progress(g, s.phase, s.header, s.disk, stable, current)
    && PinnedWhileLogged(s.phase, s.header, s.cache)
    && CacheAgrees(g, s.cache, s.disk, current)
    && HeldByOpen(s.cache, s.ops, s.phase)
  }

  /** The durable image: the initial image after the durable operations. */
  function Stable(init: Image, s: State): Image {
    Replay(init, Survivors(s.issued, s.durable))
  }

  /** What running operations see: the durable image after the writes issued
      since the last commit or crash. */
  function Current(init: Image, s: State): Image
  {
    if s.mark <= |s.issued| then Replay(Stable(init, s), s.issued[s.mark..]) else init
  }

  ghost predicate Recorded(g: Geometry, s: State) {
    && History(g, s.issued, s.mark, s.ops, s.header, s.phase)
    && Durability(s.durable, s.ops, s.phase)
  }

  ghost predicate Inv(g: Geometry, init: Image, s: State) {
    && |init| == g.numBlocks
    && Core(g, s, Stable(init, s), Current(init, s))
    && Recorded(g, s)
  }
}
