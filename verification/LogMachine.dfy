/**
  The write-ahead log of src/fs/cache.c as a transition system.

  A step is one critical section of the C code or one single-sector device
  write; a crash may come between any two steps, also while booting.  The
  volatile part of the state (cache, in-memory header, counters) is lost in a
  crash and the disk stays.  The fields `issued`, `mark` and `durable` record
  history: no step reads them.
 */
module LogMachine {

  // ---------------------------------------------------------------- layout

  const OP_MAX_NUM_BLOCKS := 10
  const LOG_MAX_SIZE := 63
  const PARTITION_START := 0x20800
  const SECTOR_WORDS := 64

  /** A 512-byte sector seen as 64 machine words.  As a log header, word 0 is
      `num_blocks` and words 1..64 are the array `block_no`. */
  type Sector = s: seq<nat> | |s| == SECTOR_WORDS witness seq(SECTOR_WORDS, _ => 0)

  /** A sector of zeros, such as the in-memory header before the first read. */
  function ZeroSector(): Sector {
    seq(SECTOR_WORDS, _ => 0)
  }

  datatype Option<+T> = None | Some(value: T)

  /** The fields of the super block that the cache uses. */
  datatype Geometry = Geometry(numBlocks: nat, logStart: nat, numLog: nat)

  ghost predicate ValidGeometry(g: Geometry) {
    && 1 <= g.numLog
    && g.logStart + g.numLog <= g.numBlocks
    && g.logStart < PARTITION_START
  }

  /** `log.mx` */
  function LogCapacity(g: Geometry): (n: nat)
    requires 1 <= g.numLog
  {
    if g.numLog - 1 <= LOG_MAX_SIZE then g.numLog - 1 else LOG_MAX_SIZE
  }

  /** Sector of block `b` for `device_read` and `device_write`. */
  function BlockSector(b: nat): nat {
    b + PARTITION_START
  }

  /** Sector of the log header: the partition offset is not added. */
  function HeaderSector(g: Geometry): nat {
    g.logStart
  }

  function LogBlock(g: Geometry, tail: nat): nat {
    g.logStart + tail + 1
  }

  /** There is a place `t` for a block: a word of the header and a block of the log. */
  predicate HasPlace(g: Geometry, t: nat) {
    1 + t < SECTOR_WORDS && IsLogBlock(g, LogBlock(g, t))
  }

  /** `log.mx` is the number of places. */
  lemma CapacityIsPlaces(g: Geometry, t: nat)
    requires 1 <= g.numLog
    ensures t < LogCapacity(g) <==> HasPlace(g, t)
  {
  }

  /** The log has room for `n` blocks. */
  ghost predicate RoomFor(g: Geometry, n: int) {
    forall t: nat :: t < n ==> HasPlace(g, t)
  }

  lemma RoomIff(g: Geometry, n: int)
    requires 1 <= g.numLog && 0 < n
    ensures RoomFor(g, n) <==> n <= LogCapacity(g)
  {
    hide HasPlace, LogCapacity;
    CapacityIsPlaces(g, n - 1);
    forall t: nat | t < n && n <= LogCapacity(g) ensures HasPlace(g, t) {
      CapacityIsPlaces(g, t);
    }
  }

  predicate IsLogBlock(g: Geometry, b: nat) {
    g.logStart <= b < g.logStart + g.numLog
  }

  /** Blocks that file-system operations use. */
  predicate IsDataBlock(g: Geometry, b: nat) {
    b < g.numBlocks && !IsLogBlock(g, b)
  }

  type Disk = seq<Sector>

  ghost predicate ValidDisk(g: Geometry, d: Disk) {
    |d| == PARTITION_START + g.numBlocks
  }

  /** No block shares its sector with the log header exactly when the log
      starts below the partition offset. */
  lemma HeaderSectorIsPrivate(g: Geometry)
    ensures (forall b: nat :: BlockSector(b) != HeaderSector(g)) <==> g.logStart < 0x20800
    ensures HeaderSector(g) == g.logStart && forall t: nat :: BlockSector(LogBlock(g, t)) == 0x20800 + g.logStart + 1 + t
  {
    if g.logStart >= PARTITION_START {
      assert BlockSector(g.logStart - PARTITION_START) == HeaderSector(g);
    }
  }

  // ----------------------------------------------------------------- state

  /** A cached block: `holder` is the thread that has acquired it, and `dirty`
      says that the holder changed it and has not yet called sync. */
  datatype Entry = Entry(data: Sector, pinned: bool, holder: Option<nat>, dirty: bool)

  /** An operation, from begin_op to the return of end_op. */
  datatype OpStatus =
    | Open(rm: nat)  // between begin_op and end_op, with `rm` blocks of budget left
    | Waiting        // inside end_op: sleeping, or carrying out the commit
    | Woken          // its group is committed and the wake-up was sent
    | Returned       // end_op has returned
    | Lost           // cut off by a crash before end_op returned

  datatype Phase =
    | Idle
    // inside commit()
    | CopyingToLog(tail: nat) | WritingHeader | Installing(tail: nat) | ErasingHeader | WakingUp
    // inside recover_from_log()
    | BootReadHeader | BootInstalling(tail: nat) | BootErasingHeader

  /** One effect of an operation: it synced block `block` with contents `data`. */
  datatype Write = Write(op: nat, block: nat, data: Sector)

  datatype State = State(
    disk: Disk,
    cache: map<nat, Entry>,
    header: Sector,
    ops: seq<OpStatus>,
    outstanding: int,
    mu: int,
    committing: bool,
    phase: Phase,
    // history
    issued: seq<Write>,
    mark: nat,
    durable: set<nat>)

  function NumLogged(h: Sector): nat {
    h[0]
  }

  /** The block numbers recorded in a header. */
  function Logged(h: Sector): (r: seq<nat>)
  {
    h[1..1 + if h[0] <= LOG_MAX_SIZE then h[0] else LOG_MAX_SIZE]
  }

  /** The contents `cache_acquire(b)` gives: the cached copy, or the disk's. */
  function Contents(s: State, b: nat): Sector
    requires BlockSector(b) < |s.disk|
  {
    if b in s.cache then s.cache[b].data else s.disk[BlockSector(b)]
  }

  predicate Held(s: State, b: nat) {
    b in s.cache && s.cache[b].holder.Some?
  }

  predicate HoldsNothing(s: State, who: nat) {
    forall b :: b in s.cache ==> s.cache[b].holder != Some(who)
  }

  /** The cache after block `b` was loaded (if need be) and its data set. */
  function PutCached(cache: map<nat, Entry>, b: nat, data: Sector): map<nat, Entry> {
    if b in cache then cache[b := cache[b].(data := data)]
    else cache[b := Entry(data, false, None, false)]
  }

  // ----------------------------------------------------------------- steps

  datatype Step =
    | BeginOp
    | Acquire(who: nat, b: nat)
    | Modify(op: nat, b: nat, data: Sector)
    | Sync(op: nat, b: nat)
    | Release(who: nat, b: nat)
    | Evict(b: nat)
    | EndOp(op: nat)
    | CopyToLog
    | WriteHeader
    | InstallBlock
    | EraseHeader
    | WakeUp
    | ReturnFromEnd(op: nat)
    | ReadHeader
    | Crash

  predicate IsOpen(ops: seq<OpStatus>, op: nat) {
    op < |ops| && ops[op].Open?
  }

  /** The three panics of cache_sync. */
  predicate SyncPanics(g: Geometry, s: State, op: nat, b: nat)
    requires 1 <= g.numLog && IsOpen(s.ops, op)
  {
    || NumLogged(s.header) >= LogCapacity(g)
    || s.outstanding < 1
    || (b !in Logged(s.header) && s.ops[op].rm == 0)
  }

  /** When a step can be taken.  A panic stops the kernel, so a panicking call
      is not a step; only a crash follows it. */
  predicate Enabled(g: Geometry, s: State, step: Step)
    requires 1 <= g.numLog
  {
    match step
    case BeginOp =>
      && s.phase.Idle? && !s.committing
      && NumLogged(s.header) + s.mu + OP_MAX_NUM_BLOCKS <= LogCapacity(g)
    case Acquire(who, b) => Booted(s.phase) && IsDataBlock(g, b) && !Held(s, b) && BlockSector(b) < |s.disk|
    case Modify(op, b, data) => IsOpen(s.ops, op) && b in s.cache && s.cache[b].holder == Some(op)
    case Sync(op, b) =>
      IsOpen(s.ops, op) && b in s.cache && s.cache[b].holder == Some(op) && !SyncPanics(g, s, op, b)
    case Release(who, b) => b in s.cache && s.cache[b].holder == Some(who) && !s.cache[b].dirty
    case Evict(b) => b in s.cache && !s.cache[b].pinned && s.cache[b].holder.None?
    case EndOp(op) =>
      IsOpen(s.ops, op) && HoldsNothing(s, op)
    case CopyToLog =>
      && s.phase.CopyingToLog? && s.phase.tail < NumLogged(s.header) <= LOG_MAX_SIZE
      && BlockSector(s.header[1 + s.phase.tail]) < |s.disk|
      && BlockSector(LogBlock(g, s.phase.tail)) < |s.disk|
      && !Held(s, s.header[1 + s.phase.tail])
    case WriteHeader => s.phase.WritingHeader? && HeaderSector(g) < |s.disk|
    case InstallBlock =>
      && (s.phase.Installing? || s.phase.BootInstalling?)
      && s.phase.tail < NumLogged(s.header) <= LOG_MAX_SIZE
      && BlockSector(s.header[1 + s.phase.tail]) < |s.disk|
      && BlockSector(LogBlock(g, s.phase.tail)) < |s.disk|
      && !Held(s, s.header[1 + s.phase.tail])
    case EraseHeader => (s.phase.ErasingHeader? || s.phase.BootErasingHeader?) && HeaderSector(g) < |s.disk|
    case WakeUp => s.phase.WakingUp?
    case ReturnFromEnd(op) => op < |s.ops| && s.ops[op].Woken?
    case ReadHeader => s.phase.BootReadHeader? && HeaderSector(g) < |s.disk|
    case Crash => true
  }

  predicate Booted(p: Phase) {
    !p.BootReadHeader? && !p.BootInstalling? && !p.BootErasingHeader?
  }

  /** The phase after `tail` log entries have been handled. */
  function CopyPhase(n: nat, tail: nat): Phase {
    if tail < n then CopyingToLog(tail) else WritingHeader
  }
  function InstallPhase(n: nat, tail: nat): Phase {
    if tail < n then Installing(tail) else ErasingHeader
  }
  function BootPhase(n: nat, tail: nat): Phase {
    if tail < n then BootInstalling(tail) else BootErasingHeader
  }

  /** The header after `cache_sync` recorded `b`. */
  function Record(h: Sector, b: nat): Sector {
    if b in Logged(h) || h[0] >= LOG_MAX_SIZE then h else h[1 + h[0] := b][0 := h[0] + 1]
  }

  /** Operations that wait for the current commit. */
  function WaitingOps(ops: seq<OpStatus>): set<nat> {
    set i | 0 <= i < |ops| && ops[i].Waiting? :: i
  }

  function Wake(ops: seq<OpStatus>): (r: seq<OpStatus>) {
    seq(|ops|, i requires 0 <= i < |ops| => if ops[i].Waiting? then Woken else ops[i])
  }

  function CutOff(ops: seq<OpStatus>): (r: seq<OpStatus>) {
    seq(|ops|, i requires 0 <= i < |ops| => if ops[i].Returned? then Returned else Lost)
  }

  function Next(g: Geometry, s: State, step: Step): State
    requires 1 <= g.numLog && Enabled(g, s, step)
  {
    match step
    case BeginOp =>
      s.(ops := s.ops + [Open(OP_MAX_NUM_BLOCKS)],
         outstanding := s.outstanding + 1,
         mu := s.mu + OP_MAX_NUM_BLOCKS)
    case Acquire(who, b) =>
      s.(cache := if b in s.cache then s.cache[b := s.cache[b].(holder := Some(who))]
                  else s.cache[b := Entry(s.disk[BlockSector(b)], false, Some(who), false)])
    case Modify(op, b, data) =>
      s.(cache := s.cache[b := s.cache[b].(data := data, dirty := true)])
    case Sync(op, b) => AfterSync(s, op, b)
    case Release(who, b) =>
      s.(cache := s.cache[b := s.cache[b].(holder := None)])
    case Evict(b) => s.(cache := s.cache - {b})
    case EndOp(op) => AfterEnd(s, op)
    case CopyToLog =>
      var data := Contents(s, s.header[1 + s.phase.tail]);
      var to := LogBlock(g, s.phase.tail);
      s.(disk := s.disk[BlockSector(to) := data],
         cache := PutCached(s.cache, to, data),
         phase := CopyPhase(NumLogged(s.header), s.phase.tail + 1))
    case WriteHeader =>
      s.(disk := s.disk[HeaderSector(g) := s.header],
         phase := InstallPhase(NumLogged(s.header), 0),
         durable := s.durable + WaitingOps(s.ops),
         mark := |s.issued|)
    case InstallBlock =>
      var data := Contents(s, LogBlock(g, s.phase.tail));
      var to := s.header[1 + s.phase.tail];
      var c := PutCached(PutCached(s.cache, LogBlock(g, s.phase.tail), data), to, data);
      s.(disk := s.disk[BlockSector(to) := data],
         cache := if s.phase.BootInstalling? then c[to := c[to].(pinned := false)] else c,
         phase := if s.phase.BootInstalling? then BootPhase(NumLogged(s.header), s.phase.tail + 1)
                  else InstallPhase(NumLogged(s.header), s.phase.tail + 1))
    case EraseHeader =>
      var h := s.header[0 := 0];
      s.(header := h,
         disk := s.disk[HeaderSector(g) := h],
         phase := if s.phase.ErasingHeader? then WakingUp else Idle)
    case WakeUp =>
      s.(committing := false, phase := Idle, ops := Wake(s.ops))
    case ReturnFromEnd(op) => s.(ops := s.ops[op := Returned])
    case ReadHeader =>
      var h := s.disk[HeaderSector(g)];
      s.(header := h, phase := BootPhase(NumLogged(h), 0))
    case Crash =>
      s.(cache := map[], header := ZeroSector(), outstanding := 0, mu := 0, committing := false,
         phase := BootReadHeader, ops := CutOff(s.ops), mark := |s.issued|)
  }

  /** cache_sync with an operation context, when it does not panic. */
  function AfterSync(s: State, op: nat, b: nat): State
    requires IsOpen(s.ops, op) && b in s.cache && (b in Logged(s.header) || s.ops[op].rm > 0)
  {
    var e := s.cache[b];
    var s' := s.(issued := s.issued + [Write(op, b, e.data)]);
    if b in Logged(s.header) then
      s'.(cache := s.cache[b := e.(dirty := false)])
    else
      s'.(cache := s.cache[b := e.(dirty := false, pinned := true)],
          header := Record(s.header, b),
          ops := s.ops[op := Open(s.ops[op].rm - 1)],
          mu := s.mu - 1)
  }

  /** cache_end_op up to the start of the commit, or up to the sleep. */
  function AfterEnd(s: State, op: nat): State
    requires IsOpen(s.ops, op)
  {
    var s' := s.(outstanding := s.outstanding - 1, mu := s.mu - s.ops[op].rm, ops := s.ops[op := Waiting]);
    if s'.outstanding != 0 then s'
    else if NumLogged(s.header) > 0 then s'.(committing := true, phase := CopyingToLog(0))
    else s'.(committing := true, phase := WakingUp, durable := s.durable + WaitingOps(s'.ops))
  }

  // ------------------------------------------------------------------ runs

  predicate Legal(g: Geometry, s: State, steps: seq<Step>)
    requires 1 <= g.numLog
    decreases |steps|
  {
    steps == [] || (Enabled(g, s, steps[0]) && Legal(g, Next(g, s, steps[0]), steps[1..]))
  }

  function Exec(g: Geometry, s: State, steps: seq<Step>): State
    requires 1 <= g.numLog && Legal(g, s, steps)
    decreases |steps|
  {
    if steps == [] then s else Exec(g, Next(g, s, steps[0]), steps[1..])
  }

  /** Power-on with disk `d`. */
  function PowerOn(d: Disk): State {
    State(d, map[], ZeroSector(), [], 0, 0, false, BootReadHeader, [], 0, {})
  }
}
