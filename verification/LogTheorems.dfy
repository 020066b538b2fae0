/**
  What every run of the log machine guarantees, from power-on with any
  mountable disk, with any interleaving of operations, commits and crashes.
 */
module LogTheorems {
  import opened LogMachine
  import opened LogHistory
  import opened LogInvariant
  import opened LogCore
  import opened LogRuns

  // -------------------------------------------------------------- recovery

  /** The disk after the first `n` logged blocks were copied to their home. */
  function InstallFirst(g: Geometry, d: Disk, n: nat): (r: Disk)
    requires HeaderSector(g) < |d| && n <= LOG_MAX_SIZE
    ensures |r| == |d|
  {
    if n == 0 then d
    else
      var r := InstallFirst(g, d, n - 1);
      var home, copy := BlockSector(d[HeaderSector(g)][n]), BlockSector(LogBlock(g, n - 1));
      if home < |d| && copy < |d| then r[home := d[copy]] else r
  }

  /** What a mount that runs to its end reads: the logged blocks from the log,
      the others from their home. */
  function Recovered(g: Geometry, d: Disk): (r: Image)
    requires HeaderSector(g) < |d| && |d| == PARTITION_START + g.numBlocks
    ensures |r| == g.numBlocks
  {
    var h := d[HeaderSector(g)];
    InstallFirst(g, d, if NumLogged(h) <= LOG_MAX_SIZE then NumLogged(h) else LOG_MAX_SIZE)[PARTITION_START..]
  }

  ghost predicate Mountable(g: Geometry, d: Disk) {
    ValidGeometry(g) && ValidDisk(g, d) && ValidHeader(g, d[HeaderSector(g)])
  }

  lemma {:induction false} InstallFirstAt(g: Geometry, d: Disk, n: nat, b: nat)
    requires Mountable(g, d) && n <= NumLogged(d[HeaderSector(g)]) && IsDataBlock(g, b)
    ensures var h := d[HeaderSector(g)]; var r := InstallFirst(g, d, n);
      && (b !in h[1..1 + n] ==> r[BlockSector(b)] == d[BlockSector(b)])
      && (forall i :: 1 <= i < 1 + n && h[i] == b ==> r[BlockSector(b)] == d[BlockSector(LogBlock(g, i - 1))])
  {
    var h := d[HeaderSector(g)];
    if n > 0 {
      InstallFirstAt(g, d, n - 1, b);
      assert h[1..1 + n] == h[1..1 + (n - 1)] + [h[n]];
      if h[n] != b {
        assert b !in h[1..1 + n] ==> b !in h[1..1 + (n - 1)];
      } else {
        assert b in h[1..1 + n];
      }
    }
  }

  /** A disk is recoverable to an image exactly when mounting it gives the data
      blocks of that image. */
  lemma RecoverableIsRecovered(g: Geometry, d: Disk, stable: Image)
    requires Mountable(g, d) && |stable| == g.numBlocks
    ensures Recoverable(g, d, stable)
       <==> (forall b: nat :: IsDataBlock(g, b) ==> Recovered(g, d)[b] == stable[b])
  {
    var h := d[HeaderSector(g)];
    assert h[1..1 + NumLogged(h)] == Logged(h);
    forall b: nat | IsDataBlock(g, b)
      ensures b !in Logged(h) ==> Recovered(g, d)[b] == d[BlockSector(b)]
      ensures forall i :: 1 <= i < 1 + NumLogged(h) && h[i] == b ==>
        Recovered(g, d)[b] == d[BlockSector(LogBlock(g, i - 1))]
    {
      InstallFirstAt(g, d, NumLogged(h), b);
    }
    if Recoverable(g, d, stable) {
      forall b: nat | IsDataBlock(g, b) ensures Recovered(g, d)[b] == stable[b] {
        if b in Logged(h) {
          var i :| 0 <= i < |Logged(h)| && Logged(h)[i] == b;
          assert h[1 + i] == b;
        }
      }
    }
  }

  // ------------------------------------------------------------------ runs

  lemma PowerOnInvariant(g: Geometry, d: Disk)
    requires Mountable(g, d)
    ensures Inv(g, Recovered(g, d), PowerOn(d))
  {
    RecoverableIsRecovered(g, d, Recovered(g, d));
  }

  lemma {:induction false} RunKeepsInvariant(g: Geometry, init: Image, s: State, steps: seq<Step>)
    requires Inv(g, init, s) && Legal(g, s, steps)
    ensures Inv(g, init, Exec(g, s, steps))
    decreases |steps|
  {
    if steps != [] {
      KeepsInvariant(g, init, s, steps[0]);
      RunKeepsInvariant(g, init, Next(g, s, steps[0]), steps[1..]);
    }
  }

  /** A state that a run from power-on reaches. */
  ghost predicate Reaches(g: Geometry, d: Disk, steps: seq<Step>, s: State) {
    Mountable(g, d) && Legal(g, PowerOn(d), steps) && s == Exec(g, PowerOn(d), steps)
  }

  lemma ReachedInvariant(g: Geometry, d: Disk, steps: seq<Step>, s: State)
    requires Reaches(g, d, steps, s)
    ensures Inv(g, Recovered(g, d), s)
  {
    PowerOnInvariant(g, d);
    RunKeepsInvariant(g, Recovered(g, d), PowerOn(d), steps);
  }

  /** Crash atomicity.  Whenever the power fails, mounting the disk gives the
      initial image after exactly the writes of the operations in `durable`, in
      the order they were issued.  All writes of an operation survive or none
      does; every operation whose end_op returned survives; no operation that
      has not called end_op survives. */
  lemma CrashAtomicity(g: Geometry, d: Disk, steps: seq<Step>, s: State)
    requires Reaches(g, d, steps, s)
    ensures Mountable(g, s.disk)
    ensures var kept := Survivors(s.issued, s.durable);
      && (forall b: nat :: IsDataBlock(g, b) ==>
            Recovered(g, s.disk)[b] == Replay(Recovered(g, d), kept)[b])
      && (forall op: nat :: op in s.durable ==> Survivors(kept, {op}) == Survivors(s.issued, {op}))
      && (forall op: nat :: op !in s.durable ==> Survivors(kept, {op}) == [])
    ensures forall op :: 0 <= op < |s.ops| && s.ops[op].Returned? ==> op in s.durable
    ensures forall op :: 0 <= op < |s.ops| && s.ops[op].Open? ==> op !in s.durable
  {
    ReachedInvariant(g, d, steps, s);
    RecoverableIsRecovered(g, s.disk, Stable(Recovered(g, d), s));
    forall op: nat
      ensures op in s.durable ==>
        Survivors(Survivors(s.issued, s.durable), {op}) == Survivors(s.issued, {op})
      ensures op !in s.durable ==> Survivors(Survivors(s.issued, s.durable), {op}) == []
    {
      AllOrNothing(s.issued, s.durable, op);
    }
  }

  /** Outside commit and boot the home locations themselves hold the durable
      image, and any thread that acquires a block gets the last synced contents. */
  lemma CacheIsTransparent(g: Geometry, d: Disk, steps: seq<Step>, s: State, b: nat)
    requires Reaches(g, d, steps, s) && Booted(s.phase) && IsDataBlock(g, b)
    ensures ValidDisk(g, s.disk)
    ensures s.phase.Idle? ==> s.disk[0x20800 + b] == Stable(Recovered(g, d), s)[b]
    ensures !Held(s, b) ==> Contents(s, b) == Current(Recovered(g, d), s)[b]
    ensures b in Logged(s.header) ==> b in s.cache && !Enabled(g, s, Evict(b))
  {
    hide Legal, Exec, Replay, Survivors, Recovered, Accounting, History, Durability;
    ReachedInvariant(g, d, steps, s);
    if b !in s.cache {
      UnloggedOnDisk(g, s, Stable(Recovered(g, d), s), Current(Recovered(g, d), s), b);
    }
  }

  /** Log-space accounting in every reachable state. */
  lemma LogSpaceIsAccounted(g: Geometry, d: Disk, steps: seq<Step>, s: State)
    requires Reaches(g, d, steps, s)
    ensures s.mu == Budget(s.ops) && s.outstanding == NumOpen(s.ops)
    ensures NumLogged(s.header) + s.mu <= LogCapacity(g)
    ensures forall t: nat :: t < NumLogged(s.header) + Budget(s.ops) ==> HasPlace(g, t)
    ensures forall i, j :: 1 <= i < j < 1 + NumLogged(s.header) ==> s.header[i] != s.header[j]
    ensures s.committing ==> s.outstanding == 0
  {
    hide Legal, Exec, Replay, Survivors, Recovered, History, Durability, Recoverable, Progress, CacheAgrees;
    ReachedInvariant(g, d, steps, s);
    if s.committing {
      BudgetNone(s.ops);
    }
    forall t: nat | t < NumLogged(s.header) + Budget(s.ops) ensures HasPlace(g, t) {
      CapacityIsPlaces(g, t);
    }
  }

  /** A new operation is admitted exactly when, behind the blocks logged and those that
      the open operations may still log, there are ten more places. */
  lemma AdmitsIff(g: Geometry, d: Disk, steps: seq<Step>, s: State)
    requires Reaches(g, d, steps, s) && s.phase.Idle?
    ensures Enabled(g, s, BeginOp) <==> RoomFor(g, NumLogged(s.header) + Budget(s.ops) + 10)
  {
    hide Legal, Exec, Replay, Survivors, Recovered, History, Durability, Recoverable, Progress, CacheAgrees;
    hide Budget, LogCapacity, RoomFor;
    ReachedInvariant(g, d, steps, s);
    RoomIff(g, NumLogged(s.header) + Budget(s.ops) + 10);
  }

  /** Exactly when a sync panics: only an operation without budget can be hit,
      either because the block is new to the log or because the log is full. */
  lemma SyncPanicsIff(g: Geometry, d: Disk, steps: seq<Step>, s: State, op: nat, b: nat)
    requires Reaches(g, d, steps, s) && IsOpen(s.ops, op)
    ensures SyncPanics(g, s, op, b) <==>
      s.ops[op].rm == 0 && (b !in Logged(s.header) || !HasPlace(g, NumLogged(s.header)))
  {
    CapacityIsPlaces(g, NumLogged(s.header));
    hide Legal, Exec, Replay, Survivors, Recovered, History, Durability, Recoverable, Progress, CacheAgrees;
    ReachedInvariant(g, d, steps, s);
    BudgetMember(s.ops, op);
  }

  // ------------------------------------------------- nothing is taken back

  lemma {:induction false} DurableForever(g: Geometry, s: State, steps: seq<Step>)
    requires 1 <= g.numLog && Legal(g, s, steps)
    ensures s.durable <= Exec(g, s, steps).durable
    ensures s.issued <= Exec(g, s, steps).issued
    ensures |s.ops| <= |Exec(g, s, steps).ops|
    ensures forall op :: 0 <= op < |s.ops| && s.ops[op].Returned? ==> Exec(g, s, steps).ops[op].Returned?
    decreases |steps|
  {
    if steps != [] {
      DurableForever(g, Next(g, s, steps[0]), steps[1..]);
    }
  }

  /** The crash decides: an operation that it cut off is durable from then on,
      or never. */
  lemma {:induction false} LostStaysLost(g: Geometry, s: State, steps: seq<Step>, op: nat)
    requires 1 <= g.numLog && Legal(g, s, steps)
    requires op < |s.ops| && s.ops[op].Lost?
    ensures op < |Exec(g, s, steps).ops| && Exec(g, s, steps).ops[op].Lost?
    ensures op in Exec(g, s, steps).durable <==> op in s.durable
    decreases |steps|
  {
    if steps != [] {
      LostStaysLost(g, Next(g, s, steps[0]), steps[1..], op);
    }
  }

  // --------------------------------------------- recovery runs to its end

  function Repeat(x: Step, n: nat): (r: seq<Step>)
    ensures |r| == n
  {
    seq(n, _ => x)
  }

  /** The boot loop is never stuck. */
  lemma CanInstall(g: Geometry, init: Image, s: State)
    requires Inv(g, init, s) && s.phase.BootInstalling?
    ensures 1 <= g.numLog && Enabled(g, s, InstallBlock)
    ensures s.phase.tail < NumLogged(s.header)
    ensures var t := Next(g, s, InstallBlock);
      && t.header == s.header && t.phase == BootPhase(NumLogged(s.header), s.phase.tail + 1)
      && t.issued == s.issued && t.durable == s.durable
  {
    hide Replay, Survivors, History, Durability, CacheAgrees, Pending, Budget, NumOpen;
  }

  lemma {:induction false} InstallsRun(g: Geometry, init: Image, s: State, n: nat)
    requires Inv(g, init, s) && s.phase.BootInstalling? && n == NumLogged(s.header) - s.phase.tail
    ensures Legal(g, s, Repeat(InstallBlock, n))
    ensures var t := Exec(g, s, Repeat(InstallBlock, n));
      && Inv(g, init, t) && t.phase.BootErasingHeader?
      && t.issued == s.issued && t.durable == s.durable
    decreases n
  {
    hide Inv, Enabled, Next;
    CanInstall(g, init, s);
    var t := Next(g, s, InstallBlock);
    KeepsInvariant(g, init, s, InstallBlock);
    assert Repeat(InstallBlock, n)[1..] == Repeat(InstallBlock, n - 1);
    if n > 1 {
      InstallsRun(g, init, t, n - 1);
    }
  }

  lemma {:induction false} ExecAppend(g: Geometry, s: State, a: seq<Step>, b: seq<Step>)
    requires 1 <= g.numLog && Legal(g, s, a) && Legal(g, Exec(g, s, a), b)
    ensures Legal(g, s, a + b) && Exec(g, s, a + b) == Exec(g, Exec(g, s, a), b)
    decreases |a|
  {
    if a == [] {
      assert a + b == b;
    } else {
      assert (a + b)[1..] == a[1..] + b;
      ExecAppend(g, Next(g, s, a[0]), a[1..], b);
    }
  }

  /** The home locations after the last boot step. */
  lemma BootEnds(g: Geometry, init: Image, s: State)
    requires Inv(g, init, s) && s.phase.BootErasingHeader?
    ensures Enabled(g, s, EraseHeader)
    ensures var t := Next(g, s, EraseHeader);
      && Inv(g, init, t) && t.phase.Idle? && NumLogged(t.disk[HeaderSector(g)]) == 0
      && t.issued == s.issued && t.durable == s.durable
      && (forall b: nat :: IsDataBlock(g, b) ==> t.disk[BlockSector(b)] == Stable(init, s)[b])
  {
    KeepsInvariant(g, init, s, EraseHeader);
    AllInstalled(g, s.header, s.disk, Stable(init, s));
  }

  lemma BootInstalls(g: Geometry, init: Image, s: State, n: nat)
    requires Inv(g, init, s) && s.phase.BootReadHeader?
    requires ValidDisk(g, s.disk) && n == NumLogged(s.disk[HeaderSector(g)])
    ensures Enabled(g, s, ReadHeader)
    ensures var s1 := Next(g, s, ReadHeader);
      && Legal(g, s1, Repeat(InstallBlock, n))
      && var t := Exec(g, s1, Repeat(InstallBlock, n));
      && Inv(g, init, t) && t.phase.BootErasingHeader?
      && t.issued == s.issued && t.durable == s.durable
  {
    KeepsInvariant(g, init, s, ReadHeader);
    if n == 0 {
      assert Repeat(InstallBlock, n) == [];
    } else {
      InstallsRun(g, init, Next(g, s, ReadHeader), n);
    }
  }

  function BootSteps(n: nat): seq<Step> {
    [ReadHeader] + Repeat(InstallBlock, n) + [EraseHeader]
  }

  /** A mount that is not interrupted succeeds: from any state in which the
      machine has just been switched on, the boot steps can all be taken, and
      then every data block is at home and the log is empty. */
  lemma RecoveryCompletes(g: Geometry, init: Image, s: State, n: nat)
    requires Inv(g, init, s) && s.phase.BootReadHeader?
    requires ValidDisk(g, s.disk) && n == NumLogged(s.disk[HeaderSector(g)])
    ensures Legal(g, s, BootSteps(n))
    ensures var t := Exec(g, s, BootSteps(n));
      && Inv(g, init, t) && t.phase.Idle? && NumLogged(t.disk[HeaderSector(g)]) == 0
      && t.issued == s.issued && t.durable == s.durable
      && (forall b: nat :: IsDataBlock(g, b) ==> t.disk[BlockSector(b)] == Stable(init, s)[b])
  {
    BootInstalls(g, init, s, n);
    var s1 := Next(g, s, ReadHeader);
    var s2 := Exec(g, s1, Repeat(InstallBlock, n));
    BootEnds(g, init, s2);
    SameHistoryStable(init, s, s2);
    ThreeParts(g, s, ReadHeader, Repeat(InstallBlock, n), EraseHeader);
  }

  lemma SameHistoryStable(init: Image, s: State, t: State)
    requires s.issued == t.issued && s.durable == t.durable
    ensures Stable(init, s) == Stable(init, t)
  {
  }

  lemma ThreeParts(g: Geometry, s: State, a: Step, b: seq<Step>, c: Step)
    requires 1 <= g.numLog && Enabled(g, s, a) && Legal(g, Next(g, s, a), b)
    requires Enabled(g, Exec(g, Next(g, s, a), b), c)
    ensures Legal(g, s, [a] + b + [c])
    ensures Exec(g, s, [a] + b + [c]) == Next(g, Exec(g, Next(g, s, a), b), c)
  {
    assert [a][1..] == [] && [c][1..] == [];
    ExecAppend(g, s, [a], b);
    ExecAppend(g, s, [a] + b, [c]);
  }

  // ------------------------------------------------ a commit runs to its end

  /** Nobody holds a block of the log, so that the commit can acquire it. */
  ghost predicate LoggedAreFree(s: State) {
    forall b :: b in Logged(s.header) ==> !Held(s, b)
  }

  predicate CommitStep(step: Step) {
    step.CopyToLog? || step.WriteHeader? || step.InstallBlock? || step.EraseHeader? || step.WakeUp?
  }

  /** The writes of the commit that are left, and the wake-up. */
  function CommitLeft(p: Phase, n: nat): nat {
    match p
    case CopyingToLog(t) => if t < n then 2 * n - t + 3 else 0
    case WritingHeader => n + 3
    case Installing(t) => if t < n then n - t + 2 else 0
    case ErasingHeader => 2
    case WakingUp => 1
    case _ => 0
  }

  /** The commit is over, and those that were waiting in end_op can return. */
  ghost predicate GroupIsDone(s: State, t: State) {
    && t.phase.Idle? && !t.committing && NumLogged(t.header) == 0
    && |t.ops| == |s.ops| && forall op :: 0 <= op < |s.ops| && s.ops[op].Waiting? ==> t.ops[op].Woken?
  }

  ghost predicate CloserToDone(s: State, t: State) {
    && t.committing && t.ops == s.ops && LoggedAreFree(t)
    && CommitLeft(t.phase, NumLogged(t.header)) < CommitLeft(s.phase, NumLogged(s.header))
  }

  lemma LoggedAt(g: Geometry, init: Image, s: State, t: nat)
    requires Inv(g, init, s) && LoggedAreFree(s) && t < NumLogged(s.header)
    ensures ValidGeometry(g) && NumLogged(s.header) <= LOG_MAX_SIZE && IsDataBlock(g, s.header[1 + t])
    ensures s.header[1 + t] in Logged(s.header) && !Held(s, s.header[1 + t])
    ensures BlockSector(s.header[1 + t]) < |s.disk| && BlockSector(LogBlock(g, t)) < |s.disk|
  {
    hide Replay, Survivors, History, Durability, CacheAgrees, Pending, Budget, NumOpen, Recoverable, Progress;
    assert Logged(s.header)[t] == s.header[1 + t];
  }

  lemma CopyMoves(g: Geometry, s: State)
    requires 1 <= g.numLog && s.committing && LoggedAreFree(s) && Enabled(g, s, CopyToLog)
    ensures var t := Next(g, s, CopyToLog); t.issued == s.issued && CloserToDone(s, t)
  {
  }

  lemma InstallMoves(g: Geometry, s: State)
    requires 1 <= g.numLog && s.committing && LoggedAreFree(s) && Enabled(g, s, InstallBlock) && s.phase.Installing?
    ensures var t := Next(g, s, InstallBlock); t.issued == s.issued && CloserToDone(s, t)
  {
  }

  lemma CommitMoves(g: Geometry, init: Image, s: State) returns (step: Step)
    requires Inv(g, init, s) && s.committing && LoggedAreFree(s)
    ensures 1 <= g.numLog && CommitStep(step) && Enabled(g, s, step)
    ensures var t := Next(g, s, step); t.issued == s.issued && (GroupIsDone(s, t) || CloserToDone(s, t))
  {
    hide Replay, Survivors, History, Durability, CacheAgrees, Pending, Budget, NumOpen, Recoverable, Copied, Installed;
    hide PutCached, Contents, HeldByOpen, PinnedWhileLogged;
    match s.phase
    case CopyingToLog(t) =>
      step := CopyToLog;
      LoggedAt(g, init, s, t);
      CopyMoves(g, s);
    case WritingHeader => step := WriteHeader;
    case Installing(t) =>
      step := InstallBlock;
      LoggedAt(g, init, s, t);
      InstallMoves(g, s);
    case ErasingHeader => step := EraseHeader;
    case WakingUp => step := WakeUp;
  }

  /** A commit that is not interrupted ends, whatever it was doing, once nobody holds a
      logged block; then the log is empty and every operation that was inside end_op is
      durable and can return. */
  lemma {:induction false} CommitCompletes(g: Geometry, init: Image, s: State) returns (run: seq<Step>)
    requires Inv(g, init, s) && s.committing && LoggedAreFree(s)
    ensures 1 <= g.numLog && Legal(g, s, run) && forall i :: 0 <= i < |run| ==> CommitStep(run[i])
    ensures var t := Exec(g, s, run);
      && Inv(g, init, t) && t.phase.Idle? && NumLogged(t.header) == 0 && t.issued == s.issued && |t.ops| == |s.ops|
      && forall op :: 0 <= op < |s.ops| && s.ops[op].Waiting? ==> op in t.durable && Enabled(g, t, ReturnFromEnd(op))
    decreases CommitLeft(s.phase, NumLogged(s.header))
  {
    hide Inv, Enabled, Next, CommitLeft, LoggedAreFree;
    var step := CommitMoves(g, init, s);
    var t := Next(g, s, step);
    KeepsInvariant(g, init, s, step);
    var rest := [];
    if GroupIsDone(s, t) {
      forall op | 0 <= op < |s.ops| && s.ops[op].Waiting? ensures op in t.durable && Enabled(g, t, ReturnFromEnd(op)) {
        WokenReturns(g, init, t, op);
      }
    } else {
      rest := CommitCompletes(g, init, t);
    }
    run := [step] + rest;
    assert run[1..] == rest;
  }

  lemma WokenReturns(g: Geometry, init: Image, s: State, op: nat)
    requires Inv(g, init, s) && op < |s.ops| && s.ops[op].Woken?
    ensures 1 <= g.numLog && op in s.durable && Enabled(g, s, ReturnFromEnd(op))
  {
    hide Core;
    ValidGeometryOf(g, init, s);
  }

  lemma ValidGeometryOf(g: Geometry, init: Image, s: State)
    requires Inv(g, init, s)
    ensures ValidGeometry(g)
  {
  }
}
