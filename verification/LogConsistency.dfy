/**
  What the log is for: whatever property the file system has whenever no
  operation is open, it has after every crash.
 */
module LogConsistency {
  import opened LogMachine
  import opened LogHistory
  import opened LogInvariant
  import opened LogRuns
  import opened LogTheorems

  /** The log blocks of an image do not matter to `good`. */
  ghost predicate IgnoresLog(g: Geometry, good: Image -> bool) {
    forall a: Image, b: Image :: SameData(g, a, b) && good(a) ==> good(b)
  }

  ghost predicate SameData(g: Geometry, a: Image, b: Image) {
    |a| == g.numBlocks && |b| == g.numBlocks && forall k: nat :: IsDataBlock(g, k) ==> a[k] == b[k]
  }

  /** Along the run, each time the last open operation ends, what the operations
      see is good. */
  ghost predicate GoodWhenQuiet(g: Geometry, init: Image, s: State, steps: seq<Step>, good: Image -> bool)
    requires 1 <= g.numLog && Legal(g, s, steps)
    decreases |steps|
  {
    steps == [] ||
      var t := Next(g, s, steps[0]);
      && (steps[0].EndOp? && t.outstanding == 0 ==> good(Current(init, t)))
      && GoodWhenQuiet(g, init, t, steps[1..], good)
  }

  predicate BeforeHeader(p: Phase) {
    p.CopyingToLog? || p.WritingHeader?
  }

  /** The durable image is good, and so is the one about to be committed. */
  ghost predicate Safe(init: Image, s: State, good: Image -> bool) {
    good(Stable(init, s)) && (BeforeHeader(s.phase) ==> good(Current(init, s)))
  }

  lemma SafeStep(g: Geometry, init: Image, s: State, step: Step, good: Image -> bool)
    requires Inv(g, init, s) && Safe(init, s, good) && Enabled(g, s, step)
    requires var t := Next(g, s, step); step.EndOp? && t.outstanding == 0 ==> good(Current(init, t))
    ensures Safe(init, Next(g, s, step), good)
  {
    hide Stable, Current, Recorded, Accounting, Recoverable, Progress, CacheAgrees, Pending, PinnedWhileLogged, HeldByOpen;
    var t := Next(g, s, step);
    if LeavesHistory(step) {
      StepLeavesHistory(g, s, step);
      SameHistory(init, s, t);
      PhaseOrder(g, s, step);
    } else {
      match step
      case Sync(op, b) =>
        OpenIsIdle(g, init, s, op);
        SyncedData(g, init, s, op, b);
        SyncImages(init, s, t, Write(op, b, s.cache[b].data));
      case EndOp(op) =>
        EndImages(g, init, s, op);
        EndPhase(g, init, s, op);
      case WriteHeader =>
        RecordedWriteHeader(g, init, s);
      case Crash =>
        RecordedCrash(g, init, s);
    }
  }

  lemma PhaseOrder(g: Geometry, s: State, step: Step)
    requires 1 <= g.numLog && Enabled(g, s, step) && LeavesHistory(step)
    ensures BeforeHeader(Next(g, s, step).phase) ==> BeforeHeader(s.phase)
  {
  }

  lemma OpenIsIdle(g: Geometry, init: Image, s: State, op: nat)
    requires Inv(g, init, s) && IsOpen(s.ops, op)
    ensures s.phase.Idle? && op !in s.durable && s.mark <= |s.issued|
  {
  }

  lemma SyncedData(g: Geometry, init: Image, s: State, op: nat, b: nat)
    requires Inv(g, init, s) && Enabled(g, s, Sync(op, b))
    ensures b < |init|
  {
    KeepsInvariant(g, init, s, Sync(op, b));
    var t := Next(g, s, Sync(op, b));
    assert t.issued[|s.issued|].block == b;
  }

  lemma EndPhase(g: Geometry, init: Image, s: State, op: nat)
    requires Inv(g, init, s) && Enabled(g, s, EndOp(op))
    ensures var t := Next(g, s, EndOp(op)); BeforeHeader(t.phase) ==> t.outstanding == 0
  {
    OpenIsIdle(g, init, s, op);
  }

  lemma {:induction false} SafeRun(g: Geometry, init: Image, s: State, steps: seq<Step>, good: Image -> bool)
    requires 1 <= g.numLog && Inv(g, init, s) && Safe(init, s, good) && Legal(g, s, steps)
    requires GoodWhenQuiet(g, init, s, steps, good)
    ensures Safe(init, Exec(g, s, steps), good)
    decreases |steps|
  {
    hide Inv, Safe, Next, Enabled, Current;
    if steps != [] {
      SafeStep(g, init, s, steps[0], good);
      KeepsInvariant(g, init, s, steps[0]);
      SafeRun(g, init, Next(g, s, steps[0]), steps[1..], good);
    }
  }

  /** Take any property of the file system's blocks that holds of the image found
      at power-on and, in what the operations see, each time the last open
      operation ends.  Then it holds of what a mount recovers, whenever the power
      fails, however often it failed before, and however operations interleave. */
  lemma CrashConsistency(g: Geometry, d: Disk, steps: seq<Step>, s: State, good: Image -> bool)
    requires Reaches(g, d, steps, s) && IgnoresLog(g, good) && good(Recovered(g, d))
    requires GoodWhenQuiet(g, Recovered(g, d), PowerOn(d), steps, good)
    ensures Mountable(g, s.disk) && good(Recovered(g, s.disk))
  {
    hide Inv, Legal, Exec, GoodWhenQuiet, Recoverable;
    var init := Recovered(g, d);
    PowerOnInvariant(g, d);
    NothingYet(init, d);
    SafeRun(g, init, PowerOn(d), steps, good);
    ReachedInvariant(g, d, steps, s);
    CrashAtomicity(g, d, steps, s);
    assert SameData(g, Stable(init, s), Recovered(g, s.disk));
  }

  lemma NothingYet(init: Image, d: Disk)
    ensures Stable(init, PowerOn(d)) == init && !BeforeHeader(PowerOn(d).phase)
  {
  }
}
