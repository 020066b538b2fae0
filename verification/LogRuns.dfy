/**
  What holds in every run of the log machine: crash atomicity, durability of
  returned operations, log-space accounting and transparency of the cache.
 */
module LogRuns {
  import opened LogMachine
  import opened LogHistory
  import opened LogInvariant
  import opened LogCore

  // -------------------------------------------------- history of one step

  /** Making the operations in `w` durable adds exactly their writes, when all
      of them were issued after position `mark`. */
  lemma ExtendDurable(init: Image, issued: seq<Write>, mark: nat, d: set<nat>, w: set<nat>)
    requires mark <= |issued|
    requires forall i :: 0 <= i < mark ==> issued[i].op !in w
    requires forall i :: mark <= i < |issued| ==> issued[i].op in w && issued[i].op !in d
    ensures Replay(init, Survivors(issued, d + w)) == Replay(Replay(init, Survivors(issued, d)), issued[mark..])
  {
    var past, pend := issued[..mark], issued[mark..];
    assert issued == past + pend;
    SurvivorsAppend(past, pend, d + w);
    SurvivorsAppend(past, pend, d);
    SurvivorsAgree(past, d + w, d);
    SurvivorsAll(pend, d + w);
    SurvivorsNone(pend, d);
    ReplayAppend(init, Survivors(past, d), pend);
    assert Survivors(past, d) + [] == Survivors(past, d);
  }

  /** The commit point: adding the waiting operations to the durable ones makes
      the current image stable. */
  lemma CommitPoint(g: Geometry, init: Image, s: State, ops: seq<OpStatus>)
    requires History(g, s.issued, s.mark, ops, s.header, s.phase)
    requires Durability(s.durable, ops, s.phase) && BeforeCommitPoint(s.phase)
    requires forall i :: 0 <= i < |ops| ==> !ops[i].Open?
    ensures Replay(init, Survivors(s.issued, s.durable + WaitingOps(ops))) == Current(init, s)
  {
    ExtendDurable(init, s.issued, s.mark, s.durable, WaitingOps(ops));
  }

  /** A sync by an operation that is not durable changes the current image only. */
  lemma SyncImages(init: Image, s: State, t: State, w: Write)
    requires s.mark <= |s.issued| && t.issued == s.issued + [w]
    requires t.mark == s.mark && t.durable == s.durable && w.op !in s.durable && w.block < |init|
    ensures Stable(init, t) == Stable(init, s)
    ensures Current(init, t) == Current(init, s)[w.block := w.data]
  {
    SurvivorsAppend(s.issued, [w], s.durable);
    SurvivorsNone([w], s.durable);
    assert Survivors(s.issued, s.durable) + [] == Survivors(s.issued, s.durable);
    assert t.issued[t.mark..] == s.issued[s.mark..] + [w];
    ReplayAppend(Stable(init, s), s.issued[s.mark..], [w]);
    assert [w][..|[w]| - 1] == [];
  }

  lemma RecordedSync(g: Geometry, s: State, op: nat, b: nat)
    requires ValidGeometry(g) && Recorded(g, s)
    requires Accounting(g, s.header, s.ops, s.outstanding, s.mu, s.committing, s.phase)
    requires IsDataBlock(g, b) && Enabled(g, s, Sync(op, b))
    ensures Recorded(g, Next(g, s, Sync(op, b)))
  {
    var t := Next(g, s, Sync(op, b));
    SyncOps(g, s, op, b);
    HistoryGrows(g, s.issued, Write(op, b, s.cache[b].data), s.mark, s.ops, t.ops, s.header, t.header);
  }

  lemma HistoryGrows(g: Geometry, issued: seq<Write>, w: Write, mark: nat,
                     ops: seq<OpStatus>, ops': seq<OpStatus>, h: Sector, h': Sector)
    requires History(g, issued, mark, ops, h, Idle)
    requires |ops'| == |ops| && IsOpen(ops', w.op)
    requires IsOpen(ops, w.op)
    requires forall i :: 0 <= i < |ops| && i != w.op ==> ops'[i] == ops[i]
    requires forall x :: x in Logged(h) ==> x in Logged(h')
    requires IsDataBlock(g, w.block) && w.block in Logged(h')
    ensures History(g, issued + [w], mark, ops', h', Idle)
  {
    var more := issued + [w];
    forall i | 0 <= i < |more|
      ensures more[i] == if i < |issued| then issued[i] else w
    {
    }
  }

  /** When nothing is logged, nothing is pending. */
  lemma EmptyLogNothingPending(g: Geometry, s: State)
    requires Recorded(g, s) && NumLogged(s.header) == 0
    ensures s.mark == |s.issued|
  {
    assert s.mark < |s.issued| ==> s.issued[s.mark].block in Logged(s.header);
  }

  lemma NothingPending(init: Image, s: State)
    requires s.mark == |s.issued|
    ensures Current(init, s) == Stable(init, s)
  {
    assert s.issued[s.mark..] == [];
  }

  lemma RecordedEnd(g: Geometry, s: State, op: nat)
    requires ValidGeometry(g) && Recorded(g, s)
    requires Accounting(g, s.header, s.ops, s.outstanding, s.mu, s.committing, s.phase)
    requires IsOpen(s.ops, op)
    ensures s.phase.Idle?
    ensures History(g, s.issued, s.mark, s.ops[op := Waiting], s.header, Idle)
    ensures Durability(s.durable, s.ops[op := Waiting], Idle)
    ensures Recorded(g, AfterEnd(s, op))
    ensures var ops := s.ops[op := Waiting];
      AfterEnd(s, op).outstanding == 0 ==> forall i :: 0 <= i < |ops| ==> !ops[i].Open?
  {
    BudgetUpdate(s.ops, op, Waiting);
    if AfterEnd(s, op).outstanding == 0 {
      NoneOpen(s.ops[op := Waiting]);
    }
    if NumLogged(s.header) == 0 {
      EmptyLogNothingPending(g, s);
    }
  }

  lemma EndImages(g: Geometry, init: Image, s: State, op: nat)
    requires ValidGeometry(g) && Recorded(g, s)
    requires Accounting(g, s.header, s.ops, s.outstanding, s.mu, s.committing, s.phase)
    requires IsOpen(s.ops, op)
    ensures NumLogged(s.header) == 0 ==> Current(init, s) == Stable(init, s)
    ensures var t := AfterEnd(s, op);
      Stable(init, t) == Stable(init, s) && Current(init, t) == Current(init, s)
  {
    RecordedEnd(g, s, op);
    if NumLogged(s.header) == 0 {
      EmptyLogNothingPending(g, s);
      NothingPending(init, s);
      if AfterEnd(s, op).outstanding == 0 {
        CommitPoint(g, init, s, s.ops[op := Waiting]);
        NothingPending(init, AfterEnd(s, op));
      }
    }
  }

  lemma RecordedWriteHeader(g: Geometry, init: Image, s: State)
    requires ValidGeometry(g) && Recorded(g, s)
    requires Accounting(g, s.header, s.ops, s.outstanding, s.mu, s.committing, s.phase)
    requires Enabled(g, s, WriteHeader)
    ensures var t := Next(g, s, WriteHeader);
      && Recorded(g, t)
      && Stable(init, t) == Current(init, s)
      && Current(init, t) == Current(init, s)
  {
    hide Survivors, Replay, Budget, NumOpen, ValidHeader;
    CommitPoint(g, init, s, s.ops);
    NothingPending(init, Next(g, s, WriteHeader));
  }

  lemma RecordedCrash(g: Geometry, init: Image, s: State)
    requires ValidGeometry(g) && Recorded(g, s)
    ensures var t := Next(g, s, Crash);
      && Recorded(g, t)
      && Stable(init, t) == Stable(init, s)
      && Current(init, t) == Stable(init, s)
  {
    NothingPending(init, Next(g, s, Crash));
  }

  /** Steps that neither sync, nor end, nor commit, nor crash. */
  predicate LeavesHistory(step: Step) {
    !step.Sync? && !step.EndOp? && !step.WriteHeader? && !step.Crash?
  }

  lemma SameHistory(init: Image, s: State, t: State)
    requires s.issued == t.issued && s.durable == t.durable && s.mark == t.mark
    ensures Stable(init, s) == Stable(init, t) && Current(init, s) == Current(init, t)
  {
  }

  lemma RecordedOther(g: Geometry, s: State, step: Step)
    requires ValidGeometry(g) && Recorded(g, s)
    requires Accounting(g, s.header, s.ops, s.outstanding, s.mu, s.committing, s.phase)
    requires Enabled(g, s, step) && LeavesHistory(step)
    ensures Recorded(g, Next(g, s, step))
  {
    hide Budget, NumOpen, ValidHeader;
    if step.WakeUp? {
      RecordedWakeUp(g, s);
    } else if step.BeginOp? {
      RecordedBegin(g, s);
    } else if step.ReturnFromEnd? {
      RecordedReturn(g, s, step.op);
    } else if step.CopyToLog? || step.InstallBlock? || step.EraseHeader? || step.ReadHeader? {
      RecordedPhase(g, s, Next(g, s, step));
    }
  }

  /** Moving on within commit() or recovery, on one side of the commit point. */
  lemma RecordedPhase(g: Geometry, s: State, t: State)
    requires Recorded(g, s)
    requires t.issued == s.issued && t.mark == s.mark && t.durable == s.durable && t.ops == s.ops
    requires BeforeCommitPoint(s.phase) ==> BeforeCommitPoint(t.phase) && t.header == s.header
    requires AfterCommitPoint(s.phase) ==> AfterCommitPoint(t.phase)
    requires !Booted(s.phase) ==> forall i :: 0 <= i < |s.ops| ==> !s.ops[i].Waiting? && !s.ops[i].Open?
    requires AfterCommitPoint(t.phase) ==> AfterCommitPoint(s.phase)
    ensures Recorded(g, t)
  {
  }

  lemma RecordedBegin(g: Geometry, s: State)
    requires 1 <= g.numLog && Recorded(g, s) && Enabled(g, s, BeginOp)
    ensures Recorded(g, Next(g, s, BeginOp))
  {
  }

  lemma RecordedReturn(g: Geometry, s: State, op: nat)
    requires 1 <= g.numLog && Recorded(g, s) && Enabled(g, s, ReturnFromEnd(op))
    ensures Recorded(g, Next(g, s, ReturnFromEnd(op)))
  {
  }

  lemma RecordedWakeUp(g: Geometry, s: State)
    requires ValidGeometry(g) && Recorded(g, s) && s.phase.WakingUp?
    ensures Recorded(g, Next(g, s, WakeUp))
  {
  }

  // ------------------------------------------------------------- the steps

  lemma KeepsSync(g: Geometry, init: Image, s: State, op: nat, b: nat)
    requires Inv(g, init, s) && Enabled(g, s, Sync(op, b))
    ensures Inv(g, init, Next(g, s, Sync(op, b)))
  {
    CoreSync(g, s, Stable(init, s), Current(init, s), op, b);
    RecordedSync(g, s, op, b);
    SyncImages(init, s, Next(g, s, Sync(op, b)), Write(op, b, s.cache[b].data));
  }

  lemma KeepsEnd(g: Geometry, init: Image, s: State, op: nat)
    requires Inv(g, init, s) && Enabled(g, s, EndOp(op))
    ensures Inv(g, init, Next(g, s, EndOp(op)))
  {
    EndImages(g, init, s, op);
    RecordedEnd(g, s, op);
    CoreEnd(g, s, Stable(init, s), Current(init, s), op);
  }

  lemma StepLeavesHistory(g: Geometry, s: State, step: Step)
    requires 1 <= g.numLog && Enabled(g, s, step) && LeavesHistory(step)
    ensures var t := Next(g, s, step); t.issued == s.issued && t.durable == s.durable && t.mark == s.mark
  {
  }

  lemma KeepsOther(g: Geometry, init: Image, s: State, step: Step)
    requires Inv(g, init, s) && Enabled(g, s, step) && LeavesHistory(step)
    ensures Inv(g, init, Next(g, s, step))
  {
    hide Stable, Current, Recorded, Accounting, Recoverable, Progress, CacheAgrees, Pending,
      PinnedWhileLogged, HeldByOpen, Next, Enabled;
    StepLeavesHistory(g, s, step);
    CoreOther(g, s, Stable(init, s), Current(init, s), step);
    RecordedOther(g, s, step);
    SameHistory(init, s, Next(g, s, step));
  }

  /** Every step keeps the invariant. */
  lemma KeepsInvariant(g: Geometry, init: Image, s: State, step: Step)
    requires Inv(g, init, s) && Enabled(g, s, step)
    ensures Inv(g, init, Next(g, s, step))
  {
    if LeavesHistory(step) {
      KeepsOther(g, init, s, step);
    } else {
      match step
      case Sync(op, b) => KeepsSync(g, init, s, op, b);
      case EndOp(op) => KeepsEnd(g, init, s, op);
      case WriteHeader =>
        CoreWriteHeader(g, s, Stable(init, s), Current(init, s));
        RecordedWriteHeader(g, init, s);
      case Crash =>
        CoreCrash(g, s, Stable(init, s), Current(init, s));
        RecordedCrash(g, init, s);
    }
  }

  lemma CoreOther(g: Geometry, s: State, stable: Image, current: Image, step: Step)
    requires Core(g, s, stable, current) && Enabled(g, s, step) && LeavesHistory(step)
    ensures Core(g, Next(g, s, step), stable, current)
  {
    match step
    case BeginOp => CoreBegin(g, s, stable, current);
    case Acquire(who, b) => CoreAcquire(g, s, stable, current, who, b);
    case Modify(op, b, data) => CoreModify(g, s, stable, current, op, b, data);
    case Release(who, b) => CoreRelease(g, s, stable, current, who, b);
    case Evict(b) => CoreEvict(g, s, stable, current, b);
    case CopyToLog => CoreCopy(g, s, stable, current);
    case InstallBlock => CoreInstall(g, s, stable, current);
    case EraseHeader => CoreErase(g, s, stable, current);
    case WakeUp => CoreWakeUp(g, s, stable, current);
    case ReturnFromEnd(op) => CoreReturn(g, s, stable, current, op);
    case ReadHeader => CoreReadHeader(g, s, stable, current);
  }
}
