/**
  That the locks come free: no process that a CPU executes is stuck.
 */
module ProcProgress {
  import opened ProcMachine
  import opened ProcInvariant
  import opened ProcSteps
  import opened ProcTheorems
  import opened ProcCalls

  // --------------------------------------------------- the table lock

  predicate StepOf(step: Step, c: nat) {
    step == SchedRelease(c) || step == SchedSwitch(c) || step == Advance(c)
  }

  /** The steps until the table lock is free. */
  function StepsLeft(s: State, c: nat): nat
    requires c < |s.cpu|
  {
    match s.cpu[c]
    case Idle => 0
    case Scanning => 1
    case Chosen(p) => if p < |s.proc| then 1 + PcSteps(s.proc[p].pc) else 0
    case Run(p) => if p < |s.proc| then PcSteps(s.proc[p].pc) else 0
  }

  function PcSteps(pc: Pc): nat {
    match pc
    case YieldSet => 3
    case YieldSwitch => 2
    case SleepRelease(_) => 4
    case SleepSet(_) => 3
    case SleepSwitch(_) => 2
    case SleepClear(_) => 2
    case WakeScan(_) => 2
    case ExitSet => 3
    case ExitSwitch => 2
    case WaitScan => 4
    case WaitSet => 3
    case WaitSwitch => 2
    case WaitClear => 5
    case ForkScan => 2
    case _ => 1
  }

  /** Whoever holds the table lock can go on, and each step brings it closer to giving the
      lock back. */
  lemma HolderGoesOn(s: State, c: nat) returns (step: Step)
    requires Core(s) && InRange(s) && s.lock == c && c < |s.cpu|
    ensures StepOf(step, c) && Enabled(s, step)
    ensures var t := Next(s, step); t.lock == NONE || (t.lock == c && c < |t.cpu| && StepsLeft(t, c) < StepsLeft(s, c))
  {
    hide OneCpu, SpinLocks, NoLostWakeup, NoMissedExit, Family;
    assert CpuHolds(s.cpu[c], s.proc) && CpuOk(s.cpu[c], s.proc);
    match s.cpu[c]
    case Scanning => step := SchedRelease(c);
    case Chosen(p) => step := SchedSwitch(c);
    case Run(p) =>
      step := Advance(c);
      PlaceOf(s, p);
      ProcessGoesOn(s, c);
  }

  lemma ProcessGoesOn(s: State, c: nat)
    requires Runs(s, c) && HoldsTable(s.proc[s.cpu[c].p].pc) && PcOk(s, s.cpu[c].p) && s.lock == c
    ensures Enabled(s, Advance(c))
    ensures var t := Advanced(s, c); t.lock == NONE || (t.lock == c && c < |t.cpu| && StepsLeft(t, c) < StepsLeft(s, c))
  {
    hide FindZombie, Adopted, WokenParent, Woken, FirstUnused;
  }

  /** The process on CPU `d` has not moved. */
  predicate Still(s: State, t: State, d: nat) {
    && Runs(s, d) && Runs(t, d) && t.cpu[d] == s.cpu[d] && |t.sl| == |s.sl| && |t.proc| == |s.proc|
    && t.proc[s.cpu[d].p].pc == s.proc[s.cpu[d].p].pc
  }

  ghost predicate OthersStill(s: State, t: State, c: nat) {
    |t.cpu| == |s.cpu| && forall d :: 0 <= d < |s.cpu| && d != c && Runs(s, d) ==> Still(s, t, d)
  }

  /** A step of CPU `c` does not move the processes on the others. */
  lemma StepLeavesOthers(s: State, step: Step, c: nat)
    requires Inv(s) && StepOf(step, c) && Enabled(s, step)
    ensures OthersStill(s, Next(s, step), c)
  {
    hide Inv, Advanced;
    if step.Advance? {
      OtherCpus(s, c);
      forall d | 0 <= d < |s.cpu| && d != c && Runs(s, d) ensures Still(s, Advanced(s, c), d) {
        RunningIsNoSlot(s, c, d);
        OtherPlaces(s, c, s.cpu[d].p);
      }
    }
  }

  lemma OtherCpus(s: State, c: nat)
    requires Enabled(s, Advance(c))
    ensures var t := Advanced(s, c); |t.cpu| == |s.cpu| && forall e :: 0 <= e < |s.cpu| && e != c ==> t.cpu[e] == s.cpu[e]
  {
    hide FindZombie, Adopted, WokenParent, Woken, FirstUnused, HasChild;
  }

  lemma RunningIsNoSlot(s: State, c: nat, d: nat)
    requires Inv(s) && Runs(s, c) && Runs(s, d) && c != d
    ensures s.cpu[c].p != s.cpu[d].p
    ensures Marking(s.proc[s.cpu[c].p].pc) ==> ForkSlot(s.proc[s.cpu[c].p].pc) != s.cpu[d].p
  {
    hide TableLock, SpinLocks, NoLostWakeup, NoMissedExit, Family, ForkSlots;
    assert Owner(s.cpu[c]) == s.cpu[c].p && Owner(s.cpu[d]) == s.cpu[d].p;
    assert CpuOk(s.cpu[d], s.proc);
    if Marking(s.proc[s.cpu[c].p].pc) {
      SlotIsIdle(s, c, ForkSlot(s.proc[s.cpu[c].p].pc));
    }
  }

  /** In every state of a run, whoever holds the table lock can give it back by its own
      steps alone, in which nobody else moves. */
  lemma TableLockComesFree(s: State, boot: State, before: seq<Step>, c: nat) returns (run: seq<Step>)
    requires Reachable(s, boot, before) && s.lock == c && c < |s.cpu|
    ensures Legal(s, run) && (forall i :: 0 <= i < |run| ==> StepOf(run[i], c))
    ensures Exec(s, run).lock == NONE && OthersStill(s, Exec(s, run), c)
  {
    ReachableInRange(s, boot, before);
    run := LockComesFree(s, c);
  }

  lemma {:induction false} LockComesFree(s: State, c: nat) returns (run: seq<Step>)
    requires Inv(s) && InRange(s) && s.lock == c && c < |s.cpu|
    ensures Legal(s, run) && (forall i :: 0 <= i < |run| ==> StepOf(run[i], c))
    ensures Exec(s, run).lock == NONE && OthersStill(s, Exec(s, run), c)
    decreases StepsLeft(s, c)
  {
    hide Inv, InRange, Enabled, Next, StepsLeft, Collides;
    if Runs(s, c) && s.proc[s.cpu[c].p].pc == ForkScan {
      run := [Advance(c), Advance(c)];
      ScanThenLeave(s, c);
    } else {
      PartsOf(s);
      var step := HolderGoesOn(s, c);
      var t := Next(s, step);
      NoScan(s, c, step);
      StepKeepsInv(s, step);
      StepKeepsRange(s, step);
      StepLeavesOthers(s, step, c);
      var rest := [];
      if t.lock != NONE {
        rest := LockComesFree(t, c);
      }
      run := [step] + rest;
      assert run[1..] == rest;
    }
  }

  lemma NoScan(s: State, c: nat, step: Step)
    requires StepOf(step, c) && !(Runs(s, c) && s.proc[s.cpu[c].p].pc == ForkScan)
    ensures !Collides(s, step)
  {
  }

  lemma ScanThenLeave(s: State, c: nat)
    requires Inv(s) && InRange(s) && s.lock == c && Runs(s, c) && s.proc[s.cpu[c].p].pc == ForkScan
    ensures Legal(s, [Advance(c), Advance(c)])
    ensures var t := Exec(s, [Advance(c), Advance(c)]); t.lock == NONE && OthersStill(s, t, c)
  {
    hide Inv;
    ScanLeaves(s, c);
    TwoSteps(s, Advance(c), Advance(c));
  }

  lemma ScanLeaves(s: State, c: nat)
    requires Inv(s) && s.lock == c && Runs(s, c) && s.proc[s.cpu[c].p].pc == ForkScan
    ensures Enabled(s, Advance(c)) && Enabled(Next(s, Advance(c)), Advance(c))
    ensures var t := Next(Next(s, Advance(c)), Advance(c)); t.lock == NONE && OthersStill(s, t, c)
  {
    hide FirstUnused, Inv;
    forall d | 0 <= d < |s.cpu| && d != c && Runs(s, d) ensures s.cpu[d].p != s.cpu[c].p {
      RunningIsNoSlot(s, c, d);
    }
  }

  lemma TwoSteps(s: State, a: Step, b: Step)
    requires Enabled(s, a) && Enabled(Next(s, a), b)
    ensures Legal(s, [a, b]) && Exec(s, [a, b]) == Next(Next(s, a), b)
  {
    hide Enabled, Next;
    OneStep(Next(s, a), b);
    assert [a, b][1..] == [b];
  }

  lemma OneStep(s: State, a: Step)
    requires Enabled(s, a)
    ensures Legal(s, [a]) && Exec(s, [a]) == Next(s, a)
  {
    hide Enabled, Next;
    assert [a][1..] == [];
  }

  /** An idle CPU can run any process that is ready, and give the lock back instead. */
  lemma IdleCpuRuns(s: State, c: nat, p: nat)
    requires c < |s.cpu| && s.cpu[c] == Idle && s.lock == NONE && p < |s.proc| && s.proc[p].state == RUNNABLE
    ensures var run := [SchedAcquire(c), SchedPick(c, p), SchedSwitch(c)];
      && Legal(s, run)
      && Exec(s, run) == s.(cpu := s.cpu[c := Run(p)], lock := c, proc := s.proc[p := s.proc[p].(state := RUNNING)])
    ensures var run := [SchedAcquire(c), SchedRelease(c)]; Legal(s, run) && Exec(s, run) == s
  {
    var s1 := Next(s, SchedAcquire(c));
    var s2 := Next(s1, SchedPick(c, p));
    assert Next(s2, SchedSwitch(c)).cpu == s.cpu[c := Run(p)];
    assert Next(s1, SchedRelease(c)).cpu == s.cpu;
    hide Enabled, Next;
    TwoSteps(s1, SchedPick(c, p), SchedSwitch(c));
    TwoSteps(s, SchedAcquire(c), SchedRelease(c));
    var run := [SchedAcquire(c), SchedPick(c, p), SchedSwitch(c)];
    assert run[1..] == [SchedPick(c, p), SchedSwitch(c)];
  }

  // ------------------------------------------------------- no deadlock

  /** The next action at `pc` has to wait for a lock. */
  predicate Blocked(s: State, pc: Pc) {
    match pc
    case YieldEnter => s.lock != NONE
    case SleepEnter(_) => s.lock != NONE
    case WakeEnter(_) => s.lock != NONE
    case ExitEnter => s.lock != NONE
    case WaitEnter => s.lock != NONE
    case ForkEnter => s.lock != NONE
    case AcqEnter(l) => l < |s.sl| && s.sl[l].spin != NONE
    case RelEnter(l) => l < |s.sl| && s.sl[l].spin != NONE
    case _ => false
  }

  /** Inside a call a process waits for nothing but the locks. */
  lemma WaitsOnlyForLocks(s: State, boot: State, before: seq<Step>, c: nat)
    requires Reachable(s, boot, before) && Runs(s, c) && s.proc[s.cpu[c].p].pc != Free
    ensures Enabled(s, Advance(c)) <==> !Blocked(s, s.proc[s.cpu[c].p].pc)
  {
    hide Reachable, Inv;
    ReachableInRange(s, boot, before);
    CanAdvance(s, c);
  }

  lemma CanAdvance(s: State, c: nat)
    requires Inv(s) && InRange(s) && Runs(s, c) && s.proc[s.cpu[c].p].pc != Free
    ensures Enabled(s, Advance(c)) <==> !Blocked(s, s.proc[s.cpu[c].p].pc)
  {
    hide TableLock, OneCpu, SpinLocks, NoLostWakeup, NoMissedExit, Family, ForkSlots, InRange;
    PlaceOf(s, s.cpu[c].p);
    assert CpuOk(s.cpu[c], s.proc);
  }

  /** A step of another CPU than `d`. */
  predicate NotOf(step: Step, d: nat) {
    (step.SchedRelease? || step.SchedSwitch? || step.Advance?) && step.c != d
  }

  lemma {:induction false} RunAppend(s: State, a: seq<Step>, b: seq<Step>)
    requires Legal(s, a) && Legal(Exec(s, a), b)
    ensures Legal(s, a + b) && Exec(s, a + b) == Exec(Exec(s, a), b)
    decreases |a|
  {
    hide Enabled, Next;
    if a == [] {
      assert a + b == b;
    } else {
      assert (a + b)[1..] == a[1..] + b;
      RunAppend(Next(s, a[0]), a[1..], b);
    }
  }

  /** The holder of the table lock is another CPU than those that execute a process which
      does not hold it. */
  lemma HolderIsOther(s: State, c: nat)
    requires Inv(s) && s.lock != NONE && Runs(s, c) && !HoldsTable(s.proc[s.cpu[c].p].pc)
    ensures 0 <= s.lock < |s.cpu| && s.lock != c
  {
    hide OneCpu, Places, SpinLocks, NoLostWakeup, NoMissedExit, Family, ForkSlots;
    assert !CpuHolds(s.cpu[c], s.proc);
  }

  /** A process that saw the lock taken goes to sleep and lets go of the spin lock. */
  lemma SleepFrees(s: State, c: nat, d: nat, l: nat)
    requires Runs(s, c) && Runs(s, d) && c != d && s.cpu[c].p != s.cpu[d].p && l < |s.sl|
    requires s.proc[s.cpu[c].p].pc == SleepEnter(l) && s.lock == NONE
    ensures Enabled(s, Advance(c)) && Enabled(Next(s, Advance(c)), Advance(c))
    ensures var t := Next(Next(s, Advance(c)), Advance(c)); Still(s, t, d) && t.sl[l].spin == NONE
  {
  }

  function SpinSteps(pc: Pc): nat {
    match pc
    case AcqTest(_) => 3
    case RelSet(_) => 2
    case _ => 1
  }

  /** The holder of a spin lock that does not need the table lock: one step. */
  lemma SpinStep(s: State, c: nat, l: nat)
    requires Runs(s, c) && l < |s.sl| && HoldsSpin(s.proc[s.cpu[c].p].pc, l) && !s.proc[s.cpu[c].p].pc.SleepEnter?
    ensures Enabled(s, Advance(c)) && !Collides(s, Advance(c))
    ensures var t := Next(s, Advance(c));
      && Runs(t, c) && t.cpu[c] == s.cpu[c] && |t.sl| == |s.sl|
      && (t.sl[l].spin == NONE
          || (HoldsSpin(t.proc[t.cpu[c].p].pc, l) && SpinSteps(t.proc[t.cpu[c].p].pc) < SpinSteps(s.proc[s.cpu[c].p].pc)))
  {
  }

  /** Whoever holds the spin lock of `l` can give it back while CPU `d` waits. */
  lemma {:induction false} SpinComesFree(s: State, c: nat, d: nat, l: nat) returns (run: seq<Step>)
    requires Inv(s) && InRange(s) && Runs(s, c) && Runs(s, d) && c != d && l < |s.sl|
    requires HoldsSpin(s.proc[s.cpu[c].p].pc, l) && !HoldsTable(s.proc[s.cpu[d].p].pc)
    ensures Legal(s, run) && forall i :: 0 <= i < |run| ==> NotOf(run[i], d)
    ensures var t := Exec(s, run); Still(s, t, d) && t.sl[l].spin == NONE
    decreases SpinSteps(s.proc[s.cpu[c].p].pc)
  {
    hide Inv, InRange, Enabled, Next, Collides, SpinSteps;
    RunningIsNoSlot(s, c, d);
    if s.proc[s.cpu[c].p].pc.SleepEnter? {
      var first := [];
      if s.lock != NONE {
        HolderIsOther(s, c);
        HolderIsOther(s, d);
        first := LockComesFree(s, s.lock);
      }
      var t := Exec(s, first);
      SleepFrees(t, c, d, l);
      TwoSteps(t, Advance(c), Advance(c));
      RunAppend(s, first, [Advance(c), Advance(c)]);
      run := first + [Advance(c), Advance(c)];
    } else {
      SpinStep(s, c, l);
      var t := Next(s, Advance(c));
      StepLeavesOthers(s, Advance(c), c);
      assert Still(s, t, d);
      var rest := [];
      if t.sl[l].spin != NONE {
        StepKeepsInv(s, Advance(c));
        StepKeepsRange(s, Advance(c));
        rest := SpinComesFree(t, c, d, l);
      }
      run := [Advance(c)] + rest;
      assert run[1..] == rest;
    }
  }

  /** No deadlock: in every state of a run, a process inside a call can take its next
      step once the other CPUs have taken some steps. */
  lemma NoDeadlock(s: State, boot: State, before: seq<Step>, c: nat) returns (run: seq<Step>)
    requires Reachable(s, boot, before) && Runs(s, c) && s.proc[s.cpu[c].p].pc != Free
    ensures Legal(s, run) && forall i :: 0 <= i < |run| ==> NotOf(run[i], c)
    ensures Still(s, Exec(s, run), c) && Enabled(Exec(s, run), Advance(c))
  {
    hide Reachable, Inv, InRange, Enabled, Next;
    ReachableInRange(s, boot, before);
    CanAdvance(s, c);
    var pc := s.proc[s.cpu[c].p].pc;
    run := [];
    if Blocked(s, pc) {
      if WantsTable(pc) {
        HolderIsOther(s, c);
        run := LockComesFree(s, s.lock);
        TableIsFree(s, Exec(s, run), c);
      } else {
        var l := pc.l;
        var holder := SpinHolder(s, l);
        run := SpinComesFree(s, holder, c, l);
        SpinIsFree(s, Exec(s, run), c);
      }
    }
  }

  /** The CPU that executes the holder of a spin lock. */
  lemma SpinHolder(s: State, l: nat) returns (c: nat)
    requires Inv(s) && l < |s.sl| && s.sl[l].spin != NONE
    ensures Runs(s, c) && HoldsSpin(s.proc[s.cpu[c].p].pc, l)
  {
    hide TableLock, OneCpu, NoLostWakeup, NoMissedExit, Family, ForkSlots;
    var p := s.sl[l].spin;
    assert HoldsSpin(s.proc[p].pc, l);
    assert !RestOk(s.proc[p]);
    c :| 0 <= c < |s.cpu| && Owner(s.cpu[c]) == p;
    assert CpuOk(s.cpu[c], s.proc);
  }

  lemma TableIsFree(s: State, t: State, c: nat)
    requires InRange(s) && Still(s, t, c) && WantsTable(s.proc[s.cpu[c].p].pc) && t.lock == NONE
    ensures Enabled(t, Advance(c))
  {
  }

  lemma SpinIsFree(s: State, t: State, c: nat)
    requires InRange(s) && Still(s, t, c) && WantsSpin(s.proc[s.cpu[c].p].pc)
    requires s.proc[s.cpu[c].p].pc.l < |t.sl| && t.sl[s.proc[s.cpu[c].p].pc.l].spin == NONE
    ensures Enabled(t, Advance(c))
  {
  }
}
