/**
  Every step of the process machine keeps its invariant.
 */
module ProcSteps {
  import opened ProcMachine
  import opened ProcInvariant

  /** A step that changes the record of the running process, and perhaps takes or
      releases the table lock. */
  lemma OwnStep(s: State, c: nat, p: nat, pr: Proc, lock': int)
    requires Core(s) && c < |s.cpu| && s.cpu[c] == Run(p) && p < |s.proc|
    requires lock' == s.lock || (s.lock == NONE && lock' == c) || (s.lock == c && lock' == NONE)
    requires lock' == c <==> HoldsTable(pr.pc)
    requires RunOk(pr) && pr.state != ZOMBIE && pr.parent == s.proc[p].parent
    requires forall l :: 0 <= l < |s.sl| ==> (HoldsSpin(pr.pc, l) <==> HoldsSpin(s.proc[p].pc, l))
    requires forall l :: 0 <= l < |s.sl| ==>
      && (SawLocked(pr.pc, l) ==> s.sl[l].locked)
      && (Waiting(pr, l) ==> s.sl[l].locked || Waiting(s.proc[p], l))
      && (WillWake(s.proc[p].pc, l) ==> WillWake(pr.pc, l))
    requires WaitsForChild(pr) ==>
      WaitsForChild(s.proc[p]) || forall q :: 0 <= q < |s.proc| ==> !ZombieChild(s.proc, p, q)
    requires p == s.init ==> !Exiting(pr.pc)
    ensures Core(s.(proc := s.proc[p := pr], lock := lock'))
  {
    hide TableLock, OneCpu, Places, SpinLocks, NoLostWakeup, NoMissedExit, Family;
    TableLockKept(s.cpu, s.lock, lock', s.proc, c, p, pr);
    PlacesKept(s.cpu, s.proc, c, p, pr);
    SpinLocksKept(s.proc, s.sl, p, pr);
    WakeupKept(s.proc, s.sl, s.sl, p, pr);
    ExitKept(s.proc, s.init, p, pr);
  }

  /** What holds of the process on CPU `c`. */
  lemma Running(s: State, c: nat)
    requires Core(s) && Runs(s, c)
    ensures var pr := s.proc[s.cpu[c].p];
      RunOk(pr) && (s.lock == c <==> HoldsTable(pr.pc)) && (s.cpu[c].p == s.init ==> !Exiting(pr.pc))
  {
    assert CpuOk(s.cpu[c], s.proc) && (s.lock == c <==> CpuHolds(s.cpu[c], s.proc));
  }

  lemma RunsProcess(s: State, c: nat)
    requires Core(s) && Runs(s, c)
    ensures !Vacant(s.proc[s.cpu[c].p].state)
  {
    assert CpuOk(s.cpu[c], s.proc);
  }

  lemma BeginStep(s: State, c: nat, call: Call)
    requires Core(s) && Enabled(s, Begin(c, call))
    ensures Core(Next(s, Begin(c, call)))
  {
    hide TableLock, OneCpu, Places, SpinLocks, NoLostWakeup, NoMissedExit, Family;
    Running(s, c);
    var p := s.cpu[c].p;
    OwnStep(s, c, p, s.proc[p].(pc := Entry(call)), s.lock);
  }

  predicate Changes(pc: Pc) {
    pc.YieldSet? || pc.SleepSet? || pc.SleepClear? || pc.WaitSet? || pc.WaitClear?
  }

  predicate Leaves(pc: Pc) {
    pc.YieldLeave? || pc.SleepLeave? || pc.WakeLeave? || pc.WaitLeave? || pc.ForkNone? || pc.ForkLeave?
  }

  /** Taking the table lock. */
  lemma EnterSteps(s: State, c: nat)
    requires Core(s) && Enabled(s, Advance(c)) && WantsTable(s.proc[s.cpu[c].p].pc)
    ensures Core(Advanced(s, c))
  {
    hide TableLock, OneCpu, Places, SpinLocks, NoLostWakeup, NoMissedExit, Family, Core;
    Running(s, c);
    var p := s.cpu[c].p;
    var s' := Advanced(s, c);
    if s.proc[p].pc.SleepEnter? {
      StillLocked(s, p, s.proc[p].pc.l);
    }
    OwnStep(s, c, p, s'.proc[p], s'.lock);
    assert s' == s.(proc := s.proc[p := s'.proc[p]], lock := s'.lock);
  }

  /** Changing its own state or channel under the table lock. */
  lemma ChangeSteps(s: State, c: nat)
    requires Core(s) && Enabled(s, Advance(c)) && Changes(s.proc[s.cpu[c].p].pc)
    ensures Core(Advanced(s, c))
  {
    hide TableLock, OneCpu, Places, SpinLocks, NoLostWakeup, NoMissedExit, Family, Core;
    Running(s, c);
    var p := s.cpu[c].p;
    var s' := Advanced(s, c);
    if s.proc[p].pc == WaitSet {
      NoZombie(s, p);
    }
    OwnStep(s, c, p, s'.proc[p], s'.lock);
    assert s' == s.(proc := s.proc[p := s'.proc[p]], lock := s'.lock);
  }

  /** Releasing the table lock. */
  lemma LeaveSteps(s: State, c: nat)
    requires Core(s) && Enabled(s, Advance(c)) && Leaves(s.proc[s.cpu[c].p].pc)
    ensures Core(Advanced(s, c))
  {
    hide TableLock, OneCpu, Places, SpinLocks, NoLostWakeup, NoMissedExit, Family, Core;
    Running(s, c);
    var p := s.cpu[c].p;
    var s' := Advanced(s, c);
    OwnStep(s, c, p, s'.proc[p], s'.lock);
    assert s' == s.(proc := s.proc[p := s'.proc[p]], lock := s'.lock);
  }

  lemma NoZombie(s: State, p: nat)
    requires Core(s) && p < |s.proc| && WaitsForChild(s.proc[p])
    ensures forall q :: 0 <= q < |s.proc| ==> !ZombieChild(s.proc, p, q)
  {
  }

  lemma StillLocked(s: State, p: nat, l: nat)
    requires Core(s) && p < |s.proc| && SawLocked(s.proc[p].pc, l)
    ensures l < |s.sl| ==> s.sl[l].locked
  {
  }

  // ------------------------------------------------------ sleep locks

  lemma SpinStep(s: State, c: nat, p: nat, pr: Proc, sl': seq<SleepLock>)
    requires Core(s) && c < |s.cpu| && s.cpu[c] == Run(p) && p < |s.proc|
    requires s.lock == c <==> HoldsTable(pr.pc)
    requires RunOk(pr) && pr.state == s.proc[p].state && pr.state != ZOMBIE && pr.parent == s.proc[p].parent
    requires !WaitsForChild(pr) && !Exiting(pr.pc)
    requires SpinLocks(s.proc[p := pr], sl') && NoLostWakeup(s.proc[p := pr], sl')
    ensures Core(s.(proc := s.proc[p := pr], sl := sl'))
  {
    hide TableLock, OneCpu, Places, SpinLocks, NoLostWakeup, NoMissedExit, Family;
    TableLockKept(s.cpu, s.lock, s.lock, s.proc, c, p, pr);
    PlacesKept(s.cpu, s.proc, c, p, pr);
    ExitKept(s.proc, s.init, p, pr);
  }

  predicate IsSpinStep(pc: Pc) {
    pc.AcqEnter? || pc.AcqLeave? || pc.RelEnter? || pc.RelLeave? || pc.SleepRelease?
  }

  /** Where a process goes after it took or released a spin lock. */
  function AfterSpin(pc: Pc): Pc
    requires IsSpinStep(pc)
  {
    match pc
    case AcqEnter(l) => AcqTest(l)
    case AcqLeave(l) => Free
    case RelEnter(l) => RelSet(l)
    case RelLeave(l) => WakeEnter(l)
    case SleepRelease(l) => SleepSet(l)
  }

  lemma SpinEffect(s: State, c: nat)
    requires Enabled(s, Advance(c)) && IsSpinStep(s.proc[s.cpu[c].p].pc)
    ensures var p := s.cpu[c].p;
      var pc := s.proc[p].pc;
      Advanced(s, c) == s.(proc := s.proc[p := s.proc[p].(pc := AfterSpin(pc))],
                           sl := s.sl[pc.l := s.sl[pc.l].(spin := if WantsSpin(pc) then p else NONE)])
  {
  }

  lemma SpinSteps(s: State, c: nat)
    requires Core(s) && Enabled(s, Advance(c)) && IsSpinStep(s.proc[s.cpu[c].p].pc)
    ensures Core(Advanced(s, c))
  {
    hide TableLock, OneCpu, Places, SpinLocks, NoLostWakeup, NoMissedExit, Family, Advanced;
    Running(s, c);
    SpinEffect(s, c);
    var p := s.cpu[c].p;
    var l := s.proc[p].pc.l;
    var pr := s.proc[p].(pc := AfterSpin(s.proc[p].pc));
    if WantsSpin(s.proc[p].pc) {
      TakeSpin(s, c, p, l, pr);
    } else {
      GiveSpin(s, c, p, l, pr);
    }
  }

  lemma TakeSpin(s: State, c: nat, p: nat, l: nat, pr: Proc)
    requires Core(s) && c < |s.cpu| && s.cpu[c] == Run(p) && p < |s.proc| && WantsSpin(s.proc[p].pc) && s.proc[p].pc.l == l
    requires l < |s.sl| && s.sl[l].spin == NONE && pr == s.proc[p].(pc := AfterSpin(s.proc[p].pc))
    ensures Core(s.(proc := s.proc[p := pr], sl := s.sl[l := s.sl[l].(spin := p)]))
  {
    hide TableLock, OneCpu, Places, SpinLocks, NoLostWakeup, NoMissedExit, Family;
    Running(s, c);
    SpinTaken(s.proc, s.sl, p, pr, l);
    WakeupKept(s.proc, s.sl, s.sl[l := s.sl[l].(spin := p)], p, pr);
    SpinStep(s, c, p, pr, s.sl[l := s.sl[l].(spin := p)]);
  }

  lemma GiveSpin(s: State, c: nat, p: nat, l: nat, pr: Proc)
    requires Core(s) && c < |s.cpu| && s.cpu[c] == Run(p) && p < |s.proc|
    requires IsSpinStep(s.proc[p].pc) && !WantsSpin(s.proc[p].pc) && s.proc[p].pc.l == l
    requires l < |s.sl| && pr == s.proc[p].(pc := AfterSpin(s.proc[p].pc))
    ensures Core(s.(proc := s.proc[p := pr], sl := s.sl[l := s.sl[l].(spin := NONE)]))
  {
    hide TableLock, OneCpu, Places, SpinLocks, NoLostWakeup, NoMissedExit, Family;
    Running(s, c);
    if s.proc[p].pc.SleepRelease? {
      StillLocked(s, p, l);
    }
    SpinGiven(s.proc, s.sl, p, pr, l);
    WakeupKept(s.proc, s.sl, s.sl[l := s.sl[l].(spin := NONE)], p, pr);
    SpinStep(s, c, p, pr, s.sl[l := s.sl[l].(spin := NONE)]);
  }

  /** acquire_sleeplock looks at the lock. */
  lemma TestStep(s: State, c: nat)
    requires Core(s) && Enabled(s, Advance(c)) && s.proc[s.cpu[c].p].pc.AcqTest?
    ensures Core(Advanced(s, c))
  {
    hide TableLock, OneCpu, Places, SpinLocks, NoLostWakeup, NoMissedExit, Family;
    Running(s, c);
    var p := s.cpu[c].p;
    var l := s.proc[p].pc.l;
    var s' := Advanced(s, c);
    var pr := s'.proc[p];
    if s.sl[l].locked {
      OwnStep(s, c, p, pr, s.lock);
      assert s' == s.(proc := s.proc[p := pr], lock := s.lock);
    } else {
      FlagSpin(s.proc, s.sl, p, pr, l, true);
      SetFlag(s.proc, s.sl, p, pr, l);
      SpinStep(s, c, p, pr, s'.sl);
      assert s' == s.(proc := s.proc[p := pr], sl := s'.sl);
    }
  }

  lemma FlagSpin(proc: seq<Proc>, sl: seq<SleepLock>, p: nat, pr: Proc, l: nat, locked: bool)
    requires SpinLocks(proc, sl) && p < |proc| && l < |sl|
    requires forall k :: 0 <= k < |sl| ==> (HoldsSpin(pr.pc, k) <==> HoldsSpin(proc[p].pc, k))
    ensures SpinLocks(proc[p := pr], sl[l := sl[l].(locked := locked)])
  {
    var proc', sl' := proc[p := pr], sl[l := sl[l].(locked := locked)];
    forall q, k | 0 <= q < |proc| && 0 <= k < |sl| ensures sl'[k].spin == q <==> HoldsSpin(proc'[q].pc, k) {
      assert sl[k].spin == q <==> HoldsSpin(proc[q].pc, k);
    }
  }

  lemma SetFlag(proc: seq<Proc>, sl: seq<SleepLock>, p: nat, pr: Proc, l: nat)
    requires NoLostWakeup(proc, sl) && p < |proc| && l < |sl|
    requires forall k :: 0 <= k < |sl| ==> !SawLocked(pr.pc, k) && !Waiting(pr, k) && !WillWake(proc[p].pc, k)
    ensures NoLostWakeup(proc[p := pr], sl[l := sl[l].(locked := true)])
  {
    var proc' := proc[p := pr];
    forall k | 0 <= k < |sl| && Waker(proc, k) ensures Waker(proc', k) {
      var q :| 0 <= q < |proc| && WillWake(proc[q].pc, k);
      assert WillWake(proc'[q].pc, k);
    }
  }

  /** release_sleeplock clears the flag: from here on it is a waker. */
  lemma ClearFlag(proc: seq<Proc>, sl: seq<SleepLock>, p: nat, pr: Proc, l: nat)
    requires NoLostWakeup(proc, sl) && SpinLocks(proc, sl) && p < |proc| && l < |sl|
    requires HoldsSpin(proc[p].pc, l) && WillWake(pr.pc, l)
    requires forall k :: 0 <= k < |sl| ==> !SawLocked(pr.pc, k) && !Waiting(pr, k) && !WillWake(proc[p].pc, k)
    ensures NoLostWakeup(proc[p := pr], sl[l := sl[l].(locked := false)])
  {
    var proc' := proc[p := pr];
    assert WillWake(proc'[p].pc, l);
    assert Waker(proc', l);
    forall k | 0 <= k < |sl| && Waker(proc, k) ensures Waker(proc', k) {
      var q :| 0 <= q < |proc| && WillWake(proc[q].pc, k);
      assert WillWake(proc'[q].pc, k);
    }
    forall q | 0 <= q < |proc| && q != p ensures !SawLocked(proc[q].pc, l) {
      assert sl[l].spin == p;
      assert !HoldsSpin(proc[q].pc, l);
    }
  }

  lemma ClearStep(s: State, c: nat)
    requires Core(s) && Enabled(s, Advance(c)) && s.proc[s.cpu[c].p].pc.RelSet?
    ensures Core(Advanced(s, c))
  {
    hide TableLock, OneCpu, Places, SpinLocks, NoLostWakeup, NoMissedExit, Family;
    Running(s, c);
    var p := s.cpu[c].p;
    var l := s.proc[p].pc.l;
    var s' := Advanced(s, c);
    var pr := s'.proc[p];
    FlagSpin(s.proc, s.sl, p, pr, l, false);
    ClearFlag(s.proc, s.sl, p, pr, l);
    SpinStep(s, c, p, pr, s'.sl);
    assert s' == s.(proc := s.proc[p := pr], sl := s'.sl);
  }

  // ------------------------------------------------------ waking others

  /** Some sleepers other than `p` became RUNNABLE. */
  ghost predicate Relaxed(proc: seq<Proc>, proc': seq<Proc>, p: nat) {
    && |proc'| == |proc|
    && forall q :: 0 <= q < |proc| ==>
      || proc'[q] == proc[q]
      || (q != p && proc[q].state == SLEEPING && proc'[q] == proc[q].(state := RUNNABLE))
  }

  /** Only the CPU that holds the table lock executes a process that is not
      RUNNING. */
  lemma OthersRun(s: State, c: nat, d: nat)
    requires Core(s) && c < |s.cpu| && s.lock == c && d < |s.cpu| && d != c && s.cpu[d].Run?
    ensures Runs(s, d) && s.proc[s.cpu[d].p].state == RUNNING && !HoldsTable(s.proc[s.cpu[d].p].pc)
  {
    assert CpuOk(s.cpu[d], s.proc) && (s.lock == d <==> CpuHolds(s.cpu[d], s.proc));
  }

  lemma RelaxPlaces(s: State, c: nat, p: nat, proc': seq<Proc>)
    requires Core(s) && c < |s.cpu| && s.cpu[c] == Run(p) && s.lock == c && Relaxed(s.proc, proc', p)
    ensures Places(s.cpu, proc')
  {
    forall d | 0 <= d < |s.cpu| ensures CpuOk(s.cpu[d], proc') {
      assert CpuOk(s.cpu[d], s.proc);
      if d != c && s.cpu[d].Run? {
        OthersRun(s, c, d);
      }
    }
  }

  lemma RelaxKeeps(s: State, c: nat, p: nat, proc': seq<Proc>)
    requires Core(s) && c < |s.cpu| && s.cpu[c] == Run(p) && s.lock == c && Relaxed(s.proc, proc', p)
    ensures Core(s.(proc := proc'))
  {
    RelaxPlaces(s, c, p, proc');
    RelaxLocks(s, p, proc');
    RelaxWait(s.proc, proc', p, s.init);
  }

  lemma RelaxLocks(s: State, p: nat, proc': seq<Proc>)
    requires Core(s) && Relaxed(s.proc, proc', p)
    ensures TableLock(s.cpu, s.lock, proc') && SpinLocks(proc', s.sl) && NoLostWakeup(proc', s.sl)
  {
    forall l | 0 <= l < |s.sl| && Waker(s.proc, l) ensures Waker(proc', l) {
      var q :| 0 <= q < |s.proc| && WillWake(s.proc[q].pc, l);
      assert WillWake(proc'[q].pc, l);
    }
    forall c | 0 <= c < |s.cpu| ensures CpuHolds(s.cpu[c], proc') <==> CpuHolds(s.cpu[c], s.proc) {
    }
    forall q, l | 0 <= q < |proc'| && 0 <= l < |s.sl| && Waiting(proc'[q], l) ensures Waiting(s.proc[q], l) {
    }
  }

  lemma RelaxWait(proc: seq<Proc>, proc': seq<Proc>, p: nat, init: nat)
    requires NoMissedExit(proc) && Family(proc, init) && Relaxed(proc, proc', p)
    ensures NoMissedExit(proc') && Family(proc', init)
  {
    forall a, b | 0 <= a < |proc'| && 0 <= b < |proc'| && WaitsForChild(proc'[a]) ensures !ZombieChild(proc', a, b) {
      assert WaitsForChild(proc[a]) && !ZombieChild(proc, a, b);
    }
  }

  /** After the scan nobody waits for `l`. */
  lemma AllWoken(s: State, c: nat, p: nat, l: nat)
    requires Core(s) && c < |s.cpu| && s.cpu[c] == Run(p) && p < |s.proc| && s.lock == c && s.proc[p].pc == WakeScan(l)
    ensures var proc' := Woken(s.proc, OnLock(l), p);
      Relaxed(s.proc, proc', p) && forall q :: 0 <= q < |proc'| ==> !Waiting(proc'[q], l)
  {
    var proc' := Woken(s.proc, OnLock(l), p);
    forall q | 0 <= q < |proc'| ensures !Waiting(proc'[q], l) {
      if q != p && Waiting(s.proc[q], l) {
        NotOnCpu(s, c, p, q);
        assert RestOk(s.proc[q]);
      }
    }
  }

  /** With the table lock held by the CPU of `p`, another process that is not
      RUNNING, or holds the table lock by its position, is on no CPU. */
  lemma NotOnCpu(s: State, c: nat, p: nat, q: nat)
    requires Core(s) && c < |s.cpu| && s.lock == c && q < |s.proc|
    requires s.cpu[c] == Scanning || (s.cpu[c] == Run(p) && p != q)
    requires s.proc[q].state != RUNNING || (HoldsTable(s.proc[q].pc) && !Resumable(s.proc[q].pc))
    ensures OnNoCpu(s.cpu, q)
  {
    forall d | 0 <= d < |s.cpu| ensures Owner(s.cpu[d]) != q {
      assert CpuOk(s.cpu[d], s.proc) && (s.lock == d <==> CpuHolds(s.cpu[d], s.proc));
    }
  }

  lemma ScanStep(s: State, c: nat)
    requires Core(s) && Enabled(s, Advance(c)) && s.proc[s.cpu[c].p].pc.WakeScan?
    ensures Core(Advanced(s, c))
  {
    hide TableLock, OneCpu, Places, SpinLocks, NoLostWakeup, NoMissedExit, Family, Woken;
    Running(s, c);
    var p := s.cpu[c].p;
    var l := s.proc[p].pc.l;
    var proc1 := Woken(s.proc, OnLock(l), p);
    AllWoken(s, c, p, l);
    RelaxKeeps(s, c, p, proc1);
    var s1 := s.(proc := proc1);
    assert proc1[p] == s.proc[p];
    var pr := proc1[p].(pc := WakeLeave(l));
    TableLockKept(s1.cpu, s1.lock, s1.lock, s1.proc, c, p, pr);
    PlacesKept(s1.cpu, s1.proc, c, p, pr);
    SpinLocksKept(s1.proc, s1.sl, p, pr);
    ExitKept(s1.proc, s1.init, p, pr);
    StopWaking(s1.proc, s1.sl, p, pr, l);
    assert Advanced(s, c) == s.(proc := proc1[p := pr]);
  }

  lemma StopWaking(proc: seq<Proc>, sl: seq<SleepLock>, p: nat, pr: Proc, l: nat)
    requires NoLostWakeup(proc, sl) && p < |proc| && proc[p].pc == WakeScan(l)
    requires forall q :: 0 <= q < |proc| ==> !Waiting(proc[q], l)
    requires pr == proc[p].(pc := WakeLeave(l))
    ensures NoLostWakeup(proc[p := pr], sl)
  {
    var proc' := proc[p := pr];
    forall k | 0 <= k < |sl| && k != l && Waker(proc, k) ensures Waker(proc', k) {
      var q :| 0 <= q < |proc| && WillWake(proc[q].pc, k);
      assert WillWake(proc'[q].pc, k);
    }
    forall q, k | 0 <= q < |proc'| && 0 <= k < |sl| && Waiting(proc'[q], k) ensures sl[k].locked || Waker(proc', k) {
      assert q != p && Waiting(proc[q], k) && k != l;
    }
  }

  // -------------------------------------------------------- the scheduler

  lemma AcquireStep(s: State, c: nat)
    requires Core(s) && Enabled(s, SchedAcquire(c))
    ensures Core(Next(s, SchedAcquire(c)))
  {
    var cpu' := s.cpu[c := Scanning];
    SameOwners(s.cpu, cpu', s.proc);
    assert !CpuHolds(s.cpu[c], s.proc);
  }

  lemma ReleaseStep(s: State, c: nat)
    requires Core(s) && Enabled(s, SchedRelease(c))
    ensures Core(Next(s, SchedRelease(c)))
  {
    var cpu' := s.cpu[c := Idle];
    SameOwners(s.cpu, cpu', s.proc);
    assert CpuHolds(s.cpu[c], s.proc);
  }

  lemma SameOwners(cpu: seq<Cpu>, cpu': seq<Cpu>, proc: seq<Proc>)
    requires |cpu'| == |cpu| && OneCpu(cpu, |proc|) && Places(cpu, proc)
    requires forall c :: 0 <= c < |cpu| ==> Owner(cpu'[c]) == Owner(cpu[c])
    requires forall c :: 0 <= c < |cpu| ==> cpu'[c] == cpu[c] || CpuOk(cpu'[c], proc)
    ensures OneCpu(cpu', |proc|) && Places(cpu', proc)
  {
    forall p | 0 <= p < |proc| && OnNoCpu(cpu', p) ensures OnNoCpu(cpu, p) {
      forall c | 0 <= c < |cpu| ensures Owner(cpu[c]) != p {
        assert Owner(cpu'[c]) != p;
      }
    }
    forall c | 0 <= c < |cpu'| ensures CpuOk(cpu'[c], proc) {
      assert CpuOk(cpu[c], proc);
    }
  }

  lemma SwitchStep(s: State, c: nat)
    requires Core(s) && Enabled(s, SchedSwitch(c))
    ensures Core(Next(s, SchedSwitch(c)))
  {
    assert CpuOk(s.cpu[c], s.proc) && CpuHolds(s.cpu[c], s.proc);
    var cpu' := s.cpu[c := Run(s.cpu[c].p)];
    assert CpuOk(cpu'[c], s.proc) && CpuHolds(cpu'[c], s.proc);
    SameOwners(s.cpu, cpu', s.proc);
  }

  /** A process that is picked was on no CPU. */
  lemma PickStep(s: State, c: nat, p: nat)
    requires Core(s) && Enabled(s, SchedPick(c, p))
    ensures OnNoCpu(s.cpu, p) && Core(Next(s, SchedPick(c, p)))
  {
    assert CpuHolds(s.cpu[c], s.proc) && s.lock == c;
    NotOnCpu(s, c, 0, p);
    var pr := s.proc[p].(state := RUNNING);
    var cpu' := s.cpu[c := Chosen(p)];
    var proc' := s.proc[p := pr];
    PickPlaces(s.cpu, s.proc, c, p);
    PickLock(s, c, p);
    SpinLocksKept(s.proc, s.sl, p, pr);
    WakeupKept(s.proc, s.sl, s.sl, p, pr);
    ExitKept(s.proc, s.init, p, pr);
  }

  lemma PickPlaces(cpu: seq<Cpu>, proc: seq<Proc>, c: nat, p: nat)
    requires OneCpu(cpu, |proc|) && Places(cpu, proc) && c < |cpu| && cpu[c] == Scanning && p < |proc|
    requires OnNoCpu(cpu, p) && proc[p].state == RUNNABLE
    ensures var cpu', proc' := cpu[c := Chosen(p)], proc[p := proc[p].(state := RUNNING)];
      OneCpu(cpu', |proc'|) && Places(cpu', proc')
  {
    var cpu', proc' := cpu[c := Chosen(p)], proc[p := proc[p].(state := RUNNING)];
    forall d | 0 <= d < |cpu'| ensures CpuOk(cpu'[d], proc') {
      assert CpuOk(cpu[d], proc) && Owner(cpu[d]) != p;
    }
    assert Owner(cpu'[c]) == p;
    forall q | 0 <= q < |proc'| && OnNoCpu(cpu', q) ensures RestOk(proc'[q]) {
      assert q != p;
      forall d | 0 <= d < |cpu| ensures Owner(cpu[d]) != q {
        assert Owner(cpu'[d]) != q;
      }
    }
  }

  lemma PickLock(s: State, c: nat, p: nat)
    requires Core(s) && c < |s.cpu| && s.cpu[c] == Scanning && p < |s.proc| && OnNoCpu(s.cpu, p)
    ensures TableLock(s.cpu[c := Chosen(p)], s.lock, s.proc[p := s.proc[p].(state := RUNNING)])
  {
    var cpu', proc' := s.cpu[c := Chosen(p)], s.proc[p := s.proc[p].(state := RUNNING)];
    forall d | 0 <= d < |cpu'| ensures s.lock == d <==> CpuHolds(cpu'[d], proc') {
      assert s.lock == d <==> CpuHolds(s.cpu[d], s.proc);
    }
  }

  /** The switch back to the scheduler: the table lock stays with the CPU. */
  lemma OutStep(s: State, c: nat, p: nat, pr: Proc)
    requires Core(s) && c < |s.cpu| && s.cpu[c] == Run(p) && p < |s.proc| && s.lock == c
    requires pr == s.proc[p].(pc := pr.pc) && RestOk(pr)
    requires forall l :: 0 <= l < |s.sl| ==>
      && (HoldsSpin(pr.pc, l) <==> HoldsSpin(s.proc[p].pc, l)) && !SawLocked(pr.pc, l)
      && (Waiting(pr, l) ==> Waiting(s.proc[p], l)) && !WillWake(s.proc[p].pc, l)
    requires WaitsForChild(pr) ==> WaitsForChild(s.proc[p])
    requires p == s.init ==> !Exiting(pr.pc)
    ensures Core(s.(cpu := s.cpu[c := Scanning], proc := s.proc[p := pr]))
  {
    hide SpinLocks, NoLostWakeup, NoMissedExit, Family, TableLock, OneCpu, Places;
    OutPlaces(s, c, p, pr);
    SpinLocksKept(s.proc, s.sl, p, pr);
    WakeupKept(s.proc, s.sl, s.sl, p, pr);
    OutFamily(s.proc, s.init, p, pr);
  }

  lemma OutFamily(proc: seq<Proc>, init: nat, p: nat, pr: Proc)
    requires NoMissedExit(proc) && Family(proc, init) && p < |proc| && pr == proc[p].(pc := pr.pc)
    requires (WaitsForChild(pr) ==> WaitsForChild(proc[p])) && (p == init ==> !Exiting(pr.pc))
    ensures NoMissedExit(proc[p := pr]) && Family(proc[p := pr], init)
  {
    var proc' := proc[p := pr];
    forall a, b | 0 <= a < |proc| && 0 <= b < |proc| && WaitsForChild(proc'[a]) ensures !ZombieChild(proc', a, b) {
      assert !ZombieChild(proc, a, b);
    }
  }

  lemma OutPlaces(s: State, c: nat, p: nat, pr: Proc)
    requires Core(s) && c < |s.cpu| && s.cpu[c] == Run(p) && p < |s.proc| && s.lock == c && RestOk(pr)
    ensures var cpu', proc' := s.cpu[c := Scanning], s.proc[p := pr];
      TableLock(cpu', s.lock, proc') && OneCpu(cpu', |proc'|) && Places(cpu', proc')
  {
    var cpu', proc' := s.cpu[c := Scanning], s.proc[p := pr];
    forall d | 0 <= d < |cpu'|
      ensures CpuOk(cpu'[d], proc') && (s.lock == d <==> CpuHolds(cpu'[d], proc'))
    {
      assert CpuOk(s.cpu[d], s.proc) && (s.lock == d <==> CpuHolds(s.cpu[d], s.proc));
      assert d != c ==> Owner(s.cpu[d]) != Owner(s.cpu[c]);
    }
    forall q | 0 <= q < |proc'| && OnNoCpu(cpu', q) ensures RestOk(proc'[q]) {
      if q != p {
        forall d | 0 <= d < |s.cpu| ensures Owner(s.cpu[d]) != q {
          assert d != c ==> Owner(cpu'[d]) != q;
        }
      }
    }
  }

  predicate IsSwitch(pc: Pc) {
    pc.YieldSwitch? || pc.SleepSwitch? || pc.ExitSwitch? || pc.WaitSwitch?
  }

  lemma OutSteps(s: State, c: nat)
    requires Core(s) && Enabled(s, Advance(c)) && IsSwitch(s.proc[s.cpu[c].p].pc)
    ensures Core(Advanced(s, c))
  {
    hide TableLock, OneCpu, Places, SpinLocks, NoLostWakeup, NoMissedExit, Family;
    Running(s, c);
    var p := s.cpu[c].p;
    var s' := Advanced(s, c);
    OutStep(s, c, p, s'.proc[p]);
    assert s' == s.(cpu := s.cpu[c := Scanning], proc := s.proc[p := s'.proc[p]]);
  }

  // ------------------------------------------------------- exit and wait

  /** After wakeup1 on a process, it does not wait for a child. */
  lemma ParentWoken(s: State, c: nat, p: nat, x: int)
    requires Core(s) && c < |s.cpu| && s.cpu[c] == Run(p) && s.lock == c && x != p
    ensures Relaxed(s.proc, WokenParent(s.proc, x, p), p)
    ensures 0 <= x < |s.proc| ==> !WaitsForChild(WokenParent(s.proc, x, p)[x])
  {
    if 0 <= x < |s.proc| && WaitsForChild(s.proc[x]) {
      NotOnCpu(s, c, p, x);
      assert RestOk(s.proc[x]);
    }
  }

  /** The records after the children of `p` were given to the first process. */
  function Given(proc: seq<Proc>, p: nat, init: nat): (r: seq<Proc>)
    ensures |r| == |proc|
  {
    seq(|proc|, q requires 0 <= q < |proc| => if proc[q].parent == p then proc[q].(parent := init) else proc[q])
  }

  /** Everything but the parents is as before. */
  lemma GivenKeeps(s: State, p: nat)
    requires Core(s)
    ensures var g := Given(s.proc, p, s.init);
      && TableLock(s.cpu, s.lock, g) && OneCpu(s.cpu, |g|) && Places(s.cpu, g)
      && SpinLocks(g, s.sl) && NoLostWakeup(g, s.sl) && Family(g, s.init)
  {
    var g := Given(s.proc, p, s.init);
    forall l | 0 <= l < |s.sl| && Waker(s.proc, l) ensures Waker(g, l) {
      var q :| 0 <= q < |s.proc| && WillWake(s.proc[q].pc, l);
      assert WillWake(g[q].pc, l);
    }
    forall c | 0 <= c < |s.cpu| ensures CpuHolds(s.cpu[c], g) <==> CpuHolds(s.cpu[c], s.proc)
      ensures CpuOk(s.cpu[c], g)
    {
      assert CpuOk(s.cpu[c], s.proc);
    }
    forall q, l | 0 <= q < |g| && 0 <= l < |s.sl| && Waiting(g[q], l) ensures Waiting(s.proc[q], l) {
    }
  }

  lemma AdoptKeeps(s: State, c: nat, p: nat)
    requires Core(s) && c < |s.cpu| && s.cpu[c] == Run(p) && p < |s.proc| && s.lock == c && p != s.init
    ensures Core(s.(proc := Adopted(s.proc, p, s.init)))
    ensures Adopted(s.proc, p, s.init)[p] == s.proc[p]
    ensures forall q :: 0 <= q < |s.proc| && WaitsForChild(Adopted(s.proc, p, s.init)[q]) ==> WaitsForChild(s.proc[q])
  {
    hide TableLock, OneCpu, Places, SpinLocks, NoLostWakeup;
    var g := Given(s.proc, p, s.init);
    var a := Adopted(s.proc, p, s.init);
    GivenKeeps(s, p);
    if exists q :: 0 <= q < |s.proc| && s.proc[q].parent == p && s.proc[q].state == ZOMBIE {
      InitAwake(s, c, p);
    } else {
      forall x, y | 0 <= x < |g| && 0 <= y < |g| && WaitsForChild(g[x]) ensures !ZombieChild(g, x, y) {
        assert !ZombieChild(s.proc, x, y);
      }
      assert a == g;
    }
  }

  /** The first process is woken before it gets a zombie child. */
  lemma InitAwake(s: State, c: nat, p: nat)
    requires Core(s) && c < |s.cpu| && s.cpu[c] == Run(p) && p < |s.proc| && s.lock == c && p != s.init
    ensures var a := WokenParent(Given(s.proc, p, s.init), s.init, p); Core(s.(proc := a))
  {
    hide TableLock, OneCpu, Places, SpinLocks, NoLostWakeup, Given, WokenParent, Family;
    GivenRecords(s.proc, p, s.init);
    ParentWoken(s, c, p, s.init);
    var w := WokenParent(s.proc, s.init, p);
    RelaxKeeps(s, c, p, w);
    var s1 := s.(proc := w);
    GivenKeeps(s1, p);
    WokenGiven(s.proc, p, s.init);
    GivenRecords(w, p, s.init);
    AdoptedByAwake(w, p, s.init);
  }

  lemma GivenRecords(proc: seq<Proc>, p: nat, init: nat)
    ensures var g := Given(proc, p, init);
      forall q :: 0 <= q < |proc| ==> g[q] == if proc[q].parent == p then proc[q].(parent := init) else proc[q]
  {
  }

  lemma WokenGiven(proc: seq<Proc>, p: nat, init: nat)
    ensures WokenParent(Given(proc, p, init), init, p) == Given(WokenParent(proc, init, p), p, init)
  {
  }

  lemma AdoptedByAwake(proc: seq<Proc>, p: nat, init: nat)
    requires NoMissedExit(proc) && init < |proc| && !WaitsForChild(proc[init])
    ensures NoMissedExit(Given(proc, p, init))
  {
    var g := Given(proc, p, init);
    forall x, y | 0 <= x < |g| && 0 <= y < |g| && WaitsForChild(g[x]) ensures !ZombieChild(g, x, y) {
      assert WaitsForChild(proc[x]) && x != init && !ZombieChild(proc, x, y);
    }
  }

  lemma ExitStep(s: State, c: nat)
    requires Core(s) && Enabled(s, Advance(c)) && s.proc[s.cpu[c].p].pc == ExitSet
    ensures Core(Advanced(s, c))
  {
    hide TableLock, OneCpu, Places, SpinLocks, NoLostWakeup, NoMissedExit, WokenParent, Adopted, Given;
    Running(s, c);
    var p := s.cpu[c].p;
    var x := s.proc[p].parent;
    var w := WokenParent(s.proc, x, p);
    ParentWoken(s, c, p, x);
    RelaxKeeps(s, c, p, w);
    var s1 := s.(proc := w);
    assert w[p] == s.proc[p];
    AdoptKeeps(s1, c, p);
    var a := Adopted(w, p, s.init);
    var s2 := s.(proc := a);
    assert s2 == s1.(proc := a);
    var pr := a[p].(state := ZOMBIE, pc := ExitSwitch);
    TableLockKept(s2.cpu, s2.lock, s2.lock, s2.proc, c, p, pr);
    PlacesKept(s2.cpu, s2.proc, c, p, pr);
    SpinLocksKept(s2.proc, s2.sl, p, pr);
    WakeupKept(s2.proc, s2.sl, s2.sl, p, pr);
    BecomeZombie(s2.proc, s2.init, p, pr);
    assert Advanced(s, c) == s2.(proc := a[p := pr]);
  }

  lemma BecomeZombie(proc: seq<Proc>, init: nat, p: nat, pr: Proc)
    requires NoMissedExit(proc) && Family(proc, init) && p < |proc| && p != init
    requires pr == proc[p].(state := ZOMBIE, pc := ExitSwitch)
    requires 0 <= proc[p].parent ==> !WaitsForChild(proc[proc[p].parent])
    ensures NoMissedExit(proc[p := pr]) && Family(proc[p := pr], init)
  {
    var proc' := proc[p := pr];
    forall x, y | 0 <= x < |proc'| && 0 <= y < |proc'| && WaitsForChild(proc'[x]) ensures !ZombieChild(proc', x, y) {
      assert WaitsForChild(proc[x]) && !ZombieChild(proc, x, y);
    }
  }

  /** The record of a zombie child that wait releases is on no CPU. */
  lemma ReapKeeps(s: State, c: nat, p: nat, q: nat)
    requires Core(s) && c < |s.cpu| && s.cpu[c] == Run(p) && p < |s.proc| && s.lock == c && ZombieChild(s.proc, p, q)
    ensures q != p && OnNoCpu(s.cpu, q)
    ensures Core(s.(proc := s.proc[q := s.proc[q].(state := UNUSED, parent := NONE)]))
  {
    hide TableLock, OneCpu, SpinLocks, NoLostWakeup, NoMissedExit;
    NotOnCpu(s, c, p, q);
    var pr := s.proc[q].(state := UNUSED, parent := NONE);
    assert RestOk(s.proc[q]);
    NewRecord(s, q, pr);
  }

  /** A process on no CPU gets another record that neither waits, wakes nor is a
      zombie. */
  lemma NewRecord(s: State, q: nat, pr: Proc)
    requires Core(s) && q < |s.proc| && q != s.init && OnNoCpu(s.cpu, q)
    requires s.proc[q].pc == Dead || s.proc[q].pc == YieldLeave
    requires RestOk(pr) && (Vacant(pr.state) || (pr.state == RUNNABLE && pr.pc == YieldLeave))
    requires NONE <= pr.parent < |s.proc| && pr.parent != q
    ensures Core(s.(proc := s.proc[q := pr]))
  {
    hide TableLock, OneCpu, Places, SpinLocks, NoLostWakeup, NoMissedExit, Family;
    ReapPlaces(s, q, pr);
    SpinLocksKept(s.proc, s.sl, q, pr);
    WakeupKept(s.proc, s.sl, s.sl, q, pr);
    NewFamily(s.proc, s.init, q, pr);
  }

  lemma NewFamily(proc: seq<Proc>, init: nat, q: nat, pr: Proc)
    requires NoMissedExit(proc) && Family(proc, init) && q < |proc| && q != init
    requires (Vacant(pr.state) || pr.state == RUNNABLE) && pr.pc != WaitSet && pr.pc != WaitSwitch
    requires NONE <= pr.parent < |proc| && pr.parent != q
    ensures NoMissedExit(proc[q := pr]) && Family(proc[q := pr], init)
  {
    var proc' := proc[q := pr];
    forall x, y | 0 <= x < |proc'| && 0 <= y < |proc'| && WaitsForChild(proc'[x]) ensures !ZombieChild(proc', x, y) {
      assert WaitsForChild(proc[x]) && !ZombieChild(proc, x, y);
    }
  }

  /** The record of a process on no CPU was changed. */
  lemma ReapPlaces(s: State, q: nat, pr: Proc)
    requires TableLock(s.cpu, s.lock, s.proc) && Places(s.cpu, s.proc)
    requires q < |s.proc| && OnNoCpu(s.cpu, q) && RestOk(pr)
    ensures TableLock(s.cpu, s.lock, s.proc[q := pr]) && Places(s.cpu, s.proc[q := pr])
  {
    var proc' := s.proc[q := pr];
    forall d | 0 <= d < |s.cpu|
      ensures CpuOk(s.cpu[d], proc') && (s.lock == d <==> CpuHolds(s.cpu[d], proc'))
    {
      assert CpuOk(s.cpu[d], s.proc) && Owner(s.cpu[d]) != q;
    }
  }

  lemma WaitStep(s: State, c: nat)
    requires Core(s) && Enabled(s, Advance(c)) && s.proc[s.cpu[c].p].pc == WaitScan
    ensures Core(Advanced(s, c))
  {
    hide TableLock, OneCpu, Places, SpinLocks, NoLostWakeup, NoMissedExit, Family, FindZombie;
    Running(s, c);
    var p := s.cpu[c].p;
    var q := FindZombie(s.proc, p, 0);
    var s1 := s;
    if q < |s.proc| {
      ReapKeeps(s, c, p, q);
      s1 := s.(proc := s.proc[q := s.proc[q].(state := UNUSED, parent := NONE)]);
    }
    var s' := Advanced(s, c);
    OwnStep(s1, c, p, s'.proc[p], s1.lock);
    assert s' == s1.(proc := s1.proc[p := s'.proc[p]], lock := s1.lock);
  }

  lemma VacantOff(s: State, q: nat)
    requires Core(s) && q < |s.proc| && Vacant(s.proc[q].state)
    ensures OnNoCpu(s.cpu, q)
  {
    forall d | 0 <= d < |s.cpu| ensures Owner(s.cpu[d]) != q {
      assert CpuOk(s.cpu[d], s.proc);
    }
  }

  // ----------------------------------------------------------------- fork

  /** alloc_pcb looks for a record. */
  lemma FindStep(s: State, c: nat)
    requires Core(s) && Enabled(s, Advance(c)) && s.proc[s.cpu[c].p].pc == ForkScan
    ensures Core(Advanced(s, c))
  {
    hide TableLock, OneCpu, Places, SpinLocks, NoLostWakeup, NoMissedExit, Family, Core, FirstUnused;
    Running(s, c);
    var p := s.cpu[c].p;
    var s' := Advanced(s, c);
    OwnStep(s, c, p, s'.proc[p], s'.lock);
    assert s' == s.(proc := s.proc[p := s'.proc[p]], lock := s'.lock);
  }

  predicate Marking(pc: Pc) {
    pc.ForkMark? || pc.ForkParent? || pc.ForkReady?
  }

  lemma MarkingMoves(s: State, c: nat, p: nat, pc: Pc)
    requires Core(s) && c < |s.cpu| && s.cpu[c] == Run(p) && p < |s.proc|
    requires Marking(s.proc[p].pc) && (pc == Free || Marking(pc))
    ensures Core(At(s, p, pc))
  {
    hide TableLock, OneCpu, Places, SpinLocks, NoLostWakeup, NoMissedExit, Family, Core;
    Running(s, c);
    var pr := s.proc[p].(pc := pc);
    OwnStep(s, c, p, pr, s.lock);
    assert At(s, p, pc) == s.(proc := s.proc[p := pr], lock := s.lock);
  }

  /** A fork stores into the record that it works on, without the table lock. */
  lemma StoreStep(s: State, c: nat, p: nat, pc: Pc, k: nat, record: Proc)
    requires Core(s) && c < |s.cpu| && s.cpu[c] == Run(p) && p < |s.proc| && k < |s.proc|
    requires Marking(s.proc[p].pc) && (pc == Free || Marking(pc))
    requires Vacant(s.proc[k].state) && OnNoCpu(s.cpu, k) && RestOk(s.proc[k])
    requires RestOk(record) && (Vacant(record.state) || (record.state == RUNNABLE && record.pc == YieldLeave))
    requires record.parent == s.proc[k].parent || record.parent == p
    ensures Core(Stored(s, p, pc, k, record))
  {
    assert Owner(s.cpu[c]) == p != k;
    hide TableLock, OneCpu, Places, SpinLocks, NoLostWakeup, NoMissedExit, Family, Core, OnNoCpu;
    InitRuns(s, k);
    NewRecord(s, k, record);
    MarkingMoves(s.(proc := s.proc[k := record]), c, p, pc);
  }

  lemma AtRest(s: State, q: nat)
    requires Core(s) && q < |s.proc| && OnNoCpu(s.cpu, q)
    ensures RestOk(s.proc[q])
  {
  }

  lemma InitRuns(s: State, k: nat)
    requires Core(s) && k < |s.proc| && Vacant(s.proc[k].state)
    ensures k != s.init && NONE <= s.proc[k].parent < |s.proc| && s.proc[k].parent != k
  {
  }

  /** The three stores of a fork. */
  function AfterMark(pc: Pc): Pc
    requires Marking(pc)
  {
    match pc
    case ForkMark(k) => ForkParent(k)
    case ForkParent(k) => ForkReady(k)
    case ForkReady(k) => Free
  }

  function MarkedRecord(pc: Pc, p: nat, record: Proc): Proc
    requires Marking(pc)
  {
    match pc
    case ForkMark(k) => record.(state := EMBRYO, pc := YieldLeave)
    case ForkParent(k) => record.(parent := p)
    case ForkReady(k) => record.(state := RUNNABLE)
  }

  lemma MarkEffect(s: State, c: nat)
    requires Enabled(s, Advance(c)) && Marking(s.proc[s.cpu[c].p].pc)
    ensures var p := s.cpu[c].p;
      var pc := s.proc[p].pc;
      Advanced(s, c) == Stored(s, p, AfterMark(pc), pc.k, MarkedRecord(pc, p, s.proc[pc.k]))
  {
    hide Stored;
  }

  lemma MarkSteps(s: State, c: nat)
    requires Inv(s) && Enabled(s, Advance(c)) && Marking(s.proc[s.cpu[c].p].pc)
    ensures Core(Advanced(s, c))
  {
    MarkEffect(s, c);
    assert Core(s);
    hide Core, Inv, Stored, OnNoCpu, Advanced;
    var p := s.cpu[c].p;
    var pc := s.proc[p].pc;
    SlotAtRest(s, p);
    StoreStep(s, c, p, AfterMark(pc), pc.k, MarkedRecord(pc, p, s.proc[pc.k]));
  }

  /** The record that a fork works on is on no CPU. */
  lemma SlotAtRest(s: State, p: nat)
    requires Inv(s) && p < |s.proc| && ForkSlot(s.proc[p].pc) != NONE
    ensures var k := ForkSlot(s.proc[p].pc);
      && k < |s.proc| && s.proc[k].state == SlotState(s.proc[p].pc) && RestOk(s.proc[k]) && OnNoCpu(s.cpu, k)
  {
    hide TableLock, OneCpu, Places, SpinLocks, NoLostWakeup, NoMissedExit, Family, Core;
    var k := ForkSlot(s.proc[p].pc);
    VacantOff(s, k);
    AtRest(s, k);
  }

  lemma GiveUpStep(s: State, c: nat)
    requires Inv(s) && Enabled(s, GiveUp(c))
    ensures Core(Next(s, GiveUp(c)))
  {
    assert Core(s);
    hide Core, Inv, Stored, OnNoCpu;
    var p := s.cpu[c].p;
    var k := s.proc[p].pc.k;
    SlotAtRest(s, p);
    StoreStep(s, c, p, Free, k, s.proc[k].(state := UNUSED, pc := Dead));
  }

  // ------------------------------------------------------------ all steps

  lemma AdvanceStep(s: State, c: nat)
    requires Inv(s) && Enabled(s, Advance(c))
    ensures Core(Advanced(s, c))
  {
    assert Core(s);
    hide Core, Inv, Advanced;
    var pc := s.proc[s.cpu[c].p].pc;
    if WantsTable(pc) {
      EnterSteps(s, c);
    } else if Changes(pc) {
      ChangeSteps(s, c);
    } else if Leaves(pc) {
      LeaveSteps(s, c);
    } else if IsSpinStep(pc) {
      SpinSteps(s, c);
    } else if IsSwitch(pc) {
      OutSteps(s, c);
    } else if pc.AcqTest? {
      TestStep(s, c);
    } else if pc.RelSet? {
      ClearStep(s, c);
    } else if pc.WakeScan? {
      ScanStep(s, c);
    } else if pc == ExitSet {
      ExitStep(s, c);
    } else if pc == WaitScan {
      WaitStep(s, c);
    } else if pc == ForkScan {
      FindStep(s, c);
    } else {
      MarkSteps(s, c);
    }
  }

  lemma StepKeepsCore(s: State, step: Step)
    requires Inv(s) && Enabled(s, step)
    ensures Core(Next(s, step))
  {
    assert Core(s);
    hide Core, Inv, Advanced;
    match step
    case SchedAcquire(c) => AcquireStep(s, c);
    case SchedPick(c, p) => PickStep(s, c, p);
    case SchedSwitch(c) => SwitchStep(s, c);
    case SchedRelease(c) => ReleaseStep(s, c);
    case Begin(c, call) => BeginStep(s, c, call);
    case GiveUp(c) => GiveUpStep(s, c);
    case Advance(c) => AdvanceStep(s, c);
  }

  // ------------------------------------------------------ records of forks

  /** A fork at one place works on its record as one at the other. */
  predicate SameSlot(a: Pc, b: Pc) {
    ForkSlot(a) == ForkSlot(b) && (ForkSlot(a) != NONE ==> SlotState(a) == SlotState(b))
  }

  ghost predicate SlotsKept(proc: seq<Proc>, proc': seq<Proc>) {
    && |proc'| == |proc|
    && forall q :: 0 <= q < |proc| ==>
      SameSlot(proc[q].pc, proc'[q].pc) && (Vacant(proc[q].state) ==> proc'[q].state == proc[q].state)
  }

  lemma KeptSlots(proc: seq<Proc>, proc': seq<Proc>)
    requires ForkSlots(proc) && SlotsKept(proc, proc')
    ensures ForkSlots(proc')
  {
    hide SlotState, ForkSlot;
    forall p | 0 <= p < |proc'| && ForkSlot(proc'[p].pc) != NONE
      ensures ForkSlot(proc'[p].pc) < |proc'| && proc'[ForkSlot(proc'[p].pc)].state == SlotState(proc'[p].pc)
    {
      assert SameSlot(proc[p].pc, proc'[p].pc);
      SlotVacant(proc[p].pc);
    }
  }

  lemma SlotVacant(pc: Pc)
    ensures Vacant(SlotState(pc))
  {
  }

  /** Fork moves on: record `k` has another state. */
  lemma MovedSlots(proc: seq<Proc>, proc': seq<Proc>, p: nat, k: nat)
    requires ForkSlots(proc) && |proc'| == |proc| && p < |proc| && k == ForkSlot(proc[p].pc) && k < |proc|
    requires ForkSlot(proc'[p].pc) == NONE || (ForkSlot(proc'[p].pc) == k && proc'[k].state == SlotState(proc'[p].pc))
    requires ForkSlot(proc[k].pc) == NONE == ForkSlot(proc'[k].pc)
    requires forall q :: 0 <= q < |proc| && q != p && q != k ==> proc'[q] == proc[q]
    requires proc'[p].state == proc[p].state
    ensures ForkSlots(proc')
  {
    hide SlotState, ForkSlot;
    forall q | 0 <= q < |proc'| && ForkSlot(proc'[q].pc) != NONE
      ensures ForkSlot(proc'[q].pc) < |proc'| && proc'[ForkSlot(proc'[q].pc)].state == SlotState(proc'[q].pc)
    {
      if q != p {
        assert ForkSlot(proc[q].pc) != k;
        SlotVacant(proc[q].pc);
      }
    }
  }

  lemma PartsOf(s: State)
    requires Inv(s)
    ensures Core(s) && ForkSlots(s.proc)
  {
    hide Core, ForkSlots;
  }

  lemma ScanMoves(s: State, c: nat)
    requires Enabled(s, Advance(c)) && s.proc[s.cpu[c].p].pc == ForkScan
    ensures var p, k := s.cpu[c].p, FirstUnused(s.proc, 0);
      Advanced(s, c).proc == s.proc[p := s.proc[p].(pc := if k < |s.proc| then ForkLeave(k) else ForkNone)]
  {
    hide FirstUnused;
  }

  /** Exactly a collision gives two forks the same record. */
  lemma FoundSlots(s: State, c: nat)
    requires Inv(s) && Enabled(s, Advance(c)) && s.proc[s.cpu[c].p].pc == ForkScan
    ensures ForkSlots(Advanced(s, c).proc) <==> !Collides(s, Advance(c))
  {
    hide FirstUnused, Core, ForkSlots, Inv, Advanced;
    var p, k := s.cpu[c].p, FirstUnused(s.proc, 0);
    PartsOf(s);
    ScanMoves(s, c);
    RunsProcess(s, c);
    if k >= |s.proc| {
      NoSlotBeyond(s.proc, k);
      KeptSlots(s.proc, Advanced(s, c).proc);
    } else if Collides(s, Advance(c)) {
      SharedSlot(s.proc, p, k);
    } else {
      SlotTaken(s.proc, k);
      NewSlot(s.proc, p, k);
    }
  }

  lemma SharedSlot(proc: seq<Proc>, p: nat, k: nat)
    requires p < |proc| && k < |proc| && ForkSlot(proc[p].pc) == NONE
    requires exists q :: 0 <= q < |proc| && (proc[q].pc == ForkLeave(k) || proc[q].pc == ForkMark(k))
    ensures !ForkSlots(proc[p := proc[p].(pc := ForkLeave(k))])
  {
    var q :| 0 <= q < |proc| && (proc[q].pc == ForkLeave(k) || proc[q].pc == ForkMark(k));
    var proc' := proc[p := proc[p].(pc := ForkLeave(k))];
    assert ForkSlot(proc'[q].pc) == ForkSlot(proc'[p].pc) == k;
  }

  lemma SlotTaken(proc: seq<Proc>, k: nat)
    requires ForkSlots(proc) && k < |proc| && proc[k].state == UNUSED
    requires !exists q :: 0 <= q < |proc| && (proc[q].pc == ForkLeave(k) || proc[q].pc == ForkMark(k))
    ensures forall q :: 0 <= q < |proc| ==> ForkSlot(proc[q].pc) != k
  {
    forall q | 0 <= q < |proc| ensures ForkSlot(proc[q].pc) != k {
      assert ForkSlot(proc[q].pc) == k ==> proc[k].state == SlotState(proc[q].pc);
    }
  }

  lemma NoSlotBeyond(proc: seq<Proc>, k: nat)
    requires ForkSlots(proc) && k >= |proc|
    ensures !exists q :: 0 <= q < |proc| && (proc[q].pc == ForkLeave(k) || proc[q].pc == ForkMark(k))
  {
    forall q | 0 <= q < |proc| ensures ForkSlot(proc[q].pc) != k {
    }
  }

  lemma NewSlot(proc: seq<Proc>, p: nat, k: nat)
    requires ForkSlots(proc) && p < |proc| && k < |proc| && proc[k].state == UNUSED
    requires forall q :: 0 <= q < |proc| ==> ForkSlot(proc[q].pc) != k
    ensures ForkSlots(proc[p := proc[p].(pc := ForkLeave(k))])
  {
    assert SlotState(ForkLeave(k)) == UNUSED;
  }

  lemma StoredSlots(s: State, p: nat, pc: Pc, k: nat, record: Proc)
    requires ForkSlots(s.proc) && p < |s.proc| && k < |s.proc| && k == ForkSlot(s.proc[p].pc) && k != p
    requires ForkSlot(pc) == NONE || (ForkSlot(pc) == k && record.state == SlotState(pc))
    requires ForkSlot(s.proc[k].pc) == NONE == ForkSlot(record.pc)
    ensures ForkSlots(Stored(s, p, pc, k, record).proc)
  {
    hide ForkSlots;
    MovedSlots(s.proc, Stored(s, p, pc, k, record).proc, p, k);
  }

  lemma MarkedSlots(s: State, c: nat, step: Step)
    requires Inv(s) && Enabled(s, step) && (step == Advance(c) || step == GiveUp(c)) && Marking(s.proc[s.cpu[c].p].pc)
    ensures ForkSlots(Next(s, step).proc)
  {
    hide Inv, ForkSlots, Stored, Advanced;
    SlotOfFork(s, c);
    var p := s.cpu[c].p;
    var k := ForkSlot(s.proc[p].pc);
    if step == GiveUp(c) {
      StoredSlots(s, p, Free, k, s.proc[k].(state := UNUSED, pc := Dead));
    } else {
      MarkEffect(s, c);
      StoredSlots(s, p, AfterMark(s.proc[p].pc), k, MarkedRecord(s.proc[p].pc, p, s.proc[k]));
    }
  }

  /** The record that a fork works on is another one, at rest. */
  lemma SlotOfFork(s: State, c: nat)
    requires Inv(s) && Runs(s, c) && Marking(s.proc[s.cpu[c].p].pc)
    ensures var k := ForkSlot(s.proc[s.cpu[c].p].pc);
      && ForkSlots(s.proc) && k < |s.proc| && k != s.cpu[c].p && ForkSlot(s.proc[k].pc) == NONE
      && s.proc[k].state == SlotState(s.proc[s.cpu[c].p].pc)
  {
    assert Core(s) && ForkSlots(s.proc);
    hide Core, Inv, ForkSlots, OnNoCpu;
    SlotAtRest(s, s.cpu[c].p);
    RunsProcess(s, c);
  }

  /** Steps that change more than the record of the process itself. */
  predicate Wide(pc: Pc) {
    pc == ExitSet || pc.WakeScan? || pc == WaitScan || Marking(pc)
  }

  lemma OwnRecord(s: State, c: nat)
    requires Enabled(s, Advance(c)) && !Wide(s.proc[s.cpu[c].p].pc)
    ensures Advanced(s, c).proc == s.proc[s.cpu[c].p := Advanced(s, c).proc[s.cpu[c].p]]
  {
  }

  lemma OwnSlot(s: State, c: nat)
    requires Enabled(s, Advance(c)) && !Wide(s.proc[s.cpu[c].p].pc) && s.proc[s.cpu[c].p].pc != ForkScan
    ensures SameSlot(s.proc[s.cpu[c].p].pc, Advanced(s, c).proc[s.cpu[c].p].pc)
  {
  }

  /** Steps other than those of fork keep the records of forks. */
  lemma OtherSlots(s: State, c: nat)
    requires Core(s) && Enabled(s, Advance(c))
    requires var pc := s.proc[s.cpu[c].p].pc; pc != ForkScan && !Marking(pc)
    ensures SlotsKept(s.proc, Advanced(s, c).proc)
  {
    Running(s, c);
    var p := s.cpu[c].p;
    if Wide(s.proc[p].pc) {
      WideSlots(s, c);
    } else {
      hide Advanced, Core;
      OwnRecord(s, c);
      OwnSlot(s, c);
    }
  }

  lemma WideSlots(s: State, c: nat)
    requires Enabled(s, Advance(c)) && s.proc[s.cpu[c].p].state == RUNNING
    requires var pc := s.proc[s.cpu[c].p].pc; pc == ExitSet || pc.WakeScan? || pc == WaitScan
    ensures SlotsKept(s.proc, Advanced(s, c).proc)
  {
    hide FindZombie, WokenParent, Adopted, Woken;
    var p := s.cpu[c].p;
    var pc := s.proc[p].pc;
    if pc == ExitSet {
      var woken := WokenParent(s.proc, s.proc[p].parent, p);
      WokenSlots(s.proc, s.proc[p].parent, p);
      AdoptedSlots(woken, p, s.init);
    } else if pc.WakeScan? {
      ScanSlots(s.proc, OnLock(pc.l), p);
    }
  }

  lemma WokenSlots(proc: seq<Proc>, x: int, p: nat)
    requires p < |proc|
    ensures SlotsKept(proc, WokenParent(proc, x, p)) && WokenParent(proc, x, p)[p] == proc[p]
  {
  }

  lemma AdoptedSlots(proc: seq<Proc>, p: nat, init: nat)
    requires p < |proc|
    ensures SlotsKept(proc, Adopted(proc, p, init)) && SameSlot(Adopted(proc, p, init)[p].pc, proc[p].pc)
  {
  }

  lemma ScanSlots(proc: seq<Proc>, chan: Chan, p: nat)
    requires p < |proc|
    ensures SlotsKept(proc, Woken(proc, chan, p)) && Woken(proc, chan, p)[p] == proc[p]
  {
  }

  lemma SlotsStep(s: State, step: Step)
    requires Inv(s) && Enabled(s, step)
    ensures ForkSlots(Next(s, step).proc) <==> !Collides(s, step)
  {
    hide ForkSlots, Core, Advanced, Collides, SlotsKept;
    assert Core(s) && ForkSlots(s.proc);
    match step
    case GiveUp(c) =>
      MarkedSlots(s, c, step);
      CollidesHow(s, step);
    case Advance(c) =>
      var pc := s.proc[s.cpu[c].p].pc;
      CollidesHow(s, step);
      if pc == ForkScan {
        FoundSlots(s, c);
      } else if Marking(pc) {
        MarkedSlots(s, c, step);
      } else {
        OtherSlots(s, c);
        KeptSlots(s.proc, Advanced(s, c).proc);
      }
    case _ =>
      CollidesHow(s, step);
      PlainSlots(s, step);
      KeptSlots(s.proc, Next(s, step).proc);
  }

  lemma CollidesHow(s: State, step: Step)
    ensures Collides(s, step) ==> step.Advance? && Runs(s, step.c) && s.proc[s.cpu[step.c].p].pc == ForkScan
  {
  }

  lemma PlainSlots(s: State, step: Step)
    requires Enabled(s, step) && !step.Advance? && !step.GiveUp?
    ensures SlotsKept(s.proc, Next(s, step).proc)
  {
  }

  /** A step keeps the invariant if and only if it is not a collision of two forks. */
  lemma StepKeepsInv(s: State, step: Step)
    requires Inv(s) && Enabled(s, step)
    ensures Inv(Next(s, step)) <==> !Collides(s, step)
  {
    hide Core, ForkSlots, Next, Enabled, Collides;
    StepKeepsCore(s, step);
    SlotsStep(s, step);
  }

  lemma {:induction false} RunKeepsInv(s: State, run: seq<Step>)
    requires Inv(s) && Legal(s, run) && NoCollision(s, run)
    ensures Inv(Exec(s, run))
    decreases |run|
  {
    hide Inv, Next, Enabled, Collides;
    if run != [] {
      StepKeepsInv(s, run[0]);
      RunKeepsInv(Next(s, run[0]), run[1..]);
    }
  }
}
