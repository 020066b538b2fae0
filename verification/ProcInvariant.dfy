/**
  What every step of the process machine keeps.
 */
module ProcInvariant {
  import opened ProcMachine

  /** The process at `pc` holds the table lock. */
  predicate HoldsTable(pc: Pc) {
    match pc
    case YieldSet => true
    case YieldSwitch => true
    case YieldLeave => true
    case SleepRelease(_) => true
    case SleepSet(_) => true
    case SleepSwitch(_) => true
    case SleepClear(_) => true
    case SleepLeave(_) => true
    case WakeScan(_) => true
    case WakeLeave(_) => true
    case ExitSet => true
    case ExitSwitch => true
    case WaitScan => true
    case WaitSet => true
    case WaitSwitch => true
    case WaitClear => true
    case WaitLeave => true
    case ForkScan => true
    case ForkNone => true
    case ForkLeave(_) => true
    case _ => false
  }

  /** The process at `pc` holds the spin lock of sleep lock `l`. */
  predicate HoldsSpin(pc: Pc, l: nat) {
    match pc
    case AcqTest(k) => k == l
    case AcqLeave(k) => k == l
    case SleepEnter(k) => k == l
    case SleepRelease(k) => k == l
    case RelSet(k) => k == l
    case RelLeave(k) => k == l
    case _ => false
  }

  /** A process that cleared `locked` of `l` and has not yet scanned the table. */
  predicate WillWake(pc: Pc, l: nat) {
    match pc
    case RelLeave(k) => k == l
    case WakeEnter(k) => k == l
    case WakeScan(k) => k == l
    case _ => false
  }

  // ------------------------------------------------------ the table lock

  predicate CpuHolds(cpu: Cpu, proc: seq<Proc>) {
    match cpu
    case Idle => false
    case Scanning => true
    case Chosen(_) => true
    case Run(p) => p < |proc| && HoldsTable(proc[p].pc)
  }

  /** The table lock is held by exactly the CPU whose scheduler or process is
      between taking and releasing it. */
  ghost predicate TableLock(cpu: seq<Cpu>, lock: int, proc: seq<Proc>) {
    && (lock == NONE || 0 <= lock < |cpu|)
    && forall c :: 0 <= c < |cpu| ==> (lock == c <==> CpuHolds(cpu[c], proc))
  }

  function Owner(cpu: Cpu): int {
    match cpu
    case Idle => NONE
    case Scanning => NONE
    case Chosen(p) => p
    case Run(p) => p
  }

  /** A process is on at most one CPU. */
  ghost predicate OneCpu(cpu: seq<Cpu>, n: nat) {
    && (forall c :: 0 <= c < |cpu| ==> Owner(cpu[c]) < n)
    && forall c, d :: 0 <= c < |cpu| && 0 <= d < |cpu| && Owner(cpu[c]) == Owner(cpu[d]) != NONE ==> c == d
  }

  // -------------------------------------------------- state and position

  /** A process that a CPU executes is RUNNING, except between the change of its
      state and the switch. */
  predicate RunOk(pr: Proc) {
    match pr.pc
    case YieldSwitch => pr.state == RUNNABLE
    case SleepSwitch(l) => pr.state == SLEEPING && pr.chan == OnLock(l)
    case WaitSwitch => pr.state == SLEEPING && pr.chan == OnSelf
    case ExitSwitch => pr.state == ZOMBIE
    case Dead => false
    case _ => pr.state == RUNNING
  }

  predicate Resumable(pc: Pc) {
    pc.YieldLeave? || pc.SleepClear? || pc.WaitClear?
  }

  /** A process that no CPU executes. */
  predicate RestOk(pr: Proc) {
    match pr.state
    case UNUSED => pr.pc == Dead
    case EMBRYO => pr.pc == YieldLeave
    case ZOMBIE => pr.pc == Dead
    case RUNNABLE => Resumable(pr.pc)
    case SLEEPING =>
      || (pr.pc.SleepClear? && pr.chan == OnLock(pr.pc.l))
      || (pr.pc.WaitClear? && pr.chan == OnSelf)
    case RUNNING => false
  }

  predicate CpuOk(cpu: Cpu, proc: seq<Proc>) {
    match cpu
    case Chosen(p) => p < |proc| && proc[p].state == RUNNING && Resumable(proc[p].pc)
    case Run(p) => p < |proc| && RunOk(proc[p])
    case _ => true
  }

  ghost predicate OnNoCpu(cpu: seq<Cpu>, p: nat) {
    forall c :: 0 <= c < |cpu| ==> Owner(cpu[c]) != p
  }

  ghost predicate Places(cpu: seq<Cpu>, proc: seq<Proc>) {
    && (forall c :: 0 <= c < |cpu| ==> CpuOk(cpu[c], proc))
    && (forall p :: 0 <= p < |proc| && OnNoCpu(cpu, p) ==> RestOk(proc[p]))
  }

  // -------------------------------------------------------- sleep locks

  ghost predicate SpinLocks(proc: seq<Proc>, sl: seq<SleepLock>) {
    && (forall p, l :: 0 <= p < |proc| && 0 <= l < |sl| ==> (sl[l].spin == p <==> HoldsSpin(proc[p].pc, l)))
    && (forall l :: 0 <= l < |sl| ==> NONE <= sl[l].spin < |proc|)
  }

  /** The process saw `l` locked and still holds its spin lock. */
  predicate SawLocked(pc: Pc, l: nat) {
    pc == SleepEnter(l) || pc == SleepRelease(l)
  }

  /** The process is going to sleep on `l`, or sleeps on it. */
  predicate Waiting(pr: Proc, l: nat) {
    pr.pc == SleepSet(l) || pr.pc == SleepSwitch(l) || (pr.pc == SleepClear(l) && pr.state == SLEEPING)
  }

  ghost predicate Waker(proc: seq<Proc>, l: nat) {
    exists q :: 0 <= q < |proc| && WillWake(proc[q].pc, l)
  }

  /** Whoever waits for a free sleep lock will be woken. */
  ghost predicate NoLostWakeup(proc: seq<Proc>, sl: seq<SleepLock>) {
    && (forall p, l :: 0 <= p < |proc| && 0 <= l < |sl| && SawLocked(proc[p].pc, l) ==> sl[l].locked)
    && (forall p, l :: 0 <= p < |proc| && 0 <= l < |sl| && Waiting(proc[p], l) ==> sl[l].locked || Waker(proc, l))
  }

  // --------------------------------------------------------------- wait

  /** The process found no zombie child and is going to sleep, or sleeps. */
  predicate WaitsForChild(pr: Proc) {
    pr.pc == WaitSet || pr.pc == WaitSwitch || (pr.pc == WaitClear && pr.state == SLEEPING)
  }

  ghost predicate NoMissedExit(proc: seq<Proc>) {
    forall p, q :: 0 <= p < |proc| && 0 <= q < |proc| && WaitsForChild(proc[p]) ==> !ZombieChild(proc, p, q)
  }

  predicate Exiting(pc: Pc) {
    pc == ExitEnter || pc == ExitSet || pc == ExitSwitch || pc == Dead
  }

  /** A record without a process that could run. */
  predicate Vacant(state: ProcState) {
    state == UNUSED || state == EMBRYO
  }

  ghost predicate Family(proc: seq<Proc>, init: nat) {
    && init < |proc| && proc[init].parent == NONE && !Exiting(proc[init].pc)
    && proc[init].state != ZOMBIE && !Vacant(proc[init].state)
    && (forall p :: 0 <= p < |proc| ==> proc[p].parent != p)
    && (forall p :: 0 <= p < |proc| ==> NONE <= proc[p].parent < |proc|)
  }

  // --------------------------------------------------------------- fork

  /** The state of the record that a fork at `pc` works on. */
  function SlotState(pc: Pc): ProcState {
    if pc.ForkLeave? || pc.ForkMark? then UNUSED else EMBRYO
  }

  /** Each fork works on a record of its own, in the state it left it in. */
  ghost predicate ForkSlots(proc: seq<Proc>) {
    && (forall p :: 0 <= p < |proc| && ForkSlot(proc[p].pc) != NONE ==>
          ForkSlot(proc[p].pc) < |proc| && proc[ForkSlot(proc[p].pc)].state == SlotState(proc[p].pc))
    && (forall p, q :: 0 <= p < |proc| && 0 <= q < |proc| && ForkSlot(proc[p].pc) == ForkSlot(proc[q].pc) != NONE ==>
          p == q)
  }

  ghost predicate Inv(s: State) {
    Core(s) && ForkSlots(s.proc)
  }

  ghost predicate Core(s: State) {
    && TableLock(s.cpu, s.lock, s.proc) && OneCpu(s.cpu, |s.proc|) && Places(s.cpu, s.proc)
    && SpinLocks(s.proc, s.sl) && NoLostWakeup(s.proc, s.sl) && NoMissedExit(s.proc) && Family(s.proc, s.init)
  }

  lemma BootInv(s: State)
    requires Boot(s)
    ensures Inv(s)
  {
    hide SpinLocks, NoLostWakeup, NoMissedExit, ForkSlots;
    BootLocks(s);
  }

  lemma BootLocks(s: State)
    requires Boot(s)
    ensures SpinLocks(s.proc, s.sl) && NoLostWakeup(s.proc, s.sl) && NoMissedExit(s.proc) && ForkSlots(s.proc)
  {
  }

  // ------------------------------------------- a step of one process alone

  /** Process `p` on CPU `c` changed its own record only. */
  lemma TableLockKept(cpu: seq<Cpu>, lock: int, lock': int, proc: seq<Proc>, c: nat, p: nat, pr: Proc)
    requires TableLock(cpu, lock, proc) && OneCpu(cpu, |proc|) && c < |cpu| && p < |proc| && cpu[c] == Run(p)
    requires lock' == lock || (lock == NONE && lock' == c) || (lock == c && lock' == NONE)
    requires lock' == c <==> HoldsTable(pr.pc)
    ensures TableLock(cpu, lock', proc[p := pr])
  {
    forall d | 0 <= d < |cpu| ensures lock' == d <==> CpuHolds(cpu[d], proc[p := pr]) {
      if d != c {
        assert Owner(cpu[d]) != p;
      }
    }
  }

  lemma PlacesKept(cpu: seq<Cpu>, proc: seq<Proc>, c: nat, p: nat, pr: Proc)
    requires Places(cpu, proc) && OneCpu(cpu, |proc|) && c < |cpu| && p < |proc| && cpu[c] == Run(p) && RunOk(pr)
    ensures Places(cpu, proc[p := pr])
  {
    forall d | 0 <= d < |cpu| ensures CpuOk(cpu[d], proc[p := pr]) {
      if d != c {
        assert Owner(cpu[d]) != p;
      }
    }
    assert Owner(cpu[c]) == p && !OnNoCpu(cpu, p);
  }

  lemma SpinLocksKept(proc: seq<Proc>, sl: seq<SleepLock>, p: nat, pr: Proc)
    requires SpinLocks(proc, sl) && p < |proc| && forall l :: 0 <= l < |sl| ==> (HoldsSpin(pr.pc, l) <==> HoldsSpin(proc[p].pc, l))
    ensures SpinLocks(proc[p := pr], sl)
  {
  }

  lemma SpinTaken(proc: seq<Proc>, sl: seq<SleepLock>, p: nat, pr: Proc, l: nat)
    requires SpinLocks(proc, sl) && p < |proc| && l < |sl| && sl[l].spin == NONE
    requires forall k :: 0 <= k < |sl| ==> (HoldsSpin(pr.pc, k) <==> k == l)
    requires forall k :: 0 <= k < |sl| ==> !HoldsSpin(proc[p].pc, k)
    ensures SpinLocks(proc[p := pr], sl[l := sl[l].(spin := p)])
  {
    var proc', sl' := proc[p := pr], sl[l := sl[l].(spin := p)];
    forall q, k | 0 <= q < |proc| && 0 <= k < |sl| ensures sl'[k].spin == q <==> HoldsSpin(proc'[q].pc, k) {
      assert sl[k].spin == q <==> HoldsSpin(proc[q].pc, k);
    }
  }

  lemma SpinGiven(proc: seq<Proc>, sl: seq<SleepLock>, p: nat, pr: Proc, l: nat)
    requires SpinLocks(proc, sl) && p < |proc| && l < |sl|
    requires forall k :: 0 <= k < |sl| ==> (HoldsSpin(proc[p].pc, k) <==> k == l)
    requires forall k :: 0 <= k < |sl| ==> !HoldsSpin(pr.pc, k)
    ensures SpinLocks(proc[p := pr], sl[l := sl[l].(spin := NONE)])
  {
    var proc', sl' := proc[p := pr], sl[l := sl[l].(spin := NONE)];
    assert HoldsSpin(proc[p].pc, l);
    forall q, k | 0 <= q < |proc| && 0 <= k < |sl| ensures sl'[k].spin == q <==> HoldsSpin(proc'[q].pc, k) {
      assert sl[k].spin == q <==> HoldsSpin(proc[q].pc, k);
    }
  }

  /** The process neither waits for a sleep lock nor stops being a waker. */
  lemma WakeupKept(proc: seq<Proc>, sl: seq<SleepLock>, sl': seq<SleepLock>, p: nat, pr: Proc)
    requires NoLostWakeup(proc, sl) && p < |proc| && |sl'| == |sl|
    requires forall l :: 0 <= l < |sl| ==> sl'[l].locked == sl[l].locked
    requires forall l :: 0 <= l < |sl| ==>
      && (SawLocked(pr.pc, l) ==> sl[l].locked)
      && (Waiting(pr, l) ==> sl[l].locked || Waiting(proc[p], l))
      && (WillWake(proc[p].pc, l) ==> WillWake(pr.pc, l))
    ensures NoLostWakeup(proc[p := pr], sl')
  {
    var proc' := proc[p := pr];
    forall l | 0 <= l < |sl| && Waker(proc, l) ensures Waker(proc', l) {
      var q :| 0 <= q < |proc| && WillWake(proc[q].pc, l);
      assert WillWake(proc'[q].pc, l);
    }
  }

  lemma ExitKept(proc: seq<Proc>, init: nat, p: nat, pr: Proc)
    requires NoMissedExit(proc) && Family(proc, init) && p < |proc|
    requires pr.state != ZOMBIE && !Vacant(pr.state) && pr.parent == proc[p].parent
    requires WaitsForChild(pr) ==> WaitsForChild(proc[p]) || forall q :: 0 <= q < |proc| ==> !ZombieChild(proc, p, q)
    requires p == init ==> !Exiting(pr.pc)
    ensures NoMissedExit(proc[p := pr]) && Family(proc[p := pr], init)
  {
    var proc' := proc[p := pr];
    forall a, b | 0 <= a < |proc| && 0 <= b < |proc| && WaitsForChild(proc'[a]) ensures !ZombieChild(proc', a, b) {
      assert !ZombieChild(proc, a, b);
    }
  }
}
