/**
  Sleep, wakeup, sleep locks, fork, wait, exit and the scheduler (src/core/proc.c,
  src/core/sleeplock.c, src/core/sched.c) for any number of CPUs, processes and
  sleep locks, as a machine whose steps are single actions of one CPU.  Taking
  and releasing a spin lock are steps of their own; what a CPU does between them
  without touching memory that others may change is one step.
 */
module ProcMachine {

  datatype ProcState = UNUSED | EMBRYO | RUNNABLE | RUNNING | SLEEPING | ZOMBIE

  /** What a process sleeps on: a sleep lock, or in `wait` its own record. */
  datatype Chan = Nothing | OnLock(lock: nat) | OnSelf

  /** Where a process is in the kernel; `l` is the sleep lock it works on.  The
      comment says what the process does next. */
  datatype Pc =
    | Free                  // calls anything
    | YieldEnter            // yield: takes the table lock
    | YieldSet              // becomes RUNNABLE
    | YieldSwitch           // switches to the scheduler
    | YieldLeave            // releases the table lock
    | AcqEnter(l: nat)      // acquire_sleeplock: takes the spin lock of l
    | AcqTest(l: nat)       // looks at `locked`
    | AcqLeave(l: nat)      // releases the spin lock
    | SleepEnter(l: nat)    // sleep: takes the table lock
    | SleepRelease(l: nat)  // releases the spin lock
    | SleepSet(l: nat)      // becomes SLEEPING on l
    | SleepSwitch(l: nat)   // switches to the scheduler
    | SleepClear(l: nat)    // clears its channel
    | SleepLeave(l: nat)    // releases the table lock
    | RelEnter(l: nat)      // release_sleeplock: takes the spin lock of l
    | RelSet(l: nat)        // clears `locked`
    | RelLeave(l: nat)      // releases the spin lock
    | WakeEnter(l: nat)     // wakeup: takes the table lock
    | WakeScan(l: nat)      // makes the sleepers on l RUNNABLE
    | WakeLeave(l: nat)     // releases the table lock
    | ExitEnter             // exit: takes the table lock
    | ExitSet               // wakes its parent, gives away its children, becomes ZOMBIE
    | ExitSwitch            // switches to the scheduler
    | Dead
    | WaitEnter             // wait: takes the table lock
    | WaitScan              // looks for a zombie child
    | WaitSet               // becomes SLEEPING on itself
    | WaitSwitch            // switches to the scheduler
    | WaitClear             // clears its channel
    | WaitLeave             // releases the table lock
    | ForkEnter             // fork: takes the table lock
    | ForkScan              // looks for an UNUSED record
    | ForkNone              // releases the table lock, without a record
    | ForkLeave(k: nat)     // releases the table lock, with record k
    | ForkMark(k: nat)      // makes k EMBRYO
    | ForkParent(k: nat)    // becomes the parent of k, or gives k back
    | ForkReady(k: nat)     // makes k RUNNABLE

  const NONE := -1

  datatype Proc = Proc(state: ProcState, chan: Chan, parent: int, pc: Pc)

  /** What a CPU executes: the scheduler (without the table lock, with it, or with
      it and a process chosen), or a process. */
  datatype Cpu = Idle | Scanning | Chosen(p: nat) | Run(p: nat)

  /** A sleep lock: the process that holds its spin lock, and `locked`. */
  datatype SleepLock = SleepLock(spin: int, locked: bool)

  /** `lock` is the CPU that holds the table lock, `init` the first process. */
  datatype State = State(cpu: seq<Cpu>, lock: int, proc: seq<Proc>, sl: seq<SleepLock>, init: nat)

  /** What a process may start. */
  datatype Call = Yield | Acquire(l: nat) | Release(l: nat) | Exit | Wait | Fork

  datatype Step =
    | SchedAcquire(c: nat)
    | SchedPick(c: nat, p: nat)
    | SchedSwitch(c: nat)
    | SchedRelease(c: nat)
    | Begin(c: nat, call: Call)
    | GiveUp(c: nat)
    | Advance(c: nat)

  // ------------------------------------------------------------ the steps

  function Entry(call: Call): Pc {
    match call
    case Yield => YieldEnter
    case Acquire(l) => AcqEnter(l)
    case Release(l) => RelEnter(l)
    case Exit => ExitEnter
    case Wait => WaitEnter
    case Fork => ForkEnter
  }

  /** The process on CPU `c`. */
  predicate Runs(s: State, c: nat) {
    c < |s.cpu| && s.cpu[c].Run? && s.cpu[c].p < |s.proc|
  }

  predicate ZombieChild(proc: seq<Proc>, p: nat, q: nat) {
    q < |proc| && proc[q].parent == p && proc[q].state == ZOMBIE
  }

  predicate HasChild(proc: seq<Proc>, p: nat) {
    exists q :: 0 <= q < |proc| && proc[q].parent == p
  }

  /** The place of the first zombie child in the table. */
  function FindZombie(proc: seq<Proc>, p: nat, i: nat): (q: nat)
    requires i <= |proc|
    ensures i <= q <= |proc|
    ensures q < |proc| ==> ZombieChild(proc, p, q)
    ensures forall j :: i <= j < q ==> !ZombieChild(proc, p, j)
    decreases |proc| - i
  {
    if i == |proc| || ZombieChild(proc, p, i) then i else FindZombie(proc, p, i + 1)
  }

  /** The place of the first UNUSED record. */
  function FirstUnused(proc: seq<Proc>, i: nat): (k: nat)
    requires i <= |proc|
    ensures i <= k <= |proc|
    ensures k < |proc| ==> proc[k].state == UNUSED
    ensures forall j :: i <= j < k ==> proc[j].state != UNUSED
    decreases |proc| - i
  {
    if i == |proc| || proc[i].state == UNUSED then i else FirstUnused(proc, i + 1)
  }

  /** The sleepers on a channel become RUNNABLE, except the caller. */
  function Woken(proc: seq<Proc>, chan: Chan, caller: nat): (r: seq<Proc>)
    ensures |r| == |proc|
  {
    seq(|proc|, q requires 0 <= q < |proc| =>
      if q != caller && proc[q].state == SLEEPING && proc[q].chan == chan then proc[q].(state := RUNNABLE) else proc[q])
  }

  /** wakeup1(x), for a process `x` that waits for its children. */
  function WokenParent(proc: seq<Proc>, x: int, caller: nat): (r: seq<Proc>)
    ensures |r| == |proc|
  {
    if 0 <= x < |proc| && x != caller && proc[x].state == SLEEPING && proc[x].chan == OnSelf
    then proc[x := proc[x].(state := RUNNABLE)]
    else proc
  }

  /** The children of `p` go to the first process, which is woken when one of them
      is a zombie. */
  function Adopted(proc: seq<Proc>, p: nat, init: nat): (r: seq<Proc>)
    ensures |r| == |proc|
  {
    var given := seq(|proc|, q requires 0 <= q < |proc| =>
      if proc[q].parent == p then proc[q].(parent := init) else proc[q]);
    if exists q :: 0 <= q < |proc| && proc[q].parent == p && proc[q].state == ZOMBIE
    then WokenParent(given, init, p)
    else given
  }

  function At(s: State, p: nat, pc: Pc): State
    requires p < |s.proc|
  {
    s.(proc := s.proc[p := s.proc[p].(pc := pc)])
  }

  function Spin(s: State, l: nat, holder: int): State
    requires l < |s.sl|
  {
    s.(sl := s.sl[l := s.sl[l].(spin := holder)])
  }

  function Flag(s: State, l: nat, locked: bool): State
    requires l < |s.sl|
  {
    s.(sl := s.sl[l := s.sl[l].(locked := locked)])
  }

  /** The next action at `pc` waits for the table lock. */
  predicate WantsTable(pc: Pc) {
    pc.YieldEnter? || pc.SleepEnter? || pc.WakeEnter? || pc.ExitEnter? || pc.WaitEnter? || pc.ForkEnter?
  }

  predicate WantsSpin(pc: Pc) {
    pc.AcqEnter? || pc.RelEnter?
  }

  /** swtch to the scheduler of the CPU; the process goes on at `pc` later. */
  function SwitchedOut(s: State, c: nat, p: nat, pc: Pc): State
    requires c < |s.cpu| && p < |s.proc|
  {
    At(s, p, pc).(cpu := s.cpu[c := Scanning])
  }

  predicate OnLockOf(s: State, pc: Pc) {
    match pc
    case AcqEnter(l) => l < |s.sl|
    case AcqTest(l) => l < |s.sl|
    case AcqLeave(l) => l < |s.sl|
    case SleepRelease(l) => l < |s.sl|
    case RelEnter(l) => l < |s.sl|
    case RelSet(l) => l < |s.sl|
    case RelLeave(l) => l < |s.sl|
    case _ => true
  }

  /** The record that a fork at `pc` works on. */
  function ForkSlot(pc: Pc): (k: int)
    ensures NONE <= k
  {
    match pc
    case ForkLeave(k) => k
    case ForkMark(k) => k
    case ForkParent(k) => k
    case ForkReady(k) => k
    case _ => NONE
  }

  /** Process `p` goes to `pc`, and stores a state in another record. */
  function Stored(s: State, p: nat, pc: Pc, k: nat, record: Proc): State
    requires p < |s.proc| && k < |s.proc|
  {
    At(s.(proc := s.proc[k := record]), p, pc)
  }

  predicate Enabled(s: State, step: Step) {
    match step
    case SchedAcquire(c) => c < |s.cpu| && s.cpu[c] == Idle && s.lock == NONE
    case SchedPick(c, p) => c < |s.cpu| && s.cpu[c] == Scanning && p < |s.proc| && s.proc[p].state == RUNNABLE
    case SchedSwitch(c) => c < |s.cpu| && s.cpu[c].Chosen?
    case SchedRelease(c) => c < |s.cpu| && s.cpu[c] == Scanning
    case Begin(c, call) =>
      && Runs(s, c) && s.proc[s.cpu[c].p].pc == Free && OnLockOf(s, Entry(call))
      && (call == Exit ==> s.cpu[c].p != s.init)
    case GiveUp(c) => Runs(s, c) && s.proc[s.cpu[c].p].pc.ForkParent? && s.proc[s.cpu[c].p].pc.k < |s.proc|
    case Advance(c) =>
      && Runs(s, c)
      && var pc := s.proc[s.cpu[c].p].pc;
      && pc != Free && pc != Dead && OnLockOf(s, pc) && ForkSlot(pc) < |s.proc|
      && (WantsTable(pc) ==> s.lock == NONE)
      && (WantsSpin(pc) ==> s.sl[pc.l].spin == NONE)
  }

  /** The step of the process on CPU `c`. */
  function Advanced(s: State, c: nat): State
    requires Enabled(s, Advance(c))
  {
    var p := s.cpu[c].p;
    var pr := s.proc[p];
    match pr.pc
    case YieldEnter => At(s, p, YieldSet).(lock := c)
    case YieldSet => s.(proc := s.proc[p := pr.(state := RUNNABLE, pc := YieldSwitch)])
    case YieldLeave => At(s, p, Free).(lock := NONE)
    case AcqEnter(l) => Spin(At(s, p, AcqTest(l)), l, p)
    case AcqTest(l) =>
      if s.sl[l].locked then At(s, p, SleepEnter(l)) else Flag(At(s, p, AcqLeave(l)), l, true)
    case AcqLeave(l) => Spin(At(s, p, Free), l, NONE)
    case SleepEnter(l) => At(s, p, SleepRelease(l)).(lock := c)
    case SleepRelease(l) => Spin(At(s, p, SleepSet(l)), l, NONE)
    case SleepSet(l) => s.(proc := s.proc[p := pr.(state := SLEEPING, chan := OnLock(l), pc := SleepSwitch(l))])
    case SleepClear(l) => s.(proc := s.proc[p := pr.(chan := Nothing, pc := SleepLeave(l))])
    case SleepLeave(l) => At(s, p, AcqEnter(l)).(lock := NONE)
    case RelEnter(l) => Spin(At(s, p, RelSet(l)), l, p)
    case RelSet(l) => Flag(At(s, p, RelLeave(l)), l, false)
    case RelLeave(l) => Spin(At(s, p, WakeEnter(l)), l, NONE)
    case WakeEnter(l) => At(s, p, WakeScan(l)).(lock := c)
    case WakeScan(l) => At(s.(proc := Woken(s.proc, OnLock(l), p)), p, WakeLeave(l))
    case WakeLeave(l) => At(s, p, Free).(lock := NONE)
    case ExitEnter => At(s, p, ExitSet).(lock := c)
    case ExitSet =>
      var woken := WokenParent(s.proc, pr.parent, p);
      var proc := Adopted(woken, p, s.init);
      s.(proc := proc[p := proc[p].(state := ZOMBIE, pc := ExitSwitch)])
    case WaitEnter => At(s, p, WaitScan).(lock := c)
    case WaitScan =>
      var q := FindZombie(s.proc, p, 0);
      if q < |s.proc| then At(s.(proc := s.proc[q := s.proc[q].(state := UNUSED, parent := NONE)]), p, WaitLeave)
      else if HasChild(s.proc, p) then At(s, p, WaitSet)
      else At(s, p, WaitLeave)
    case WaitSet => s.(proc := s.proc[p := pr.(state := SLEEPING, chan := OnSelf, pc := WaitSwitch)])
    case WaitClear => s.(proc := s.proc[p := pr.(chan := Nothing, pc := WaitScan)])
    case WaitLeave => At(s, p, Free).(lock := NONE)
    case ForkEnter => At(s, p, ForkScan).(lock := c)
    case ForkScan =>
      var k := FirstUnused(s.proc, 0);
      At(s, p, if k < |s.proc| then ForkLeave(k) else ForkNone)
    case ForkNone => At(s, p, Free).(lock := NONE)
    case ForkLeave(k) => At(s, p, ForkMark(k)).(lock := NONE)
    case ForkMark(k) => Stored(s, p, ForkParent(k), k, s.proc[k].(state := EMBRYO, pc := YieldLeave))
    case ForkParent(k) => Stored(s, p, ForkReady(k), k, s.proc[k].(parent := p))
    case ForkReady(k) => Stored(s, p, Free, k, s.proc[k].(state := RUNNABLE))
    case YieldSwitch => SwitchedOut(s, c, p, YieldLeave)
    case SleepSwitch(l) => SwitchedOut(s, c, p, SleepClear(l))
    case ExitSwitch => SwitchedOut(s, c, p, Dead)
    case WaitSwitch => SwitchedOut(s, c, p, WaitClear)
  }

  function Next(s: State, step: Step): State
    requires Enabled(s, step)
  {
    match step
    case SchedAcquire(c) => s.(cpu := s.cpu[c := Scanning], lock := c)
    case SchedPick(c, p) =>
      s.(cpu := s.cpu[c := Chosen(p)], proc := s.proc[p := s.proc[p].(state := RUNNING)])
    case SchedSwitch(c) => s.(cpu := s.cpu[c := Run(s.cpu[c].p)])
    case SchedRelease(c) => s.(cpu := s.cpu[c := Idle], lock := NONE)
    case Begin(c, call) => At(s, s.cpu[c].p, Entry(call))
    case GiveUp(c) =>
      var p := s.cpu[c].p;
      var k := s.proc[p].pc.k;
      Stored(s, p, Free, k, s.proc[k].(state := UNUSED, pc := Dead))
    case Advance(c) => Advanced(s, c)
  }

  /** A fork finds a record that another fork has found and not yet made EMBRYO. */
  predicate Collides(s: State, step: Step) {
    && step.Advance? && Runs(s, step.c) && s.proc[s.cpu[step.c].p].pc == ForkScan
    && var k := FirstUnused(s.proc, 0);
      exists q :: 0 <= q < |s.proc| && (s.proc[q].pc == ForkLeave(k) || s.proc[q].pc == ForkMark(k))
  }

  // ---------------------------------------------------------------- runs

  predicate Legal(s: State, run: seq<Step>)
    decreases |run|
  {
    run == [] || (Enabled(s, run[0]) && Legal(Next(s, run[0]), run[1..]))
  }

  function Exec(s: State, run: seq<Step>): State
    requires Legal(s, run)
    decreases |run|
  {
    if run == [] then s else Exec(Next(s, run[0]), run[1..])
  }

  /** No step of the run is a collision. */
  predicate NoCollision(s: State, run: seq<Step>)
    requires Legal(s, run)
    decreases |run|
  {
    run == [] || (!Collides(s, run[0]) && NoCollision(Next(s, run[0]), run[1..]))
  }

  /** Before the first step: every CPU is in its scheduler, the first process is
      ready to start, all other table entries are unused and no lock is held. */
  ghost predicate Boot(s: State) {
    && (forall c :: 0 <= c < |s.cpu| ==> s.cpu[c] == Idle)
    && s.lock == NONE && s.init < |s.proc|
    && (forall p :: 0 <= p < |s.proc| ==>
          s.proc[p] == if p == s.init then Proc(RUNNABLE, Nothing, NONE, YieldLeave)
                       else Proc(UNUSED, Nothing, NONE, Dead))
    && (forall l :: 0 <= l < |s.sl| ==> s.sl[l] == SleepLock(NONE, false))
  }
}
