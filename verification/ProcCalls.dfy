/**
  What a call has done when it returns.
 */
module ProcCalls {
  import opened ProcMachine
  import opened ProcInvariant
  import opened ProcSteps
  import opened ProcTheorems

  // -------------------------------------------------- the work of a call

  datatype Work =
    | LeaveCpu                 // be taken off the CPU, ready to run again
    | TakeLock(l: nat)         // find the lock free and lock it
    | SleepOnLock(l: nat)      // fall asleep on the lock
    | ClearLock(l: nat)        // unlock the lock
    | WakeSleepers(l: nat)     // wake everybody who sleeps on the lock, and nobody else
    | ReapChild                // release the first zombie child, or find no child
    | SleepOnSelf              // fall asleep until a child exits
    | MakeChild                // make a child ready to run, or find or give back no record
    | Die                      // become a zombie without children, with the parent awake

  /** The call does the work before it returns. */
  predicate Owes(call: Call, w: Work) {
    match call
    case Yield => w == LeaveCpu
    case Acquire(l) => w == TakeLock(l)
    case Release(l) => w == ClearLock(l) || w == WakeSleepers(l)
    case Exit => w == Die
    case Wait => w == ReapChild
    case Fork => w == MakeChild
  }

  /** A process at `pc` has the work ahead of it. */
  predicate Ahead(pc: Pc, w: Work) {
    match w
    case LeaveCpu => pc == YieldEnter || pc == YieldSet || pc == YieldSwitch
    case TakeLock(l) =>
      || pc == AcqEnter(l) || pc == AcqTest(l) || pc == SleepClear(l) || pc == SleepLeave(l) || pc == SleepSwitch(l)
      || pc == SleepEnter(l) || pc == SleepRelease(l) || pc == SleepSet(l)
    case SleepOnLock(l) => pc == SleepEnter(l) || pc == SleepRelease(l) || pc == SleepSet(l)
    case ClearLock(l) => pc == RelEnter(l) || pc == RelSet(l)
    case WakeSleepers(l) =>
      pc == RelEnter(l) || pc == RelSet(l) || pc == RelLeave(l) || pc == WakeEnter(l) || pc == WakeScan(l)
    case ReapChild => pc == WaitEnter || pc == WaitScan || pc == WaitSet || pc == WaitSwitch || pc == WaitClear
    case SleepOnSelf => pc == WaitSet
    case MakeChild =>
      pc == ForkEnter || pc == ForkScan || pc.ForkLeave? || pc.ForkMark? || pc.ForkParent? || pc.ForkReady?
    case Die => pc == ExitEnter || pc == ExitSet
  }

  /** A step from `s` to `t` does the work for process `p`. */
  ghost predicate Done(s: State, t: State, p: nat, w: Work) {
    && p < |s.proc| == |t.proc| && |t.sl| == |s.sl|
    && match w
       case LeaveCpu =>
         t.proc[p].state == RUNNABLE && exists c :: 0 <= c < |s.cpu| && s.cpu[c] == Run(p) && t.cpu == s.cpu[c := Scanning]
       case TakeLock(l) => l < |s.sl| && !s.sl[l].locked && t.sl == s.sl[l := s.sl[l].(locked := true)]
       case SleepOnLock(l) => t.proc[p].state == SLEEPING && t.proc[p].chan == OnLock(l)
       case ClearLock(l) => l < |s.sl| && t.sl == s.sl[l := s.sl[l].(locked := false)]
       case WakeSleepers(l) =>
         forall q :: 0 <= q < |s.proc| && q != p ==>
           t.proc[q] == if s.proc[q].state == SLEEPING && s.proc[q].chan == OnLock(l) then s.proc[q].(state := RUNNABLE)
                        else s.proc[q]
       case ReapChild => (forall q: nat :: !Kid(s.proc, p, q)) || exists q: nat :: Reaped(s.proc, t.proc, p, q)
       case SleepOnSelf => t.proc[p].state == SLEEPING && t.proc[p].chan == OnSelf
       case MakeChild =>
         || (forall k :: 0 <= k < |s.proc| ==> s.proc[k].state != UNUSED)
         || exists k: nat :: Made(s.proc, t.proc, p, k) || GivenBack(s.proc, t.proc, k)
       case Die =>
         && t.proc[p].state == ZOMBIE && (forall q: nat :: !Kid(t.proc, p, q))
         && forall q :: 0 <= q < |s.proc| && q == s.proc[p].parent ==>
           !(t.proc[q].state == SLEEPING && t.proc[q].chan == OnSelf)
  }

  ghost predicate Reaped(proc: seq<Proc>, proc': seq<Proc>, p: nat, q: nat) {
    && DeadKid(proc, p, q) && (forall j: nat :: j < q ==> !DeadKid(proc, p, j))
    && q < |proc'| && proc'[q] == proc[q].(state := UNUSED, parent := NONE)
  }

  predicate Made(proc: seq<Proc>, proc': seq<Proc>, p: nat, k: nat) {
    && k < |proc| == |proc'| && proc[k].state == EMBRYO
    && proc'[k] == proc[k].(state := RUNNABLE) && proc'[k].parent == p
  }

  predicate GivenBack(proc: seq<Proc>, proc': seq<Proc>, k: nat) {
    k < |proc| == |proc'| && proc[k].state == EMBRYO && proc'[k].state == UNUSED
  }

  // ------------------------------------------------ what the steps keep

  /** Locks and records that processes work on exist, and a record that is about to
      become ready has its parent. */
  ghost predicate InRange(s: State) {
    forall p :: 0 <= p < |s.proc| ==> PcOk(s, p)
  }

  predicate PcOk(s: State, p: nat) {
    p < |s.proc| &&
    var pc := s.proc[p].pc;
    && KnownLock(pc, |s.sl|) && ForkSlot(pc) < |s.proc|
    && (pc.ForkReady? ==> s.proc[pc.k].parent == p)
  }

  predicate KnownLock(pc: Pc, n: nat) {
    match pc
    case AcqEnter(l) => l < n
    case AcqTest(l) => l < n
    case AcqLeave(l) => l < n
    case SleepEnter(l) => l < n
    case SleepRelease(l) => l < n
    case SleepSet(l) => l < n
    case SleepSwitch(l) => l < n
    case SleepClear(l) => l < n
    case SleepLeave(l) => l < n
    case RelEnter(l) => l < n
    case RelSet(l) => l < n
    case RelLeave(l) => l < n
    case WakeEnter(l) => l < n
    case WakeScan(l) => l < n
    case WakeLeave(l) => l < n
    case _ => true
  }

  /** Process `q` keeps its place when another one steps, unless it is the record of a
      fork. */
  lemma OtherPlaces(s: State, c: nat, q: nat)
    requires Enabled(s, Advance(c)) && q < |s.proc| && q != s.cpu[c].p
    ensures var t := Advanced(s, c);
      && |t.proc| == |s.proc| && |t.sl| == |s.sl|
      && (ForkSlot(s.proc[s.cpu[c].p].pc) != q || !Marking(s.proc[s.cpu[c].p].pc) ==> t.proc[q].pc == s.proc[q].pc)
  {
    hide FindZombie, Adopted, WokenParent, Woken, FirstUnused;
    var p := s.cpu[c].p;
    WokenPlaces(s.proc, s.proc[p].parent, p, q);
    AdoptedPlaces(WokenParent(s.proc, s.proc[p].parent, p), p, s.init, q);
    if s.proc[p].pc.WakeScan? {
      SleepersPlaces(s.proc, OnLock(s.proc[p].pc.l), p, q);
    }
  }

  lemma WokenPlaces(proc: seq<Proc>, x: int, p: nat, q: nat)
    requires q < |proc|
    ensures WokenParent(proc, x, p)[q].pc == proc[q].pc && WokenParent(proc, x, p)[q].parent == proc[q].parent
  {
  }

  lemma AdoptedPlaces(proc: seq<Proc>, p: nat, init: nat, q: nat)
    requires q < |proc|
    ensures Adopted(proc, p, init)[q].pc == proc[q].pc
    ensures proc[q].parent != p ==> Adopted(proc, p, init)[q].parent == proc[q].parent
  {
  }

  lemma SleepersPlaces(proc: seq<Proc>, chan: Chan, p: nat, q: nat)
    requires q < |proc|
    ensures Woken(proc, chan, p)[q].pc == proc[q].pc && Woken(proc, chan, p)[q].parent == proc[q].parent
  {
  }

  /** A record that a fork works on belongs to no process. */
  lemma SlotIsIdle(s: State, c: nat, k: nat)
    requires Inv(s) && Runs(s, c) && Marking(s.proc[s.cpu[c].p].pc) && k == ForkSlot(s.proc[s.cpu[c].p].pc)
    ensures k < |s.proc| && (s.proc[k].pc == Dead || s.proc[k].pc == YieldLeave) && Vacant(s.proc[k].state)
  {
    hide Inv;
    SlotAtRest(s, s.cpu[c].p);
  }

  /** Only these steps change the parent of a record. */
  lemma ParentsKept(s: State, c: nat, k: nat)
    requires Enabled(s, Advance(c)) && k < |s.proc| && s.proc[k].parent != s.cpu[c].p
    requires s.proc[s.cpu[c].p].pc.ForkParent? ==> s.proc[s.cpu[c].p].pc.k != k
    ensures Advanced(s, c).proc[k].parent == s.proc[k].parent
  {
    hide FirstUnused, Adopted, WokenParent, Woken, HasChild;
    var p := s.cpu[c].p;
    WokenPlaces(s.proc, s.proc[p].parent, p, k);
    AdoptedPlaces(WokenParent(s.proc, s.proc[p].parent, p), p, s.init, k);
    if s.proc[p].pc.WakeScan? {
      SleepersPlaces(s.proc, OnLock(s.proc[p].pc.l), p, k);
    }
  }

  lemma OwnPlace(s: State, c: nat)
    requires Enabled(s, Advance(c)) && KnownLock(s.proc[s.cpu[c].p].pc, |s.sl|)
    ensures var p := s.cpu[c].p;
      var t := Advanced(s, c);
      && |t.proc| == |s.proc| && |t.sl| == |s.sl|
      && KnownLock(t.proc[p].pc, |s.sl|) && ForkSlot(t.proc[p].pc) < |s.proc|
      && (t.proc[p].pc.ForkReady? ==> s.proc[p].pc == ForkParent(t.proc[p].pc.k) && t.proc[t.proc[p].pc.k].parent == p)
  {
    hide FindZombie, Adopted, WokenParent, Woken;
  }

  /** The record that a fork works on stays without a process. */
  lemma SlotPlace(s: State, c: nat, k: nat)
    requires Inv(s) && Enabled(s, Advance(c)) && Marking(s.proc[s.cpu[c].p].pc) && k == ForkSlot(s.proc[s.cpu[c].p].pc)
    ensures k < |s.proc| && k != s.cpu[c].p
    ensures Advanced(s, c).proc[k].pc == Dead || Advanced(s, c).proc[k].pc == YieldLeave
  {
    hide Inv;
    SlotIsIdle(s, c, k);
  }

  lemma OtherSlot(s: State, p: nat, q: nat)
    requires Inv(s) && p < |s.proc| && q < |s.proc| && p != q && ForkSlot(s.proc[q].pc) != NONE
    ensures ForkSlot(s.proc[p].pc) != ForkSlot(s.proc[q].pc)
  {
    hide Core;
  }

  lemma PlaceOf(s: State, p: nat)
    requires InRange(s) && p < |s.proc|
    ensures PcOk(s, p)
  {
  }

  lemma AdvanceKeepsRange(s: State, c: nat, q: nat)
    requires Inv(s) && InRange(s) && Enabled(s, Advance(c)) && q < |s.proc|
    ensures PcOk(Advanced(s, c), q)
  {
    hide Advanced, Inv, ForkSlots, InRange, Core;
    var p := s.cpu[c].p;
    PlaceOf(s, p);
    PlaceOf(s, q);
    OwnPlace(s, c);
    if q != p {
      OtherPlaces(s, c, q);
      var pc := s.proc[q].pc;
      if Marking(s.proc[p].pc) && ForkSlot(s.proc[p].pc) == q {
        SlotPlace(s, c, q);
      } else if pc.ForkReady? {
        OtherSlot(s, p, q);
        ParentsKept(s, c, pc.k);
      }
    }
  }

  lemma StepKeepsRange(s: State, step: Step)
    requires Inv(s) && InRange(s) && Enabled(s, step)
    ensures InRange(Next(s, step))
  {
    hide Inv, Advanced, PcOk;
    match step
    case Advance(c) =>
      OwnPlaceSize(s, c);
      forall q | 0 <= q < |s.proc| ensures PcOk(Advanced(s, c), q) {
        AdvanceKeepsRange(s, c, q);
      }
    case Begin(c, call) =>
      BeginKeepsRange(s, c, call);
    case GiveUp(c) =>
      GiveUpKeepsRange(s, c);
    case _ =>
      SchedKeepsRange(s, step);
  }

  lemma BeginKeepsRange(s: State, c: nat, call: Call)
    requires InRange(s) && Enabled(s, Begin(c, call))
    ensures InRange(Next(s, Begin(c, call)))
  {
    forall q | 0 <= q < |s.proc| ensures PcOk(Next(s, Begin(c, call)), q) {
      assert PcOk(s, q);
    }
  }

  lemma GiveUpKeepsRange(s: State, c: nat)
    requires Inv(s) && InRange(s) && Enabled(s, GiveUp(c))
    ensures InRange(Next(s, GiveUp(c)))
  {
    hide Inv;
    SlotIsIdle(s, c, s.proc[s.cpu[c].p].pc.k);
    forall q | 0 <= q < |s.proc| ensures PcOk(Next(s, GiveUp(c)), q) {
      assert PcOk(s, q);
    }
  }

  lemma SchedKeepsRange(s: State, step: Step)
    requires InRange(s) && Enabled(s, step)
    requires step.SchedAcquire? || step.SchedPick? || step.SchedSwitch? || step.SchedRelease?
    ensures InRange(Next(s, step))
  {
    forall q | 0 <= q < |s.proc| ensures PcOk(Next(s, step), q) {
      assert PcOk(s, q);
    }
  }

  lemma OwnPlaceSize(s: State, c: nat)
    requires InRange(s) && Enabled(s, Advance(c))
    ensures |Advanced(s, c).proc| == |s.proc|
  {
    hide Advanced, InRange;
    PlaceOf(s, s.cpu[c].p);
    OwnPlace(s, c);
  }

  // ------------------------------------------------------ one step

  /** After a step from `s` to `t` the work is still ahead, or the step did it. */
  ghost predicate AheadOrDone(s: State, t: State, p: nat, w: Work) {
    p < |s.proc| == |t.proc| && (Ahead(t.proc[p].pc, w) || Done(s, t, p, w))
  }

  lemma LockWork(s: State, c: nat, w: Work)
    requires Enabled(s, Advance(c)) && Ahead(s.proc[s.cpu[c].p].pc, w)
    requires w.TakeLock? || w.ClearLock? || w.SleepOnLock? || w.SleepOnSelf? || w.LeaveCpu?
    requires s.proc[s.cpu[c].p].pc == YieldSwitch ==> s.proc[s.cpu[c].p].state == RUNNABLE
    ensures AheadOrDone(s, Advanced(s, c), s.cpu[c].p, w)
  {
    hide FindZombie, Adopted, WokenParent, Woken, FirstUnused;
  }

  lemma WakeWork(s: State, c: nat, l: nat)
    requires Enabled(s, Advance(c)) && Ahead(s.proc[s.cpu[c].p].pc, WakeSleepers(l))
    ensures AheadOrDone(s, Advanced(s, c), s.cpu[c].p, WakeSleepers(l))
  {
    hide FindZombie, Adopted, WokenParent, FirstUnused;
  }

  lemma WaitWork(s: State, c: nat)
    requires Enabled(s, Advance(c)) && Ahead(s.proc[s.cpu[c].p].pc, ReapChild) && s.proc[s.cpu[c].p].state != ZOMBIE
    ensures AheadOrDone(s, Advanced(s, c), s.cpu[c].p, ReapChild)
  {
    hide Adopted, WokenParent, Woken, FirstUnused;
    var p := s.cpu[c].p;
    if s.proc[p].pc == WaitScan {
      hide FindZombie;
      WaitEffect(s, c);
      var q := FindZombie(s.proc, p, 0);
      if q < |s.proc| {
        assert Reaped(s.proc, Advanced(s, c).proc, p, q);
      }
    }
  }

  lemma ForkWork(s: State, c: nat)
    requires Inv(s) && InRange(s) && Enabled(s, Advance(c)) && Ahead(s.proc[s.cpu[c].p].pc, MakeChild)
    ensures AheadOrDone(s, Advanced(s, c), s.cpu[c].p, MakeChild)
  {
    hide Inv, InRange, Advanced;
    var p := s.cpu[c].p;
    var pc := s.proc[p].pc;
    PlaceOf(s, p);
    if pc.ForkReady? {
      SlotIsIdle(s, c, pc.k);
      Embryo(s, p);
      ReadyWork(s, c);
    } else {
      ForkMoves(s, c);
    }
  }

  lemma Embryo(s: State, p: nat)
    requires Inv(s) && p < |s.proc| && s.proc[p].pc.ForkReady?
    ensures s.proc[p].pc.k < |s.proc| && s.proc[s.proc[p].pc.k].state == EMBRYO
  {
    hide Core;
  }

  lemma ReadyWork(s: State, c: nat)
    requires Enabled(s, Advance(c)) && s.proc[s.cpu[c].p].pc.ForkReady?
    requires var k := s.proc[s.cpu[c].p].pc.k;
      k < |s.proc| && k != s.cpu[c].p && s.proc[k].state == EMBRYO && s.proc[k].parent == s.cpu[c].p
    ensures Done(s, Advanced(s, c), s.cpu[c].p, MakeChild)
  {
    assert Made(s.proc, Advanced(s, c).proc, s.cpu[c].p, s.proc[s.cpu[c].p].pc.k);
  }

  lemma ForkMoves(s: State, c: nat)
    requires Enabled(s, Advance(c)) && Ahead(s.proc[s.cpu[c].p].pc, MakeChild) && !s.proc[s.cpu[c].p].pc.ForkReady?
    ensures AheadOrDone(s, Advanced(s, c), s.cpu[c].p, MakeChild)
  {
    hide FindZombie, Adopted, WokenParent, Woken;
  }

  lemma ExitWork(s: State, c: nat)
    requires Enabled(s, Advance(c)) && Ahead(s.proc[s.cpu[c].p].pc, Die)
    requires s.init != s.cpu[c].p && s.proc[s.cpu[c].p].state == RUNNING && s.proc[s.cpu[c].p].parent != s.cpu[c].p
    ensures AheadOrDone(s, Advanced(s, c), s.cpu[c].p, Die)
  {
    var p := s.cpu[c].p;
    if s.proc[p].pc == ExitSet {
      hide Advanced;
      var t := Advanced(s, c);
      assert t == Next(s, Advance(c));
      ExitEffect(s, c, p);
      forall q: nat ensures !Kid(t.proc, p, q) {
        if q < |s.proc| {
          ExitEffect(s, c, q);
        }
      }
      forall q | 0 <= q < |s.proc| && q == s.proc[p].parent
        ensures !(t.proc[q].state == SLEEPING && t.proc[q].chan == OnSelf)
      {
        ExitEffect(s, c, q);
      }
    }
  }

  /** What the process on CPU `c` knows of itself. */
  lemma KnowsItself(s: State, c: nat)
    requires Inv(s) && Runs(s, c)
    ensures var p := s.cpu[c].p;
      && (s.proc[p].pc == YieldSwitch ==> s.proc[p].state == RUNNABLE)
      && (!IsSwitch(s.proc[p].pc) ==> s.proc[p].state == RUNNING) && (Exiting(s.proc[p].pc) ==> p != s.init)
      && s.proc[p].parent != p && (s.proc[p].pc == WaitSwitch ==> s.proc[p].state == SLEEPING)
  {
    hide TableLock, OneCpu, SpinLocks, NoLostWakeup, NoMissedExit, ForkSlots;
    assert CpuOk(s.cpu[c], s.proc);
  }

  lemma OwnWork(s: State, c: nat, w: Work)
    requires Inv(s) && InRange(s) && Enabled(s, Advance(c)) && Ahead(s.proc[s.cpu[c].p].pc, w)
    ensures AheadOrDone(s, Advanced(s, c), s.cpu[c].p, w)
  {
    hide Inv, InRange, Advanced, Done;
    KnowsItself(s, c);
    match w
    case WakeSleepers(l) => WakeWork(s, c, l);
    case ReapChild => WaitWork(s, c);
    case MakeChild => ForkWork(s, c);
    case Die => ExitWork(s, c);
    case _ => LockWork(s, c, w);
  }

  /** A process with work ahead keeps it ahead until a step does it. */
  lemma StepOrWork(s: State, step: Step, p: nat, w: Work)
    requires Inv(s) && InRange(s) && Enabled(s, step) && p < |s.proc| && Ahead(s.proc[p].pc, w)
    ensures AheadOrDone(s, Next(s, step), p, w)
  {
    hide Inv, Advanced, Done, InRange, Ahead;
    match step
    case Advance(c) => AdvanceWork(s, c, p, w);
    case GiveUp(c) => GiveUpKeepsWork(s, c, p, w);
    case _ => SameWork(s, step, p, w);
  }

  lemma AdvanceWork(s: State, c: nat, p: nat, w: Work)
    requires Inv(s) && InRange(s) && Enabled(s, Advance(c)) && p < |s.proc| && Ahead(s.proc[p].pc, w)
    ensures AheadOrDone(s, Advanced(s, c), p, w)
  {
    hide Inv, Advanced, Done, InRange;
    OwnPlaceSize(s, c);
    if s.cpu[c].p == p {
      OwnWork(s, c, w);
    } else {
      OtherPlaces(s, c, p);
      if Marking(s.proc[s.cpu[c].p].pc) && ForkSlot(s.proc[s.cpu[c].p].pc) == p {
        SlotIsIdle(s, c, p);
      }
    }
  }

  lemma GiveUpKeepsWork(s: State, c: nat, p: nat, w: Work)
    requires Inv(s) && Enabled(s, GiveUp(c)) && p < |s.proc| && Ahead(s.proc[p].pc, w)
    ensures AheadOrDone(s, Next(s, GiveUp(c)), p, w)
  {
    hide Inv, Done;
    SlotIsIdle(s, c, s.proc[s.cpu[c].p].pc.k);
    if s.cpu[c].p == p {
      GivesUp(s, p);
      GiveUpWork(s, c);
    }
  }

  lemma SameWork(s: State, step: Step, p: nat, w: Work)
    requires Enabled(s, step) && p < |s.proc| && Ahead(s.proc[p].pc, w) && !step.Advance? && !step.GiveUp?
    ensures AheadOrDone(s, Next(s, step), p, w)
  {
    hide Done;
    if step.Begin? {
      assert !Ahead(Free, w);
    }
  }

  lemma GivesUp(s: State, p: nat)
    requires Inv(s) && p < |s.proc| && s.proc[p].pc.ForkParent?
    ensures s.proc[p].pc.k < |s.proc| && s.proc[s.proc[p].pc.k].state == EMBRYO
  {
    hide Core;
  }

  lemma GiveUpWork(s: State, c: nat)
    requires Enabled(s, GiveUp(c))
    requires var k := s.proc[s.cpu[c].p].pc.k; k != s.cpu[c].p && s.proc[k].state == EMBRYO
    ensures Done(s, Next(s, GiveUp(c)), s.cpu[c].p, MakeChild)
  {
    var k := s.proc[s.cpu[c].p].pc.k;
    assert GivenBack(s.proc, Next(s, GiveUp(c)).proc, k);
  }

  // ------------------------------------------------------------ runs

  lemma BootInRange(s: State)
    requires Boot(s)
    ensures InRange(s)
  {
  }

  lemma {:induction false} RunKeepsRange(s: State, run: seq<Step>)
    requires Inv(s) && InRange(s) && Legal(s, run) && NoCollision(s, run)
    ensures InRange(Exec(s, run))
    decreases |run|
  {
    hide Inv, InRange, Next, Enabled, Collides;
    if run != [] {
      StepKeepsRange(s, run[0]);
      StepKeepsInv(s, run[0]);
      RunKeepsRange(Next(s, run[0]), run[1..]);
    }
  }

  lemma ReachableInRange(s: State, boot: State, run: seq<Step>)
    requires Reachable(s, boot, run)
    ensures Inv(s) && InRange(s)
  {
    hide Inv, InRange;
    BootInRange(boot);
    BootInv(boot);
    RunKeepsInv(boot, run);
    RunKeepsRange(boot, run);
  }

  /** Step `i` of the run does the work. */
  ghost predicate DoneAt(s: State, run: seq<Step>, i: nat, p: nat, w: Work) {
    && i < |run| && Legal(s, run[..i]) && Enabled(Exec(s, run[..i]), run[i])
    && Done(Exec(s, run[..i]), Next(Exec(s, run[..i]), run[i]), p, w)
  }

  lemma {:induction false} WorkIsDone(s: State, run: seq<Step>, p: nat, w: Work) returns (i: nat)
    requires Inv(s) && InRange(s) && Legal(s, run) && NoCollision(s, run) && p < |s.proc| && Ahead(s.proc[p].pc, w)
    requires p < |Exec(s, run).proc| && !Ahead(Exec(s, run).proc[p].pc, w)
    ensures DoneAt(s, run, i, p, w)
    decreases |run|
  {
    hide Inv, InRange, Next, Enabled, Collides, Done, Ahead;
    var t := Next(s, run[0]);
    StepOrWork(s, run[0], p, w);
    if Ahead(t.proc[p].pc, w) {
      StepKeepsRange(s, run[0]);
      StepKeepsInv(s, run[0]);
      var j := WorkIsDone(t, run[1..], p, w);
      i := j + 1;
      assert run[..i][1..] == run[1..][..j] && run[..i][0] == run[0];
    } else {
      i := 0;
      assert run[..0] == [];
    }
  }

  /** In every run without a collision, a call that has returned has done its work: yield
      gave up the CPU, acquire took the free lock, release cleared it and woke its
      sleepers, wait released a zombie child or found no child, fork made a child ready to
      run or found none or gave it back, and exit did not return before its process was
      dead. */
  lemma CallsDoTheirWork(s: State, boot: State, before: seq<Step>, c: nat, call: Call, run: seq<Step>, w: Work)
    returns (i: nat)
    requires Reachable(s, boot, before) && Enabled(s, Begin(c, call)) && Owes(call, w)
    requires var t := Next(s, Begin(c, call));
      Legal(t, run) && NoCollision(t, run) && s.cpu[c].p < |Exec(t, run).proc| && Exec(t, run).proc[s.cpu[c].p].pc == Free
    ensures DoneAt(Next(s, Begin(c, call)), run, i, s.cpu[c].p, w)
  {
    hide Inv, InRange, Done;
    ReachableInRange(s, boot, before);
    BeginOwes(s, c, call, w);
    StepKeepsInv(s, Begin(c, call));
    StepKeepsRange(s, Begin(c, call));
    i := WorkIsDone(Next(s, Begin(c, call)), run, s.cpu[c].p, w);
  }

  lemma BeginOwes(s: State, c: nat, call: Call, w: Work)
    requires Enabled(s, Begin(c, call)) && Owes(call, w)
    ensures var t := Next(s, Begin(c, call));
      s.cpu[c].p < |t.proc| && Ahead(t.proc[s.cpu[c].p].pc, w) && !Ahead(Free, w) && !Collides(s, Begin(c, call))
  {
  }

  // ------------------------------------------------- acquire and wakeup

  /** acquire_sleeplock looks at the lock: if it is taken, the process goes on to sleep on
      it, and otherwise it takes it; nothing else changes. */
  lemma AcquireDecides(s: State, c: nat, l: nat)
    requires Enabled(s, Advance(c)) && s.proc[s.cpu[c].p].pc == AcqTest(l)
    ensures var p := s.cpu[c].p;
      l < |s.sl| && Next(s, Advance(c))
        == if s.sl[l].locked then s.(proc := Moved(s.proc, p, SleepEnter(l)))
           else s.(proc := Moved(s.proc, p, AcqLeave(l)), sl := s.sl[l := s.sl[l].(locked := true)])
    ensures Ahead(SleepEnter(l), SleepOnLock(l)) && !Ahead(AcqLeave(l), TakeLock(l))
  {
  }
}
