/**
  What holds in every run of the process machine from boot in which no two forks
  find the same record, for any number of CPUs, processes and sleep locks.
 */
module ProcTheorems {
  import opened ProcMachine
  import opened ProcInvariant
  import opened ProcSteps

  ghost predicate Reachable(s: State, boot: State, run: seq<Step>) {
    Boot(boot) && Legal(boot, run) && NoCollision(boot, run) && s == Exec(boot, run)
  }

  lemma ReachableInv(s: State, boot: State, run: seq<Step>)
    requires Reachable(s, boot, run)
    ensures Inv(s)
  {
    BootInv(boot);
    RunKeepsInv(boot, run);
  }

  /** No process executes on two CPUs at once. */
  lemma NoTwoCpus(s: State, boot: State, run: seq<Step>, c: nat, d: nat)
    requires Reachable(s, boot, run) && c < |s.cpu| && d < |s.cpu|
    requires s.cpu[c].Run? && s.cpu[d].Run? && s.cpu[c].p == s.cpu[d].p
    ensures c == d
  {
    ReachableInv(s, boot, run);
    assert Owner(s.cpu[c]) == Owner(s.cpu[d]) != NONE;
  }

  /** From the change of its state until the scheduler releases it, the CPU of a
      process holds the table lock: a process that is executed and not RUNNING is
      about to switch, and sched finds the lock held and the process not RUNNING. */
  lemma LockHeldAcrossSwitch(s: State, boot: State, run: seq<Step>, c: nat)
    requires Reachable(s, boot, run) && c < |s.cpu|
    ensures s.cpu[c] == Scanning || s.cpu[c].Chosen? ==> s.lock == c
    ensures s.cpu[c].Run? ==>
      && Runs(s, c)
      && var pr := s.proc[s.cpu[c].p];
      && (pr.state != RUNNING <==> IsSwitch(pr.pc))
      && (IsSwitch(pr.pc) ==> s.lock == c)
  {
    ReachableInv(s, boot, run);
    assert CpuOk(s.cpu[c], s.proc) && (s.lock == c <==> CpuHolds(s.cpu[c], s.proc));
  }

  /** At most one CPU is between taking and releasing the table lock. */
  lemma TableLockExcludes(s: State, boot: State, run: seq<Step>, c: nat, d: nat)
    requires Reachable(s, boot, run) && c < |s.cpu| && d < |s.cpu|
    requires CpuHolds(s.cpu[c], s.proc) && CpuHolds(s.cpu[d], s.proc)
    ensures c == d
  {
    ReachableInv(s, boot, run);
  }

  /** When no spin lock and not the table lock is held, nobody sleeps on a free
      sleep lock unless its releaser is about to call wakeup. */
  lemma NobodySleepsOnFreeLock(s: State, boot: State, run: seq<Step>, p: nat, l: nat)
    requires Reachable(s, boot, run) && p < |s.proc| && l < |s.sl|
    requires s.lock == NONE && forall k :: 0 <= k < |s.sl| ==> s.sl[k].spin == NONE
    requires s.proc[p].state == SLEEPING && s.proc[p].chan == OnLock(l)
    ensures s.sl[l].locked || exists q :: 0 <= q < |s.proc| && s.proc[q].pc == WakeEnter(l)
  {
    hide Reachable;
    ReachableInv(s, boot, run);
    SleeperAtRest(s, p);
    if !s.sl[l].locked {
      WakerExists(s, p, l);
    }
  }

  lemma WakerExists(s: State, p: nat, l: nat)
    requires Core(s) && p < |s.proc| && l < |s.sl| && !s.sl[l].locked && Waiting(s.proc[p], l)
    requires s.lock == NONE && s.sl[l].spin == NONE
    ensures exists q :: 0 <= q < |s.proc| && s.proc[q].pc == WakeEnter(l)
  {
    hide TableLock, OneCpu, Places, NoMissedExit, Family;
    var q :| 0 <= q < |s.proc| && WillWake(s.proc[q].pc, l);
    assert !HoldsSpin(s.proc[q].pc, l);
    NotScanning(s, q);
  }

  lemma SleeperAtRest(s: State, p: nat)
    requires Core(s) && p < |s.proc| && s.proc[p].state == SLEEPING && s.lock == NONE
    ensures OnNoCpu(s.cpu, p) && RestOk(s.proc[p])
  {
    forall c | 0 <= c < |s.cpu| ensures Owner(s.cpu[c]) != p {
      assert CpuOk(s.cpu[c], s.proc) && !CpuHolds(s.cpu[c], s.proc);
    }
  }

  lemma NotScanning(s: State, q: nat)
    requires Core(s) && q < |s.proc| && s.lock == NONE
    ensures !s.proc[q].pc.WakeScan?
  {
    hide SpinLocks, NoLostWakeup, NoMissedExit, Family;
    if OnNoCpu(s.cpu, q) {
      assert RestOk(s.proc[q]);
    } else {
      var c :| 0 <= c < |s.cpu| && Owner(s.cpu[c]) == q;
      assert CpuOk(s.cpu[c], s.proc) && !CpuHolds(s.cpu[c], s.proc);
    }
  }

  /** A process that sleeps in wait has no zombie child. */
  lemma NoParentSleepsOnZombie(s: State, boot: State, run: seq<Step>, p: nat, q: nat)
    requires Reachable(s, boot, run) && p < |s.proc| && q < |s.proc|
    requires s.proc[p].state == SLEEPING && s.proc[p].chan == OnSelf
    ensures !ZombieChild(s.proc, p, q)
  {
    ReachableInv(s, boot, run);
    if OnNoCpu(s.cpu, p) {
      assert RestOk(s.proc[p]);
    } else {
      var c :| 0 <= c < |s.cpu| && Owner(s.cpu[c]) == p;
      assert CpuOk(s.cpu[c], s.proc);
    }
    assert WaitsForChild(s.proc[p]);
  }

  lemma RunningHere(s: State, c: nat)
    requires Inv(s) && Enabled(s, Advance(c)) && !IsSwitch(s.proc[s.cpu[c].p].pc)
    ensures Runs(s, c) && s.proc[s.cpu[c].p].state == RUNNING
  {
    hide TableLock, OneCpu, SpinLocks, NoLostWakeup, NoMissedExit, Family, ForkSlots;
    Running(s, c);
  }

  predicate Kid(proc: seq<Proc>, p: nat, q: nat) {
    q < |proc| && proc[q].parent == p
  }

  predicate DeadKid(proc: seq<Proc>, p: nat, q: nat) {
    q < |proc| && proc[q].parent == p && proc[q].state == ZOMBIE
  }

  function Moved(proc: seq<Proc>, p: nat, pc: Pc): seq<Proc>
    requires p < |proc|
  {
    proc[p := proc[p].(pc := pc)]
  }

  /** What wait does when it looks at the table.  It goes on to sleep exactly when it has
      a child and none is a zombie.  It returns with the first zombie child, whose record
      is then free, if there is one, and with nothing exactly when it has no child. */
  lemma WaitDecides(s: State, boot: State, run: seq<Step>, c: nat)
    requires Reachable(s, boot, run) && Enabled(s, Advance(c)) && s.proc[s.cpu[c].p].pc == WaitScan
    ensures var p := s.cpu[c].p;
      var t := Next(s, Advance(c));
      && t == s.(proc := t.proc)
      && (t.proc == Moved(s.proc, p, WaitSet) <==>
            (exists q: nat :: Kid(s.proc, p, q)) && (forall q: nat :: !DeadKid(s.proc, p, q)))
      && (forall q: nat :: DeadKid(s.proc, p, q) && (forall j: nat :: j < q ==> !DeadKid(s.proc, p, j)) ==>
            t.proc == Moved(s.proc[q := s.proc[q].(state := UNUSED, parent := NONE)], p, WaitLeave))
      && (t.proc == Moved(s.proc, p, WaitLeave) <==> forall q: nat :: !Kid(s.proc, p, q))
  {
    hide Reachable, Inv, Next, FindZombie, Enabled;
    ReachableInv(s, boot, run);
    RunningHere(s, c);
    WaitEffect(s, c);
    WaitCases(s.proc, s.cpu[c].p, FindZombie(s.proc, s.cpu[c].p, 0), Next(s, Advance(c)).proc);
  }

  lemma WaitEffect(s: State, c: nat)
    requires Enabled(s, Advance(c)) && s.proc[s.cpu[c].p].pc == WaitScan
    ensures var p := s.cpu[c].p;
      var t, q := Next(s, Advance(c)), FindZombie(s.proc, p, 0);
      && p < |s.proc| && t == s.(proc := t.proc)
      && (q < |s.proc| ==> t.proc == Moved(s.proc[q := s.proc[q].(state := UNUSED, parent := NONE)], p, WaitLeave))
      && (q == |s.proc| ==> t.proc == Moved(s.proc, p, if HasChild(s.proc, p) then WaitSet else WaitLeave))
      && (q < |s.proc| ==> DeadKid(s.proc, p, q))
      && (forall j: nat :: j < q ==> !DeadKid(s.proc, p, j))
      && (HasChild(s.proc, p) <==> exists j: nat :: Kid(s.proc, p, j))
  {
    var p := s.cpu[c].p;
    var q := FindZombie(s.proc, p, 0);
    forall j: nat | j < q ensures !DeadKid(s.proc, p, j) {
      assert !ZombieChild(s.proc, p, j);
    }
    if HasChild(s.proc, p) {
      var j :| 0 <= j < |s.proc| && s.proc[j].parent == p;
      assert Kid(s.proc, p, j);
    }
  }

  lemma WaitCases(proc: seq<Proc>, p: nat, q: nat, t: seq<Proc>)
    requires p < |proc| && q <= |proc| && proc[p].state == RUNNING && proc[p].pc == WaitScan
    requires q < |proc| ==> t == Moved(proc[q := proc[q].(state := UNUSED, parent := NONE)], p, WaitLeave)
    requires q == |proc| ==> t == Moved(proc, p, if exists j: nat :: Kid(proc, p, j) then WaitSet else WaitLeave)
    requires (q < |proc| ==> DeadKid(proc, p, q)) && (forall j: nat :: j < q ==> !DeadKid(proc, p, j))
    ensures t == Moved(proc, p, WaitSet) <==>
      (exists j: nat :: Kid(proc, p, j)) && (forall j: nat :: !DeadKid(proc, p, j))
    ensures forall k: nat :: DeadKid(proc, p, k) && (forall j: nat :: j < k ==> !DeadKid(proc, p, j)) ==> k == q < |proc|
    ensures t == Moved(proc, p, WaitLeave) <==> forall j: nat :: !Kid(proc, p, j)
  {
    if q < |proc| {
      assert Kid(proc, p, q) && q != p && t[q].state == UNUSED && t[p].pc == WaitLeave;
    } else {
      assert t[p].pc == if exists j: nat :: Kid(proc, p, j) then WaitSet else WaitLeave;
    }
  }

  /** After exit no record has the process as its parent: its children have the first
      process as theirs.  Apart from that the parent wakes if it waits, and the first
      process if it waits and gets a zombie; nobody else changes. */
  lemma ExitGivesAway(s: State, boot: State, run: seq<Step>, c: nat, q: nat)
    requires Reachable(s, boot, run) && Enabled(s, Advance(c)) && s.proc[s.cpu[c].p].pc == ExitSet && q < |s.proc|
    ensures var p := s.cpu[c].p;
      var t := Next(s, Advance(c));
      && t == s.(proc := t.proc) && |t.proc| == |s.proc|
      && t.proc[p].state == ZOMBIE && t.proc[q].parent != p
      && t.proc[q].parent == (if s.proc[q].parent == p then s.init else s.proc[q].parent)
      && (q != p ==>
            var woken := s.proc[q].state == SLEEPING && s.proc[q].chan == OnSelf
              && (q == s.proc[p].parent || (q == s.init && exists k: nat :: DeadKid(s.proc, p, k)));
            t.proc[q] == s.proc[q].(parent := t.proc[q].parent, state := if woken then RUNNABLE else s.proc[q].state))
  {
    hide Reachable, Inv, Next, Enabled;
    ReachableInv(s, boot, run);
    RunningHere(s, c);
    InitIsNot(s, s.cpu[c].p);
    ExitEffect(s, c, q);
  }

  lemma InitIsNot(s: State, p: nat)
    requires Inv(s) && p < |s.proc| && s.proc[p].pc == ExitSet
    ensures s.init != p
  {
    hide TableLock, OneCpu, Places, SpinLocks, NoLostWakeup, NoMissedExit;
  }

  lemma ExitEffect(s: State, c: nat, q: nat)
    requires Enabled(s, Advance(c)) && s.proc[s.cpu[c].p].pc == ExitSet && q < |s.proc| && s.init != s.cpu[c].p
    requires s.proc[s.cpu[c].p].state == RUNNING
    ensures var p := s.cpu[c].p;
      var t := Next(s, Advance(c));
      && p < |s.proc| && t == s.(proc := t.proc) && |t.proc| == |s.proc|
      && t.proc[p].state == ZOMBIE && t.proc[q].parent != p
      && t.proc[q].parent == (if s.proc[q].parent == p then s.init else s.proc[q].parent)
      && (q != p ==>
            var woken := s.proc[q].state == SLEEPING && s.proc[q].chan == OnSelf
              && (q == s.proc[p].parent || (q == s.init && exists k: nat :: DeadKid(s.proc, p, k)));
            t.proc[q] == s.proc[q].(parent := t.proc[q].parent, state := if woken then RUNNABLE else s.proc[q].state))
  {
    var p := s.cpu[c].p;
    var woken := WokenParent(s.proc, s.proc[p].parent, p);
    hide WokenParent, Adopted;
    WokenParentAt(s.proc, s.proc[p].parent, p, q);
    WokenParentAt(s.proc, s.proc[p].parent, p, p);
    AdoptedAt(woken, p, s.init, q);
    AdoptedAt(woken, p, s.init, p);
    SameDeadKids(s.proc, s.proc[p].parent, p);
  }

  lemma WokenParentAt(proc: seq<Proc>, x: int, caller: nat, q: nat)
    requires q < |proc|
    ensures var woken := q == x && q != caller && proc[q].state == SLEEPING && proc[q].chan == OnSelf;
      WokenParent(proc, x, caller)[q] == if woken then proc[q].(state := RUNNABLE) else proc[q]
  {
  }

  lemma AdoptedAt(proc: seq<Proc>, p: nat, init: nat, q: nat)
    requires q < |proc|
    ensures var mine := if proc[q].parent == p then proc[q].(parent := init) else proc[q];
      var woken := q == init && q != p && proc[q].state == SLEEPING && proc[q].chan == OnSelf
        && exists k: nat :: DeadKid(proc, p, k);
      Adopted(proc, p, init)[q] == if woken then mine.(state := RUNNABLE) else mine
  {
    if exists k: nat :: DeadKid(proc, p, k) {
      var k: nat :| DeadKid(proc, p, k);
    }
    if exists k :: 0 <= k < |proc| && proc[k].parent == p && proc[k].state == ZOMBIE {
      var k :| 0 <= k < |proc| && proc[k].parent == p && proc[k].state == ZOMBIE;
      assert DeadKid(proc, p, k);
    }
  }

  lemma SameDeadKids(proc: seq<Proc>, x: int, p: nat)
    ensures forall k: nat :: DeadKid(WokenParent(proc, x, p), p, k) <==> DeadKid(proc, p, k)
  {
    forall k: nat ensures DeadKid(WokenParent(proc, x, p), p, k) <==> DeadKid(proc, p, k) {
      if k < |proc| {
        WokenParentAt(proc, x, p, k);
      }
    }
  }

  /** When wait releases the record and the stack of a child, no CPU executes it. */
  lemma ReapedChildIsStopped(s: State, boot: State, run: seq<Step>, c: nat, q: nat)
    requires Reachable(s, boot, run) && Enabled(s, Advance(c)) && q < |s.proc|
    requires s.proc[q].state != UNUSED && Next(s, Advance(c)).proc[q].state == UNUSED
    ensures s.proc[q].state == ZOMBIE && s.proc[q].parent == s.cpu[c].p && OnNoCpu(s.cpu, q)
  {
    hide Inv, Reachable, Next, OnNoCpu;
    ReachableInv(s, boot, run);
    Running(s, c);
    OnlyWaitReaps(s, c, q);
    ReapKeeps(s, c, s.cpu[c].p, q);
  }

  lemma OnlyWaitReaps(s: State, c: nat, q: nat)
    requires Enabled(s, Advance(c)) && q < |s.proc|
    requires s.proc[q].state != UNUSED && Next(s, Advance(c)).proc[q].state == UNUSED
    ensures s.proc[s.cpu[c].p].pc == WaitScan && ZombieChild(s.proc, s.cpu[c].p, q)
  {
    hide FindZombie;
    var pc := s.proc[s.cpu[c].p].pc;
    if pc == ExitSet {
      ExitReapsNone(s, c, q);
    }
  }

  lemma ExitReapsNone(s: State, c: nat, q: nat)
    requires Enabled(s, Advance(c)) && q < |s.proc| && s.proc[s.cpu[c].p].pc == ExitSet
    ensures Next(s, Advance(c)).proc[q].state == UNUSED ==> s.proc[q].state == UNUSED
  {
  }

  /** wakeup leaves nobody asleep on the lock, and touches nobody else. */
  lemma WakeupWakesAll(s: State, boot: State, run: seq<Step>, c: nat, p: nat, l: nat)
    requires Reachable(s, boot, run) && Enabled(s, Advance(c)) && s.proc[s.cpu[c].p].pc == WakeScan(l)
    requires p < |s.proc|
    ensures var s' := Next(s, Advance(c));
      && !(s'.proc[p].state == SLEEPING && s'.proc[p].chan == OnLock(l))
      && (p != s.cpu[c].p ==>
            s'.proc[p] == if s.proc[p].state == SLEEPING && s.proc[p].chan == OnLock(l) then s.proc[p].(state := RUNNABLE)
                          else s.proc[p])
  {
    ReachableInv(s, boot, run);
    Running(s, c);
  }

  /** Two processes never hold the spin lock of the same sleep lock. */
  lemma SpinExcludes(s: State, boot: State, run: seq<Step>, p: nat, q: nat, l: nat)
    requires Reachable(s, boot, run) && p < |s.proc| && q < |s.proc| && l < |s.sl|
    requires HoldsSpin(s.proc[p].pc, l) && HoldsSpin(s.proc[q].pc, l)
    ensures p == q
  {
    ReachableInv(s, boot, run);
    assert s.sl[l].spin == p && s.sl[l].spin == q;
  }
}
