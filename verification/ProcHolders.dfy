/**
  Mutual exclusion of sleep locks.  `held` has the pair (p, l) from the moment
  acquire_sleeplock of process `p` sets `locked` of lock `l` until
  release_sleeplock of `p` clears it.
 */
module ProcHolders {
  import opened ProcMachine
  import opened ProcSteps

  type Held = set<(nat, nat)>

  function NextHeld(s: State, step: Step, held: Held): Held
    requires Enabled(s, step)
  {
    if !step.Advance? then held
    else
      var p := s.cpu[step.c].p;
      match s.proc[p].pc
      case AcqTest(l) => if s.sl[l].locked then held else held + {(p, l)}
      case RelSet(l) => held - {(p, l)}
      case _ => held
  }

  /** Only a holder starts to release a lock. */
  predicate HolderReleases(s: State, step: Step, held: Held)
    requires Enabled(s, step)
  {
    step.Begin? && step.call.Release? ==> (s.cpu[step.c].p, step.call.l) in held
  }

  /** Every release in the run is by a holder. */
  predicate Disciplined(s: State, run: seq<Step>, held: Held)
    requires Legal(s, run)
    decreases |run|
  {
    run == [] || (HolderReleases(s, run[0], held) && Disciplined(Next(s, run[0]), run[1..], NextHeld(s, run[0], held)))
  }

  function HeldAfter(s: State, run: seq<Step>, held: Held): Held
    requires Legal(s, run)
    decreases |run|
  {
    if run == [] then held else HeldAfter(Next(s, run[0]), run[1..], NextHeld(s, run[0], held))
  }

  /** A process at `pc` holds lock `l`. */
  predicate MustHold(pc: Pc, l: nat) {
    pc == AcqLeave(l) || pc == RelEnter(l) || pc == RelSet(l)
  }

  ghost predicate IsHeld(held: Held, l: nat) {
    exists p: nat :: (p, l) in held
  }

  ghost predicate HeldInv(s: State, held: Held) {
    && (forall p, q, l :: (p, l) in held && (q, l) in held ==> p == q)
    && (forall p, l :: (p, l) in held ==> l < |s.sl| && s.sl[l].locked)
    && (forall l :: 0 <= l < |s.sl| && s.sl[l].locked ==> IsHeld(held, l))
    && (forall p, l :: 0 <= p < |s.proc| && 0 <= l < |s.sl| && MustHold(s.proc[p].pc, l) ==> (p, l) in held)
  }

  /** Processes other than `p` did not come to a place where they hold a lock. */
  ghost predicate OthersHold(proc: seq<Proc>, proc': seq<Proc>, p: nat) {
    && |proc'| == |proc|
    && forall q, l: nat :: 0 <= q < |proc| && q != p && MustHold(proc'[q].pc, l) ==> MustHold(proc[q].pc, l)
  }

  /** The flags of the sleep locks are as before. */
  ghost predicate SameFlags(sl: seq<SleepLock>, sl': seq<SleepLock>) {
    |sl'| == |sl| && forall l :: 0 <= l < |sl| ==> sl'[l].locked == sl[l].locked
  }

  lemma HeldKept(s: State, t: State, p: nat, held: Held)
    requires HeldInv(s, held) && p < |s.proc| && SameFlags(s.sl, t.sl) && OthersHold(s.proc, t.proc, p)
    requires forall l :: 0 <= l < |s.sl| && MustHold(t.proc[p].pc, l) ==> (p, l) in held
    ensures HeldInv(t, held)
  {
    hide MustHold;
  }

  lemma OthersAdvance(s: State, c: nat)
    requires Enabled(s, Advance(c))
    ensures OthersHold(s.proc, Advanced(s, c).proc, s.cpu[c].p)
  {
    var p := s.cpu[c].p;
    if Wide(s.proc[p].pc) {
      WideHold(s, c);
    } else {
      hide Advanced;
      OwnRecord(s, c);
    }
  }

  lemma WideHold(s: State, c: nat)
    requires Enabled(s, Advance(c)) && Wide(s.proc[s.cpu[c].p].pc)
    ensures OthersHold(s.proc, Advanced(s, c).proc, s.cpu[c].p)
  {
    hide FindZombie, Adopted, WokenParent, MustHold;
    var p := s.cpu[c].p;
    if s.proc[p].pc == ExitSet {
      WokenPcs(s.proc, s.proc[p].parent, p);
      AdoptedPcs(WokenParent(s.proc, s.proc[p].parent, p), p, s.init);
    } else if Marking(s.proc[p].pc) {
      StoredPcs(s, c);
    }
  }

  lemma WokenPcs(proc: seq<Proc>, x: int, p: nat)
    ensures forall q :: 0 <= q < |proc| ==> WokenParent(proc, x, p)[q].pc == proc[q].pc
  {
  }

  lemma AdoptedPcs(proc: seq<Proc>, p: nat, init: nat)
    ensures forall q :: 0 <= q < |proc| ==> Adopted(proc, p, init)[q].pc == proc[q].pc
  {
  }

  lemma StoredPcs(s: State, c: nat)
    requires Enabled(s, Advance(c)) && Marking(s.proc[s.cpu[c].p].pc)
    ensures OthersHold(s.proc, Advanced(s, c).proc, s.cpu[c].p)
  {
    assert forall l: nat :: !MustHold(YieldLeave, l);
    hide MustHold;
  }

  /** What the process itself does to the locks. */
  lemma OwnHold(s: State, c: nat)
    requires Enabled(s, Advance(c))
    ensures var p := s.cpu[c].p;
      var pc, s' := s.proc[p].pc, Advanced(s, c);
      && |s'.proc| == |s.proc|
      && (pc.AcqTest? && !s.sl[pc.l].locked ==> s'.proc[p].pc == AcqLeave(pc.l))
      && (pc.RelSet? ==> s'.proc[p].pc == RelLeave(pc.l))
      && (pc.RelEnter? ==> s'.proc[p].pc == RelSet(pc.l))
      && (!pc.RelEnter? && !(pc.AcqTest? && !s.sl[pc.l].locked) ==> forall l: nat :: !MustHold(s'.proc[p].pc, l))
  {
    hide FindZombie, Adopted, WokenParent, Woken, FirstUnused;
  }

  lemma OwnFlags(s: State, c: nat)
    requires Enabled(s, Advance(c))
    ensures var p := s.cpu[c].p;
      var pc, sl' := s.proc[p].pc, Advanced(s, c).sl;
      if pc.AcqTest? && !s.sl[pc.l].locked then sl' == s.sl[pc.l := s.sl[pc.l].(locked := true)]
      else if pc.RelSet? then sl' == s.sl[pc.l := s.sl[pc.l].(locked := false)]
      else SameFlags(s.sl, sl')
  {
    hide FindZombie, Adopted, WokenParent, Woken, FirstUnused;
  }

  lemma AdvanceHeld(s: State, c: nat, held: Held)
    requires HeldInv(s, held) && Enabled(s, Advance(c))
    ensures HeldInv(Advanced(s, c), NextHeld(s, Advance(c), held))
  {
    var p := s.cpu[c].p;
    var pc, s' := s.proc[p].pc, Advanced(s, c);
    OthersAdvance(s, c);
    OwnHold(s, c);
    OwnFlags(s, c);
    hide Advanced;
    if pc.AcqTest? && !s.sl[pc.l].locked {
      Taken(s, s', p, pc.l, held);
    } else if pc.RelSet? {
      GivenBack(s, s', p, pc.l, held);
    } else {
      assert pc.RelEnter? ==> MustHold(pc, pc.l);
      HeldKept(s, s', p, held);
    }
  }

  lemma Taken(s: State, t: State, p: nat, l: nat, held: Held)
    requires HeldInv(s, held) && p < |s.proc| && l < |s.sl| && !s.sl[l].locked && OthersHold(s.proc, t.proc, p)
    requires t.sl == s.sl[l := s.sl[l].(locked := true)] && t.proc[p].pc == AcqLeave(l)
    ensures HeldInv(t, held + {(p, l)})
  {
    forall k | 0 <= k < |t.sl| && t.sl[k].locked ensures IsHeld(held + {(p, l)}, k) {
      if k == l {
        assert (p, k) in held + {(p, l)};
      } else {
        assert s.sl[k].locked && IsHeld(held, k);
        var q: nat :| (q, k) in held;
        assert (q, k) in held + {(p, l)};
      }
    }
  }

  lemma GivenBack(s: State, t: State, p: nat, l: nat, held: Held)
    requires HeldInv(s, held) && p < |s.proc| && l < |s.sl| && s.proc[p].pc == RelSet(l) && OthersHold(s.proc, t.proc, p)
    requires t.sl == s.sl[l := s.sl[l].(locked := false)] && t.proc[p].pc == RelLeave(l)
    ensures HeldInv(t, held - {(p, l)})
  {
    assert MustHold(s.proc[p].pc, l);
    forall k | 0 <= k < |t.sl| && t.sl[k].locked ensures IsHeld(held - {(p, l)}, k) {
      assert s.sl[k].locked && IsHeld(held, k);
      var q: nat :| (q, k) in held;
      assert (q, k) in held - {(p, l)};
    }
  }

  /** A step keeps this if and only if it does not start a release by a process that
      does not hold the lock. */
  lemma StepKeepsHeld(s: State, step: Step, held: Held)
    requires HeldInv(s, held) && Enabled(s, step)
    ensures HeldInv(Next(s, step), NextHeld(s, step, held)) <==> HolderReleases(s, step, held)
  {
    match step
    case Advance(c) => AdvanceHeld(s, c, held);
    case Begin(c, call) => BeginHeld(s, c, call, held);
    case GiveUp(c) => GiveUpHeld(s, c, held);
    case _ => SchedHeld(s, step, held);
  }

  lemma BeginHeld(s: State, c: nat, call: Call, held: Held)
    requires HeldInv(s, held) && Enabled(s, Begin(c, call))
    ensures HeldInv(Next(s, Begin(c, call)), held) <==> HolderReleases(s, Begin(c, call), held)
  {
    var p := s.cpu[c].p;
    var s' := Next(s, Begin(c, call));
    assert s'.proc[p].pc == Entry(call);
    if call.Release? {
      assert MustHold(s'.proc[p].pc, call.l);
    }
    if HolderReleases(s, Begin(c, call), held) {
      HeldKept(s, s', p, held);
    }
  }

  lemma GiveUpHeld(s: State, c: nat, held: Held)
    requires HeldInv(s, held) && Enabled(s, GiveUp(c))
    ensures HeldInv(Next(s, GiveUp(c)), held)
  {
    HeldKept(s, Next(s, GiveUp(c)), s.cpu[c].p, held);
  }

  lemma SchedHeld(s: State, step: Step, held: Held)
    requires HeldInv(s, held) && Enabled(s, step)
    requires step.SchedAcquire? || step.SchedPick? || step.SchedSwitch? || step.SchedRelease?
    ensures HeldInv(Next(s, step), held)
  {
    assert forall p :: 0 <= p < |s.proc| ==> Next(s, step).proc[p].pc == s.proc[p].pc;
  }

  lemma {:induction false} RunKeepsHeld(s: State, run: seq<Step>, held: Held)
    requires HeldInv(s, held) && Legal(s, run) && Disciplined(s, run, held)
    ensures HeldInv(Exec(s, run), HeldAfter(s, run, held))
    decreases |run|
  {
    hide HeldInv, Next, Enabled, NextHeld, HolderReleases;
    if run != [] {
      StepKeepsHeld(s, run[0], held);
      RunKeepsHeld(Next(s, run[0]), run[1..], NextHeld(s, run[0], held));
    }
  }

  /** In every run from boot in which only holders release, a sleep lock has at most
      one holder, it is locked exactly while it has one, and a process that leaves
      acquire_sleeplock is the holder. */
  lemma SleepLockExcludes(boot: State, run: seq<Step>, p: nat, q: nat, l: nat)
    requires Boot(boot) && Legal(boot, run) && Disciplined(boot, run, {})
    ensures var s, held := Exec(boot, run), HeldAfter(boot, run, {});
      && ((p, l) in held && (q, l) in held ==> p == q)
      && ((p, l) in held ==> l < |s.sl|)
      && (l < |s.sl| ==> (s.sl[l].locked <==> exists h: nat :: (h, l) in held))
      && (p < |s.proc| && l < |s.sl| && s.proc[p].pc == AcqLeave(l) ==> (p, l) in held)
  {
    BootHeld(boot);
    RunKeepsHeld(boot, run, {});
    var s := Exec(boot, run);
    if p < |s.proc| && s.proc[p].pc == AcqLeave(l) {
      assert MustHold(s.proc[p].pc, l);
    }
  }

  lemma BootHeld(boot: State)
    requires Boot(boot)
    ensures HeldInv(boot, {})
  {
  }
}
