/**
  Two forks that find the same record put one process on two CPUs: alloc_pcb
  releases the table lock while the record is still UNUSED.
 */
module ProcExamples {
  import opened ProcMachine

  /** Four CPUs, three records, no sleep locks; the first process is process 0. */
  function Machine(cpu: seq<Cpu>, lock: int, proc: seq<Proc>): State {
    State(cpu, lock, proc, [], 0)
  }

  const UNUSED_RECORD := Proc(UNUSED, Nothing, NONE, Dead)

  function Running(parent: int, pc: Pc): Proc {
    Proc(RUNNING, Nothing, parent, pc)
  }

  /** The child in the last record. */
  function Child(state: ProcState, parent: int): Proc {
    Proc(state, Nothing, parent, YieldLeave)
  }

  /** A run that goes from `s` to `t`. */
  predicate Leads(s: State, run: seq<Step>, t: State) {
    Legal(s, run) && Exec(s, run) == t
  }

  lemma {:induction false} Extend(s: State, run: seq<Step>, t: State, step: Step, u: State) returns (more: seq<Step>)
    requires Leads(s, run, t) && Enabled(t, step) && Next(t, step) == u
    ensures Leads(s, more, u)
    decreases |run|
  {
    hide Next, Enabled;
    if run == [] {
      more := [step];
      assert more[0] == step && more[1..] == [] && Legal(u, []) && Exec(u, []) == u;
    } else {
      var rest := Extend(Next(s, run[0]), run[1..], t, step, u);
      more := [run[0]] + rest;
      assert more[0] == run[0] && more[1..] == rest;
    }
  }

  /** CPU `c` starts the process of record `p`. */
  lemma Starts(boot: State, run: seq<Step>, s: State, c: nat, p: nat, t: State) returns (more: seq<Step>)
    requires Leads(boot, run, s) && c < |s.cpu| && s.cpu[c] == Idle && s.lock == NONE
    requires p < |s.proc| && s.proc[p].state == RUNNABLE
    requires t.cpu == s.cpu[c := Run(p)] && t.proc == s.proc[p := s.proc[p].(state := RUNNING)]
    requires t == s.(cpu := t.cpu, proc := t.proc, lock := c)
    ensures Leads(boot, more, t)
  {
    hide Leads;
    var s1 := s.(cpu := s.cpu[c := Scanning], lock := c);
    more := Extend(boot, run, s, SchedAcquire(c), s1);
    var s2 := s1.(cpu := s.cpu[c := Chosen(p)], proc := t.proc);
    assert s1.cpu[c := Chosen(p)] == s2.cpu;
    more := Extend(boot, more, s1, SchedPick(c, p), s2);
    assert s2.cpu[c := Run(p)] == t.cpu;
    more := Extend(boot, more, s2, SchedSwitch(c), t);
  }

  /** The process `p` on CPU `c` makes one step. */
  lemma Goes(boot: State, run: seq<Step>, s: State, c: nat, t: State) returns (more: seq<Step>)
    requires Leads(boot, run, s) && Enabled(s, Advance(c)) && Advanced(s, c) == t
    ensures Leads(boot, more, t)
  {
    hide Leads;
    more := Extend(boot, run, s, Advance(c), t);
  }

  /** The process `p` on CPU `c` calls fork. */
  lemma CallsFork(boot: State, run: seq<Step>, s: State, c: nat, p: nat, t: State) returns (more: seq<Step>)
    requires Leads(boot, run, s) && c < |s.cpu| && s.cpu[c] == Run(p) && s.lock == NONE && p < |s.proc|
    requires s.proc[p].pc == Free && t == At(s, p, ForkScan).(lock := c)
    ensures Leads(boot, more, t)
  {
    hide Leads;
    var s1 := At(s, p, ForkEnter);
    more := Extend(boot, run, s, Begin(c, Fork), s1);
    assert t.proc == s1.proc[p := s1.proc[p].(pc := ForkScan)];
    more := Goes(boot, more, s1, c, t);
  }

  /** It finds record `k`. */
  lemma FindsRecord(boot: State, run: seq<Step>, s: State, c: nat, p: nat, k: nat, t: State) returns (more: seq<Step>)
    requires Leads(boot, run, s) && c < |s.cpu| && s.cpu[c] == Run(p) && p < |s.proc|
    requires s.proc[p].pc == ForkScan && FirstUnused(s.proc, 0) == k < |s.proc|
    requires t == At(s, p, ForkMark(k)).(lock := NONE)
    ensures Leads(boot, more, t)
  {
    hide Leads, FirstUnused;
    var s1 := At(s, p, ForkLeave(k));
    more := Goes(boot, run, s, c, s1);
    assert t.proc == s1.proc[p := s1.proc[p].(pc := ForkMark(k))];
    more := Goes(boot, more, s1, c, t);
  }

  lemma Finds(boot: State, run: seq<Step>, s: State, c: nat, p: nat, k: nat, t: State) returns (more: seq<Step>)
    requires Leads(boot, run, s) && c < |s.cpu| && s.cpu[c] == Run(p) && s.lock == NONE && p < |s.proc|
    requires s.proc[p].pc == Free && s.proc[p].state == RUNNING && FirstUnused(s.proc, 0) == k < |s.proc|
    requires t.proc == s.proc[p := s.proc[p].(pc := ForkMark(k))] && t == s.(proc := t.proc)
    ensures Leads(boot, more, t)
  {
    hide Leads, FirstUnused;
    var s1 := At(s, p, ForkScan).(lock := c);
    more := CallsFork(boot, run, s, c, p, s1);
    SameUnused(s.proc, s1.proc, 0);
    assert t.proc == s1.proc[p := s1.proc[p].(pc := ForkMark(k))];
    more := FindsRecord(boot, more, s1, c, p, k, t);
  }

  lemma ThirdUnused(proc: seq<Proc>)
    requires |proc| == 3 && proc[0].state != UNUSED && proc[1].state != UNUSED && proc[2].state == UNUSED
    ensures FirstUnused(proc, 0) == 2
  {
    assert FirstUnused(proc, 1) == FirstUnused(proc, 2) == 2;
  }

  lemma {:induction false} SameUnused(a: seq<Proc>, b: seq<Proc>, i: nat)
    requires |a| == |b| && i <= |a| && forall j :: 0 <= j < |a| ==> a[j].state == b[j].state
    ensures FirstUnused(a, i) == FirstUnused(b, i)
    decreases |a| - i
  {
    if i < |a| && a[i].state != UNUSED {
      SameUnused(a, b, i + 1);
    }
  }

  /** Process 0 starts on CPU 0 and makes process 1, which starts on CPU 1. */
  lemma Prepare(boot: State, t: State) returns (run: seq<Step>)
    requires boot == Machine([Idle, Idle, Idle, Idle], NONE, [Child(RUNNABLE, NONE), UNUSED_RECORD, UNUSED_RECORD])
    requires t == Machine([Run(0), Run(1), Idle, Idle], NONE, [Running(NONE, Free), Running(0, Free), UNUSED_RECORD])
    ensures Leads(boot, run, t)
  {
    hide Leads;
    var s3 := Machine([Run(0), Idle, Idle, Idle], NONE, [Running(NONE, ForkMark(1)), UNUSED_RECORD, UNUSED_RECORD]);
    run := PrepareFork(boot, s3);
    var s4 := s3.(proc := [Running(NONE, ForkParent(1)), Child(EMBRYO, NONE), UNUSED_RECORD]);
    run := Goes(boot, run, s3, 0, s4);
    var s5 := s3.(proc := [Running(NONE, ForkReady(1)), Child(EMBRYO, 0), UNUSED_RECORD]);
    run := Goes(boot, run, s4, 0, s5);
    var s6 := s3.(proc := [Running(NONE, Free), Child(RUNNABLE, 0), UNUSED_RECORD]);
    run := Goes(boot, run, s5, 0, s6);
    var s7 := t.(proc := [Running(NONE, Free), Running(0, YieldLeave), UNUSED_RECORD], lock := 1);
    run := Starts(boot, run, s6, 1, 1, s7);
    run := Goes(boot, run, s7, 1, t);
  }

  lemma PrepareFork(boot: State, t: State) returns (run: seq<Step>)
    requires boot == Machine([Idle, Idle, Idle, Idle], NONE, [Child(RUNNABLE, NONE), UNUSED_RECORD, UNUSED_RECORD])
    requires t == Machine([Run(0), Idle, Idle, Idle], NONE, [Running(NONE, ForkMark(1)), UNUSED_RECORD, UNUSED_RECORD])
    ensures Leads(boot, run, t)
  {
    run := [];
    assert Leads(boot, run, boot);
    hide Leads;
    var s1 := t.(lock := 0, proc := [Running(NONE, YieldLeave), UNUSED_RECORD, UNUSED_RECORD]);
    run := Starts(boot, run, boot, 0, 0, s1);
    var s2 := t.(proc := [Running(NONE, Free), UNUSED_RECORD, UNUSED_RECORD]);
    run := Goes(boot, run, s1, 0, s2);
    run := Finds(boot, run, s2, 0, 0, 1, t);
  }

  /** Both processes fork: the second finds the record that the first found.  The
      child of the first starts on CPU 2. */
  lemma Collide(boot: State, before: seq<Step>, s: State, t: State) returns (run: seq<Step>)
    requires Leads(boot, before, s)
    requires s == Machine([Run(0), Run(1), Idle, Idle], NONE, [Running(NONE, Free), Running(0, Free), UNUSED_RECORD])
    requires t == s.(proc := [Running(NONE, ForkParent(2)), Running(0, ForkParent(2)), Child(EMBRYO, NONE)])
    ensures Leads(boot, run, t)
  {
    hide Leads;
    var s1 := s.(proc := [Running(NONE, ForkMark(2)), Running(0, Free), UNUSED_RECORD]);
    ThirdUnused(s.proc);
    run := Finds(boot, before, s, 0, 0, 2, s1);
    var s2 := s.(proc := [Running(NONE, ForkMark(2)), Running(0, ForkMark(2)), UNUSED_RECORD]);
    ThirdUnused(s1.proc);
    run := Finds(boot, run, s1, 1, 1, 2, s2);
    var s3 := s.(proc := [Running(NONE, ForkParent(2)), Running(0, ForkMark(2)), Child(EMBRYO, NONE)]);
    run := Goes(boot, run, s2, 0, s3);
    run := Goes(boot, run, s3, 1, t);
  }

  lemma FirstChild(boot: State, before: seq<Step>, s: State, t: State) returns (run: seq<Step>)
    requires Leads(boot, before, s)
    requires s == Machine([Run(0), Run(1), Idle, Idle], NONE,
                          [Running(NONE, ForkParent(2)), Running(0, ForkParent(2)), Child(EMBRYO, NONE)])
    requires t == Machine([Run(0), Run(1), Run(2), Idle], NONE,
                          [Running(NONE, Free), Running(0, ForkParent(2)), Running(0, Free)])
    ensures Leads(boot, run, t)
  {
    hide Leads;
    var s1 := s.(proc := [Running(NONE, ForkReady(2)), Running(0, ForkParent(2)), Child(EMBRYO, 0)]);
    run := Goes(boot, before, s, 0, s1);
    var s2 := s.(proc := [Running(NONE, Free), Running(0, ForkParent(2)), Child(RUNNABLE, 0)]);
    run := Goes(boot, run, s1, 0, s2);
    var s3 := t.(lock := 2, proc := [Running(NONE, Free), Running(0, ForkParent(2)), Child(RUNNING, 0)]);
    run := Starts(boot, run, s2, 2, 2, s3);
    run := Goes(boot, run, s3, 2, t);
  }

  /** The second fork stores RUNNABLE over RUNNING, and CPU 3 starts the same child. */
  lemma SecondChild(boot: State, before: seq<Step>, s: State) returns (run: seq<Step>, t: State)
    requires Leads(boot, before, s)
    requires s == Machine([Run(0), Run(1), Run(2), Idle], NONE,
                          [Running(NONE, Free), Running(0, ForkParent(2)), Running(0, Free)])
    ensures Leads(boot, run, t) && t.cpu == [Run(0), Run(1), Run(2), Run(2)]
  {
    hide Leads;
    var s1 := s.(proc := [Running(NONE, Free), Running(0, ForkReady(2)), Running(1, Free)]);
    run := Goes(boot, before, s, 1, s1);
    var s2 := s.(proc := [Running(NONE, Free), Running(0, Free), Proc(RUNNABLE, Nothing, 1, Free)]);
    run := Goes(boot, run, s1, 1, s2);
    t := s.(cpu := [Run(0), Run(1), Run(2), Run(2)], lock := 3,
            proc := [Running(NONE, Free), Running(0, Free), Running(1, Free)]);
    run := Starts(boot, run, s2, 3, 2, t);
  }

  /** A run from boot after which two CPUs execute the same process. */
  lemma TwoCpusOneProcess() returns (boot: State, run: seq<Step>, s: State)
    ensures Boot(boot) && Legal(boot, run) && s == Exec(boot, run)
    ensures s.cpu == [Run(0), Run(1), Run(2), Run(2)]
  {
    boot := Machine([Idle, Idle, Idle, Idle], NONE, [Child(RUNNABLE, NONE), UNUSED_RECORD, UNUSED_RECORD]);
    var s1 := Machine([Run(0), Run(1), Idle, Idle], NONE, [Running(NONE, Free), Running(0, Free), UNUSED_RECORD]);
    run := Prepare(boot, s1);
    var s2 := s1.(proc := [Running(NONE, ForkParent(2)), Running(0, ForkParent(2)), Child(EMBRYO, NONE)]);
    run := Collide(boot, run, s1, s2);
    var s3 := Machine([Run(0), Run(1), Run(2), Idle], NONE,
                      [Running(NONE, Free), Running(0, ForkParent(2)), Running(0, Free)]);
    run := FirstChild(boot, run, s2, s3);
    run, s := SecondChild(boot, run, s3);
  }
}
