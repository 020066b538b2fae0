/**
  What the ten blocks of budget of an operation are worth: an operation may sync
  as often as it likes, as long as it syncs at most ten different blocks.
 */
module LogBudget {
  import opened LogMachine
  import opened LogHistory
  import opened LogInvariant
  import opened LogRuns
  import opened LogTheorems

  /** The blocks that operation `op` has synced. */
  function SyncedBy(issued: seq<Write>, op: nat): set<nat> {
    set i | 0 <= i < |issued| && issued[i].op == op :: issued[i].block
  }

  /** An open operation has spent at most one unit for each block it synced. */
  ghost predicate Spent(issued: seq<Write>, ops: seq<OpStatus>) {
    forall op :: 0 <= op < |ops| && ops[op].Open? ==>
      ops[op].rm + |SyncedBy(issued, op)| >= OP_MAX_NUM_BLOCKS
  }

  lemma SyncedMore(issued: seq<Write>, w: Write, op: nat)
    ensures SyncedBy(issued + [w], op)
         == if w.op == op then SyncedBy(issued, op) + {w.block} else SyncedBy(issued, op)
  {
    var more := issued + [w];
    forall b ensures b in SyncedBy(more, op) <==> b in SyncedBy(issued, op) || (w.op == op && b == w.block) {
      if b in SyncedBy(issued, op) {
        var i :| 0 <= i < |issued| && issued[i].op == op && issued[i].block == b;
        assert more[i] == issued[i];
      }
      if w.op == op && b == w.block {
        assert more[|issued|] == w;
      }
    }
  }

  /** A block that an open operation synced is in the log. */
  lemma SyncedIsLogged(g: Geometry, s: State, op: nat, b: nat)
    requires Recorded(g, s) && IsOpen(s.ops, op) && b in SyncedBy(s.issued, op)
    ensures b in Logged(s.header)
  {
    var i :| 0 <= i < |s.issued| && s.issued[i].op == op && s.issued[i].block == b;
    assert i >= s.mark;
  }

  /** Only a block that the operation has not synced before costs budget. */
  lemma SpentSync(g: Geometry, s: State, op: nat, b: nat)
    requires 1 <= g.numLog && Recorded(g, s) && Spent(s.issued, s.ops) && Enabled(g, s, Sync(op, b))
    ensures var t := Next(g, s, Sync(op, b)); Spent(t.issued, t.ops)
  {
    hide Recorded, SyncedBy;
    var t := Next(g, s, Sync(op, b));
    var w := Write(op, b, s.cache[b].data);
    forall o | 0 <= o < |t.ops| && t.ops[o].Open?
      ensures t.ops[o].rm + |SyncedBy(t.issued, o)| >= OP_MAX_NUM_BLOCKS
    {
      SyncedMore(s.issued, w, o);
      if o == op {
        var before := SyncedBy(s.issued, o);
        if b in before {
          SyncedIsLogged(g, s, o, b);
          assert before + {b} == before;
        } else {
          assert |before + {b}| == |before| + 1;
        }
      }
    }
  }

  lemma SpentOther(g: Geometry, s: State, step: Step)
    requires 1 <= g.numLog && Spent(s.issued, s.ops) && Enabled(g, s, step) && !step.Sync?
    ensures var t := Next(g, s, step); Spent(t.issued, t.ops)
  {
    hide SyncedBy;
    var t := Next(g, s, step);
    assert t.issued == s.issued;
    forall o | 0 <= o < |t.ops| && t.ops[o].Open?
      ensures t.ops[o].rm + |SyncedBy(t.issued, o)| >= OP_MAX_NUM_BLOCKS
    {
      if step.BeginOp? && o == |s.ops| {
        assert t.ops[o].rm == OP_MAX_NUM_BLOCKS;
      } else {
        assert s.ops[o] == t.ops[o];
      }
    }
  }

  lemma {:induction false} SpentRun(g: Geometry, init: Image, s: State, steps: seq<Step>)
    requires 1 <= g.numLog && Inv(g, init, s) && Spent(s.issued, s.ops) && Legal(g, s, steps)
    ensures var t := Exec(g, s, steps); Spent(t.issued, t.ops)
    decreases |steps|
  {
    hide Core, Recorded, Spent, Next, Enabled;
    if steps != [] {
      KeepsInvariant(g, init, s, steps[0]);
      if steps[0].Sync? {
        SpentSync(g, s, steps[0].op, steps[0].b);
      } else {
        SpentOther(g, s, steps[0]);
      }
      SpentRun(g, init, Next(g, s, steps[0]), steps[1..]);
    }
  }

  /** In every run: an operation that has synced at most nine different blocks,
      this one included, never panics in sync, and one that has synced at most ten
      panics only when it has synced the block before and the log is full. */
  lemma TenBlocksSuffice(g: Geometry, d: Disk, steps: seq<Step>, s: State, op: nat, b: nat)
    requires Reaches(g, d, steps, s) && IsOpen(s.ops, op)
    requires |SyncedBy(s.issued, op) + {b}| <= OP_MAX_NUM_BLOCKS
    ensures s.ops[op].rm + |SyncedBy(s.issued, op)| >= OP_MAX_NUM_BLOCKS
    ensures |SyncedBy(s.issued, op) + {b}| < OP_MAX_NUM_BLOCKS ==> !SyncPanics(g, s, op, b)
    ensures SyncPanics(g, s, op, b) <==>
      s.ops[op].rm == 0 && b in SyncedBy(s.issued, op) && !HasPlace(g, NumLogged(s.header))
  {
    hide Inv, SyncedBy, Legal, Exec, Recovered, SyncPanics;
    var init := Recovered(g, d);
    PowerOnInvariant(g, d);
    SpentRun(g, init, PowerOn(d), steps);
    ReachedInvariant(g, d, steps, s);
    SyncPanicsIff(g, d, steps, s, op, b);
    var before := SyncedBy(s.issued, op);
    if b in before {
      InvRecorded(g, init, s);
      SyncedIsLogged(g, s, op, b);
      assert before + {b} == before;
    } else {
      assert |before + {b}| == |before| + 1;
    }
  }

  lemma InvRecorded(g: Geometry, init: Image, s: State)
    requires Inv(g, init, s)
    ensures Recorded(g, s)
  {
  }
}
