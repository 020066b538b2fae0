/**
  What the history fields of the log mean: replaying the writes of a set of
  operations, in the order they were issued, and counting budgets.
 */
module LogHistory {
  import opened LogMachine

  type Image = seq<Sector>

  /** The writes of the operations in `d`, in issue order. */
  function Survivors(ws: seq<Write>, d: set<nat>): (r: seq<Write>)
  {
    if ws == [] then []
    else
      var w := ws[|ws| - 1];
      Survivors(ws[..|ws| - 1], d) + if w.op in d then [w] else []
  }

  /** An image after the writes `ws`. */
  function Replay(base: Image, ws: seq<Write>): (r: Image)
    ensures |r| == |base|
  {
    if ws == [] then base
    else
      var w := ws[|ws| - 1];
      var r := Replay(base, ws[..|ws| - 1]);
      if w.block < |base| then r[w.block := w.data] else r
  }

  lemma {:induction false} SurvivorsAppend(a: seq<Write>, b: seq<Write>, d: set<nat>)
    ensures Survivors(a + b, d) == Survivors(a, d) + Survivors(b, d)
  {
    if b == [] {
      assert a + b == a;
    } else {
      assert (a + b)[..|a + b| - 1] == a + b[..|b| - 1];
      SurvivorsAppend(a, b[..|b| - 1], d);
    }
  }

  lemma {:induction false} ReplayAppend(base: Image, a: seq<Write>, b: seq<Write>)
    ensures Replay(base, a + b) == Replay(Replay(base, a), b)
  {
    if b == [] {
      assert a + b == a;
    } else {
      assert (a + b)[..|a + b| - 1] == a + b[..|b| - 1];
      ReplayAppend(base, a, b[..|b| - 1]);
    }
  }

  lemma {:induction false} SurvivorsAgree(ws: seq<Write>, d: set<nat>, e: set<nat>)
    requires forall i :: 0 <= i < |ws| ==> (ws[i].op in d <==> ws[i].op in e)
    ensures Survivors(ws, d) == Survivors(ws, e)
  {
    if ws != [] {
      SurvivorsAgree(ws[..|ws| - 1], d, e);
    }
  }

  lemma {:induction false} SurvivorsAll(ws: seq<Write>, d: set<nat>)
    requires forall i :: 0 <= i < |ws| ==> ws[i].op in d
    ensures Survivors(ws, d) == ws
  {
    if ws != [] {
      SurvivorsAll(ws[..|ws| - 1], d);
    }
  }

  lemma {:induction false} SurvivorsNone(ws: seq<Write>, d: set<nat>)
    requires forall i :: 0 <= i < |ws| ==> ws[i].op !in d
    ensures Survivors(ws, d) == []
  {
    if ws != [] {
      SurvivorsNone(ws[..|ws| - 1], d);
    }
  }

  /** Either every write of an operation survives or none does. */
  lemma {:induction false} AllOrNothing(ws: seq<Write>, d: set<nat>, op: nat)
    ensures op in d ==> Survivors(Survivors(ws, d), {op}) == Survivors(ws, {op})
    ensures op !in d ==> Survivors(Survivors(ws, d), {op}) == []
  {
    if ws != [] {
      var w := ws[|ws| - 1];
      AllOrNothing(ws[..|ws| - 1], d, op);
      SurvivorsAppend(Survivors(ws[..|ws| - 1], d), if w.op in d then [w] else [], {op});
    }
  }

  // ---------------------------------------------------------------- budgets

  function BudgetOf(x: OpStatus): nat {
    if x.Open? then x.rm else 0
  }

  /** The sum of the remaining budgets of the open operations. */
  function Budget(ops: seq<OpStatus>): nat {
    if ops == [] then 0 else Budget(ops[..|ops| - 1]) + BudgetOf(ops[|ops| - 1])
  }

  function NumOpen(ops: seq<OpStatus>): nat {
    if ops == [] then 0 else NumOpen(ops[..|ops| - 1]) + if ops[|ops| - 1].Open? then 1 else 0
  }

  lemma {:induction false} BudgetUpdate(ops: seq<OpStatus>, i: nat, x: OpStatus)
    requires i < |ops|
    ensures Budget(ops[i := x]) == Budget(ops) - BudgetOf(ops[i]) + BudgetOf(x)
    ensures NumOpen(ops[i := x])
         == NumOpen(ops) - (if ops[i].Open? then 1 else 0) + (if x.Open? then 1 else 0)
  {
    var n := |ops| - 1;
    if i == n {
      assert ops[i := x][..n] == ops[..n];
    } else {
      assert ops[i := x][..n] == ops[..n][i := x];
      BudgetUpdate(ops[..n], i, x);
    }
  }

  lemma {:induction false} BudgetMember(ops: seq<OpStatus>, i: nat)
    requires i < |ops| && ops[i].Open?
    ensures ops[i].rm <= Budget(ops) && 1 <= NumOpen(ops)
  {
    if i < |ops| - 1 {
      BudgetMember(ops[..|ops| - 1], i);
    }
  }

  lemma {:induction false} BudgetNone(ops: seq<OpStatus>)
    requires forall i :: 0 <= i < |ops| ==> !ops[i].Open?
    ensures Budget(ops) == 0 && NumOpen(ops) == 0
  {
    if ops != [] {
      BudgetNone(ops[..|ops| - 1]);
    }
  }
}
