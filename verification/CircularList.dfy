/**
  Circular doubly linked lists (src/common/list.c).  A node is an address; 0 is
  the null pointer.
 */
module CircularList {
  type Ptr = nat

  function After(i: nat, n: nat): (j: nat)
    requires i < n
    ensures j < n
  {
    if i + 1 == n then 0 else i + 1
  }

  /** The nodes of `s`, in this order, form a ring. */
  ghost predicate Ring(next: map<Ptr, Ptr>, prev: map<Ptr, Ptr>, s: seq<Ptr>) {
    && (forall i, j :: 0 <= i < j < |s| ==> s[i] != s[j])
    && (forall i :: 0 <= i < |s| ==> s[i] != 0)
    && (forall i :: 0 <= i < |s| ==> Linked(next, prev, s[i], s[After(i, |s|)]))
  }

  /** `b` follows `a`. */
  predicate Linked(next: map<Ptr, Ptr>, prev: map<Ptr, Ptr>, a: Ptr, b: Ptr) {
    a in next && b in prev && next[a] == b && prev[b] == a
  }

  /** Every node of a ring has pointers. */
  lemma RingNode(next: map<Ptr, Ptr>, prev: map<Ptr, Ptr>, s: seq<Ptr>, i: nat)
    requires Ring(next, prev, s) && i < |s|
    ensures s[i] != 0 && s[i] in next && s[i] in prev && next[s[i]] == s[After(i, |s|)]
    ensures prev[s[i]] == s[if i == 0 then |s| - 1 else i - 1]
    ensures forall p :: p in s ==> p in next && p in prev
  {
    forall k | 0 <= k < |s| ensures s[k] in next && s[k] in prev {
      var j := if k == 0 then |s| - 1 else k - 1;
      assert After(j, |s|) == k;
      assert Linked(next, prev, s[j], s[k]) && Linked(next, prev, s[k], s[After(k, |s|)]);
    }
    var j := if i == 0 then |s| - 1 else i - 1;
    assert After(j, |s|) == i;
    assert Linked(next, prev, s[j], s[i]) && Linked(next, prev, s[i], s[After(i, |s|)]);
  }

  ghost predicate Apart(s: seq<Ptr>, t: seq<Ptr>) {
    forall i, j :: 0 <= i < |s| && 0 <= j < |t| ==> s[i] != t[j]
  }

  /** A ring can be read from any of its nodes. */
  lemma Rotate(next: map<Ptr, Ptr>, prev: map<Ptr, Ptr>, s: seq<Ptr>, k: nat)
    requires Ring(next, prev, s) && k < |s|
    ensures Ring(next, prev, s[k..] + s[..k])
  {
    var t := s[k..] + s[..k];
    forall i | 0 <= i < |t| ensures Linked(next, prev, t[i], t[After(i, |t|)]) {
      var j := if i + k < |s| then i + k else i + k - |s|;
      assert t[i] == s[j];
      assert t[After(i, |t|)] == s[After(j, |s|)];
    }
  }

  /** Two rings joined after the first node of the first one. */
  function Joined(s: seq<Ptr>, t: seq<Ptr>): seq<Ptr>
    requires s != []
  {
    [s[0]] + t + s[1..]
  }

  lemma JoinedDistinct(s: seq<Ptr>, t: seq<Ptr>)
    requires s != [] && Apart(s, t)
    requires forall i, j :: 0 <= i < j < |s| ==> s[i] != s[j]
    requires forall i, j :: 0 <= i < j < |t| ==> t[i] != t[j]
    ensures var u := Joined(s, t); forall i, j :: 0 <= i < j < |u| ==> u[i] != u[j]
  {
    var u := Joined(s, t);
    forall i, j | 0 <= i < j < |u| ensures u[i] != u[j] {
      assert u[i] == if i == 0 then s[0] else if i <= |t| then t[i - 1] else s[i - |t|];
      assert u[j] == if j <= |t| then t[j - 1] else s[j - |t|];
    }
  }

  /** A link that two writes to `next` and two to `prev` do not touch. */
  lemma KeepLink(next: map<Ptr, Ptr>, prev: map<Ptr, Ptr>, a: Ptr, b: Ptr, a1: Ptr, b1: Ptr, a2: Ptr, b2: Ptr)
    requires Linked(next, prev, a, b) && a != a1 && a != a2 && b != b1 && b != b2
    ensures Linked(next[a1 := b1][a2 := b2], prev[b1 := a1][b2 := a2], a, b)
  {
  }

  /** The four pointer writes of merge_list. */
  lemma MergeRing(next: map<Ptr, Ptr>, prev: map<Ptr, Ptr>, s: seq<Ptr>, t: seq<Ptr>)
    requires s != [] && t != [] && Ring(next, prev, s) && Ring(next, prev, t) && Apart(s, t)
    ensures s[0] in next && t[0] in prev && next[s[0]] in prev && prev[t[0]] in next
    ensures var node3, node4 := next[s[0]], prev[t[0]];
      Ring(next[s[0] := t[0]][node4 := node3], prev[t[0] := s[0]][node3 := node4], Joined(s, t))
  {
    hide Linked;
    RingNode(next, prev, s, 0);
    RingNode(next, prev, t, 0);
    RingNode(next, prev, s, After(0, |s|));
    RingNode(next, prev, t, |t| - 1);
    var n3, n4 := next[s[0]], prev[t[0]];
    var next', prev' := next[s[0] := t[0]][n4 := n3], prev[t[0] := s[0]][n3 := n4];
    var u := Joined(s, t);
    JoinedDistinct(s, t);
    forall i | 0 <= i < |u| ensures u[i] != 0 && Linked(next', prev', u[i], u[After(i, |u|)]) {
      if i == 0 || i == |t| {
        NewLinks(next, prev, s[0], t[0], n4, n3);
        assert u[1] == t[0] && u[|t|] == t[|t| - 1] && u[After(|t|, |u|)] == n3;
      } else if i < |t| {
        MergeInSecond(next, prev, s, t, i - 1);
        assert u[i] == t[i - 1] && u[i + 1] == t[i];
      } else {
        MergeInFirst(next, prev, s, t, i - |t|);
        assert u[i] == s[i - |t|] && u[After(i, |u|)] == s[After(i - |t|, |s|)];
      }
    }
  }

  lemma NewLinks(next: map<Ptr, Ptr>, prev: map<Ptr, Ptr>, a1: Ptr, b1: Ptr, a2: Ptr, b2: Ptr)
    requires a1 != a2 && b1 != b2
    ensures var next', prev' := next[a1 := b1][a2 := b2], prev[b1 := a1][b2 := a2];
      Linked(next', prev', a1, b1) && Linked(next', prev', a2, b2)
  {
  }

  lemma MergeInSecond(next: map<Ptr, Ptr>, prev: map<Ptr, Ptr>, s: seq<Ptr>, t: seq<Ptr>, i: nat)
    requires s != [] && i + 1 < |t| && Ring(next, prev, s) && Ring(next, prev, t) && Apart(s, t)
    ensures var n3, n4 := s[After(0, |s|)], t[|t| - 1];
      Linked(next[s[0] := t[0]][n4 := n3], prev[t[0] := s[0]][n3 := n4], t[i], t[i + 1])
  {
    hide Linked;
    assert Linked(next, prev, t[i], t[After(i, |t|)]);
    KeepLink(next, prev, t[i], t[i + 1], s[0], t[0], t[|t| - 1], s[After(0, |s|)]);
  }

  lemma MergeInFirst(next: map<Ptr, Ptr>, prev: map<Ptr, Ptr>, s: seq<Ptr>, t: seq<Ptr>, i: nat)
    requires t != [] && 0 < i < |s| && Ring(next, prev, s) && Ring(next, prev, t) && Apart(s, t)
    ensures var n3, n4 := s[After(0, |s|)], t[|t| - 1];
      Linked(next[s[0] := t[0]][n4 := n3], prev[t[0] := s[0]][n3 := n4], s[i], s[After(i, |s|)])
  {
    hide Linked;
    assert Linked(next, prev, s[i], s[After(i, |s|)]);
    assert After(i, |s|) != After(0, |s|);
    KeepLink(next, prev, s[i], s[After(i, |s|)], s[0], t[0], t[|t| - 1], s[After(0, |s|)]);
  }

  /** Taking the first node out of a ring. */
  lemma DetachRing(next: map<Ptr, Ptr>, prev: map<Ptr, Ptr>, s: seq<Ptr>)
    requires s != [] && Ring(next, prev, s)
    ensures s[0] in next && s[0] in prev
    ensures var node := s[0]; var before, after := prev[node], next[node];
      var next', prev' := next[before := after][node := node], prev[after := before][node := node];
      && Ring(next', prev', s[1..]) && Ring(next', prev', [node])
      && (before == node <==> |s| == 1) && before == s[|s| - 1]
  {
    var node := s[0];
    RingNode(next, prev, s, 0);
    var before, after := prev[node], next[node];
    var next', prev' := next[before := after][node := node], prev[after := before][node := node];
    var t := s[1..];
    forall i | 0 <= i < |t| ensures Linked(next', prev', t[i], t[After(i, |t|)]) {
      DetachLink(next, prev, s, i + 1);
      if i + 1 < |t| {
        assert t[i + 1] == s[i + 2];
      }
    }
    assert Linked(next', prev', node, node);
  }

  lemma DetachLink(next: map<Ptr, Ptr>, prev: map<Ptr, Ptr>, s: seq<Ptr>, i: nat)
    requires 0 < i < |s| && Ring(next, prev, s)
    ensures var node, before, after := s[0], s[|s| - 1], s[1];
      var next', prev' := next[before := after][node := node], prev[after := before][node := node];
      Linked(next', prev', s[i], if i + 1 == |s| then s[1] else s[i + 1])
  {
    assert Linked(next, prev, s[i], s[After(i, |s|)]);
  }

  class Links {
    var next: map<Ptr, Ptr>
    var prev: map<Ptr, Ptr>

    constructor ()
      ensures next == map[] && prev == map[]
    {
      next, prev := map[], map[];
    }

    /** init_list_node: a ring of one node. */
    method InitListNode(node: Ptr)
      requires node != 0
      modifies this
      ensures next == old(next)[node := node] && prev == old(prev)[node := node]
      ensures Ring(next, prev, [node])
    {
      prev := prev[node := node];
      next := next[node := node];
    }

    /** merge_list: the ring of node2 is put in after node1. */
    method MergeList(node1: Ptr, node2: Ptr, ghost s: seq<Ptr>, ghost t: seq<Ptr>) returns (head: Ptr)
      requires node1 != 0 ==> s != [] && s[0] == node1 && Ring(next, prev, s)
      requires node2 != 0 ==> t != [] && t[0] == node2 && Ring(next, prev, t)
      requires node1 != 0 && node2 != 0 ==> Apart(s, t)
      modifies this
      ensures node1 == 0 ==> head == node2 && next == old(next) && prev == old(prev)
      ensures node2 == 0 && node1 != 0 ==> head == node1 && next == old(next) && prev == old(prev)
      ensures node1 != 0 && node2 != 0 ==> head == node1 && Ring(next, prev, [s[0]] + t + s[1..])
      ensures forall p :: p in old(next) && p !in s && p !in t ==> p in next && next[p] == old(next)[p]
      ensures forall p :: p in old(prev) && p !in s && p !in t ==> p in prev && prev[p] == old(prev)[p]
    {
      if node1 == 0 {
        return node2;
      }
      if node2 == 0 {
        return node1;
      }
      MergeRing(next, prev, s, t);
      RingNode(next, prev, s, 0);
      RingNode(next, prev, t, 0);
      var node3 := next[node1];
      var node4 := prev[node2];
      next := next[node1 := node2];
      prev := prev[node2 := node1];
      next := next[node4 := node3];
      prev := prev[node3 := node4];
      return node1;
    }

    /** detach_from_list: the node is alone, and the others keep their order. */
    method DetachFromList(node: Ptr, ghost s: seq<Ptr>) returns (r: Ptr)
      requires s != [] && s[0] == node && Ring(next, prev, s)
      modifies this
      ensures Ring(next, prev, [node]) && Ring(next, prev, s[1..])
      ensures r == if |s| == 1 then 0 else s[|s| - 1]
      ensures forall p :: p in old(next) && p !in s ==> p in next && next[p] == old(next)[p]
      ensures forall p :: p in old(prev) && p !in s ==> p in prev && prev[p] == old(prev)[p]
    {
      DetachRing(next, prev, s);
      RingNode(next, prev, s, 0);
      var before := prev[node];
      next := next[prev[node] := next[node]];
      prev := prev[next[node] := prev[node]];
      next, prev := next[node := node], prev[node := node];
      if before == node {
        return 0;
      }
      return before;
    }
  }
}
