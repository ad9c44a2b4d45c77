/** Sparse evaluation graphs: which definitions reach a node, and what may be
    merged or deleted without changing that. */
module SparseGraph {

  /** Nodes that preserve what flows in and nodes that do not; `root` is the
      node each node was merged into, 0 if it was deleted. Node 0 is not used. */
  datatype Seg = Seg(np: seq<bool>, pred: seq<set<nat>>, root: seq<nat>)

  ghost predicate Formed(g: Seg) {
    && |g.np| == |g.pred| == |g.root| > 0
    && (forall v :: 0 <= v < |g.root| ==> NodeFormed(g, v))
  }

  ghost predicate NodeFormed(g: Seg, v: nat)
    requires |g.np| == |g.pred| == |g.root| && v < |g.root|
  {
    && g.root[v] < |g.root| && g.root[g.root[v]] == g.root[v]
    && (v == 0 ==> g.root[v] == 0 && !g.np[v])
    && (g.np[v] ==> g.root[v] == v)
    && (forall p :: p in g.pred[v] ==> 0 < p < |g.root|)
  }

  ghost predicate Live(g: Seg, v: int) {
    0 < v < |g.root| && g.root[v] == v
  }

  type Flow = seq<set<nat>>

  /** Whether `d` gives node `n` what comes out of its predecessor `r`. */
  ghost predicate Fed(g: Seg, d: Flow, n: nat, r: nat)
    requires |d| == |g.np| && n < |d| && r < |d|
  {
    if g.np[r] then r in d[n] else d[r] <= d[n]
  }

  /** What comes out of a node: itself, or what flows in. */
  ghost function Out(g: Seg, d: Flow, r: nat): set<nat>
    requires |d| == |g.np| && r < |d|
  {
    if g.np[r] then {r} else d[r]
  }

  lemma FedIsOut(g: Seg, d: Flow, n: nat, r: nat)
    requires |d| == |g.np| && n < |d| && r < |d|
    ensures Fed(g, d, n, r) <==> Out(g, d, r) <= d[n]
  {
  }

  ghost predicate FlowAt(g: Seg, d: Flow, n: nat)
    requires Formed(g) && |d| == |g.np| && n < |d|
  {
    forall p :: p in g.pred[n] ==> p < |g.root| && (g.root[p] != 0 ==> NodeFormed(g, p) && Fed(g, d, n, g.root[p]))
  }

  /** Each live node gets what comes out of its live predecessors. */
  ghost predicate IsFlow(g: Seg, d: Flow) {
    Formed(g) && |d| == |g.np| && forall n :: Live(g, n) ==> FlowAt(g, d, n)
  }

  ghost predicate WithinAt(d: Flow, e: Flow, n: int) {
    0 <= n < |d| && n < |e| && d[n] <= e[n]
  }

  /** The least such assignment: for every live node, the non-preserving nodes
      whose effect reaches it through preserving ones. */
  ghost predicate LeastFlow(g: Seg, d: Flow) {
    IsFlow(g, d) && forall e, n :: IsFlow(g, e) && Live(g, n) ==> WithinAt(d, e, n)
  }

  // Merging preserving nodes with equal flow.

  /** `g'` is `g` with classes of equal flow `d` merged: a node's new
      predecessors are those of the nodes merged into it. */
  ghost predicate MergedInto(g: Seg, d: Flow, g': Seg) {
    && Formed(g) && Formed(g') && |d| == |g.np| && g'.np == g.np
    && (forall v :: 0 < v < |g.root| ==> MergedAt(g, d, g', v))
    && (forall r, p :: Live(g', r) && p in g'.pred[r] ==> exists v: nat :: FromMember(g, g', r, p, v))
  }

  ghost predicate FromMember(g: Seg, g': Seg, r: nat, p: nat, v: nat) {
    0 < v < |g.root| && v < |g'.root| && v < |g.pred| && g'.root[v] == r && p in g.pred[v]
  }

  ghost predicate MergedAt(g: Seg, d: Flow, g': Seg, v: nat)
    requires Formed(g) && Formed(g') && |d| == |g.np| == |g'.np| && v < |d|
  {
    && g.root[v] == v && 0 < g'.root[v] < |d|
    && (g'.root[v] != v ==> !g.np[v] && !g.np[g'.root[v]] && d[v] == d[g'.root[v]])
    && g.pred[v] <= g'.pred[g'.root[v]]
  }

  /** A flow of the merged graph, read through representatives. */
  ghost function Spread(g': Seg, e: Flow): Flow
    requires Formed(g') && |e| == |g'.root|
  {
    seq(|e|, v requires 0 <= v < |e| => assert NodeFormed(g', v); e[g'.root[v]])
  }

  lemma SpreadIsFlow(g: Seg, d: Flow, g': Seg, e: Flow)
    requires MergedInto(g, d, g') && IsFlow(g', e)
    ensures IsFlow(g, Spread(g', e))
  {
    var s := Spread(g', e);
    forall n | Live(g, n)
      ensures FlowAt(g, s, n)
    {
      assert MergedAt(g, d, g', n) && NodeFormed(g, n) && NodeFormed(g', n);
      var r := g'.root[n];
      assert Live(g', r) && FlowAt(g', e, r);
      forall p | p in g.pred[n]
        ensures p < |g.root| && NodeFormed(g, p) && Fed(g, s, n, g.root[p])
      {
        assert MergedAt(g, d, g', p) && NodeFormed(g', p) && NodeFormed(g, p);
        assert p in g'.pred[r];
      }
    }
  }

  lemma MergedIsFlow(g: Seg, d: Flow, g': Seg)
    requires MergedInto(g, d, g') && IsFlow(g, d)
    ensures IsFlow(g', d)
  {
    forall r | Live(g', r)
      ensures FlowAt(g', d, r)
    {
      forall p | p in g'.pred[r]
        ensures p < |g.root| && NodeFormed(g', p) && Fed(g', d, r, g'.root[p])
      {
        var v: nat :| FromMember(g, g', r, p, v);
        assert MergedAt(g, d, g', v) && Live(g, v) && FlowAt(g, d, v) && NodeFormed(g, v);
        assert MergedAt(g, d, g', p) && NodeFormed(g', p);
      }
    }
  }

  lemma MergedKeepsLeast(g: Seg, d: Flow, g': Seg)
    requires MergedInto(g, d, g') && LeastFlow(g, d)
    ensures LeastFlow(g', d)
  {
    hide IsFlow;
    MergedIsFlow(g, d, g');
    forall e, n | IsFlow(g', e) && Live(g', n)
      ensures WithinAt(d, e, n)
    {
      FlowSizes(g', e);
      SpreadIsFlow(g, d, g', e);
      assert MergedAt(g, d, g', n) && Live(g, n);
      assert WithinAt(d, Spread(g', e), n);
    }
  }

  lemma FlowSizes(g: Seg, d: Flow)
    requires IsFlow(g, d)
    ensures Formed(g) && |d| == |g.np|
  {
  }

  // Deleting preserving nodes that nothing reaches.

  /** `g'` is `g` without the nodes `dead`, whose predecessors are all dead;
      the other preserving nodes keep exactly their live predecessors. */
  ghost predicate Pruned(g: Seg, g': Seg, dead: set<nat>) {
    && Formed(g) && Formed(g') && g'.np == g.np
    && (forall v :: 0 <= v < |g.root| ==> NodeFormed(g, v) && g'.root[v] == if g.root[v] in dead then 0 else g.root[v])
    && (forall n :: n in dead ==> Live(g, n) && !g.np[n] && forall p :: p in g.pred[n] ==> p < |g.root| && g.root[p] in dead)
    && (forall n :: Live(g, n) && g.np[n] ==> g'.pred[n] == g.pred[n])
    && (forall n :: Live(g, n) && !g.np[n] && n !in dead ==> PrunedAt(g, g', dead, n))
  }

  ghost predicate PrunedAt(g: Seg, g': Seg, dead: set<nat>, n: nat)
    requires n < |g.pred| && n < |g'.pred|
  {
    g'.pred[n] == set p | p in g.pred[n] && p < |g.root| && g.root[p] !in dead && g.root[p] != n :: g.root[p]
  }

  lemma PrunedIsFlow(g: Seg, d: Flow, g': Seg, dead: set<nat>)
    requires Pruned(g, g', dead) && IsFlow(g, d) && AllKept(g)
    ensures IsFlow(g', d)
  {
    forall n | Live(g', n)
      ensures FlowAt(g', d, n)
    {
      assert NodeFormed(g, n) && Live(g, n) && FlowAt(g, d, n);
      forall q | q in g'.pred[n]
        ensures q < |g'.root| && (g'.root[q] != 0 ==> NodeFormed(g', q) && Fed(g', d, n, g'.root[q]))
      {
        assert NodeFormed(g', n) && NodeFormed(g', q) && NodeFormed(g, q);
        if !g.np[n] {
          var p :| p in g.pred[n] && p < |g.root| && g.root[p] !in dead && g.root[p] != n && q == g.root[p];
          assert NodeFormed(g, p);
        }
      }
    }
  }

  /** Nothing was deleted before. */
  ghost predicate AllKept(g: Seg) {
    forall v :: 0 < v < |g.root| ==> g.root[v] != 0
  }

  /** A flow of the pruned graph, with nothing for the deleted nodes. */
  ghost function Emptied(e: Flow, dead: set<nat>): Flow {
    seq(|e|, v requires 0 <= v < |e| => if v in dead then {} else e[v])
  }

  lemma EmptiedIsFlow(g: Seg, g': Seg, dead: set<nat>, e: Flow)
    requires Pruned(g, g', dead) && IsFlow(g', e) && AllKept(g)
    ensures IsFlow(g, Emptied(e, dead))
  {
    var s := Emptied(e, dead);
    forall n | Live(g, n)
      ensures FlowAt(g, s, n)
    {
      assert NodeFormed(g, n) && NodeFormed(g', n);
      if n in dead {
        forall p | p in g.pred[n]
          ensures p < |g.root| && NodeFormed(g, p) && Fed(g, s, n, g.root[p])
        {
          assert NodeFormed(g, p);
        }
      } else {
        EmptiedAt(g, g', dead, e, n);
      }
    }
  }

  lemma EmptiedAt(g: Seg, g': Seg, dead: set<nat>, e: Flow, n: nat)
    requires Pruned(g, g', dead) && IsFlow(g', e) && AllKept(g) && Live(g, n) && n !in dead
    ensures FlowAt(g, Emptied(e, dead), n)
  {
    var s := Emptied(e, dead);
    assert NodeFormed(g, n) && NodeFormed(g', n) && Live(g', n) && FlowAt(g', e, n);
    forall p | p in g.pred[n]
      ensures p < |g.root| && NodeFormed(g, p) && Fed(g, s, n, g.root[p])
    {
      assert NodeFormed(g, p) && NodeFormed(g', p);
      var r := g.root[p];
      assert NodeFormed(g, r) && NodeFormed(g', r);
      if r in dead {
        assert !g.np[r] && s[r] == {};
      } else if g.np[n] {
        assert p in g'.pred[n];
      } else if r != n {
        assert PrunedAt(g, g', dead, n) && r in g'.pred[n];
      }
    }
  }

  /** Pruning keeps the flow of every node that is left, and nothing reaches
      a deleted node. */
  lemma PrunedKeepsLeast(g: Seg, d: Flow, g': Seg, dead: set<nat>)
    requires Pruned(g, g', dead) && LeastFlow(g, d) && AllKept(g)
    ensures LeastFlow(g', d) && forall n :: n in dead ==> n < |d| && d[n] == {}
  {
    PrunedIsFlow(g, d, g', dead);
    EmptiedIsFlow(g, g', dead, d);
    forall n | n in dead
      ensures n < |d| && d[n] == {}
    {
      assert Live(g, n) && WithinAt(d, Emptied(d, dead), n);
    }
    forall e, n | IsFlow(g', e) && Live(g', n)
      ensures WithinAt(d, e, n)
    {
      EmptiedIsFlow(g, g', dead, e);
      assert NodeFormed(g, n) && Live(g, n);
      assert WithinAt(d, Emptied(e, dead), n);
    }
  }

  // Merging a preserving node into its only predecessor.

  /** `n` is merged into `p`, which all its predecessors are part of. */
  ghost predicate Absorbed(g: Seg, g': Seg, n: nat, p: nat) {
    && Formed(g) && Formed(g') && g'.np == g.np && g'.pred == g.pred
    && Live(g, n) && !g.np[n] && Live(g, p) && p != n
    && (forall v :: 0 <= v < |g.root| ==> g'.root[v] == if g.root[v] == n then p else g.root[v])
    && (forall q :: q in g.pred[n] ==> q < |g.root| && (g.root[q] == p || g.root[q] == 0))
    && (exists q :: q in g.pred[n] && q < |g.root| && g.root[q] == p)
  }

  lemma AbsorbedIsFlow(g: Seg, d: Flow, g': Seg, n: nat, p: nat)
    requires Absorbed(g, g', n, p) && IsFlow(g, d)
    ensures IsFlow(g', d) && Out(g, d, p) <= d[n]
  {
    assert NodeFormed(g, n) && FlowAt(g, d, n);
    var q0 :| q0 in g.pred[n] && q0 < |g.root| && g.root[q0] == p;
    forall m | Live(g', m)
      ensures FlowAt(g', d, m)
    {
      assert NodeFormed(g, m) && NodeFormed(g, p) && Live(g, m) && FlowAt(g, d, m);
      forall q | q in g'.pred[m]
        ensures q < |g'.root| && (g'.root[q] != 0 ==> NodeFormed(g', q) && Fed(g', d, m, g'.root[q]))
      {
        assert NodeFormed(g, m) && NodeFormed(g, q) && NodeFormed(g', q);
      }
    }
  }

  /** A flow of the new graph, with what comes out of `p` for `n`. */
  lemma AbsorbedBack(g: Seg, g': Seg, n: nat, p: nat, e: Flow)
    requires Absorbed(g, g', n, p) && IsFlow(g', e)
    ensures n < |e| && p < |e| && IsFlow(g, e[n := Out(g, e, p)])
  {
    var s := e[n := Out(g, e, p)];
    assert NodeFormed(g, n) && NodeFormed(g, p);
    forall m | Live(g, m)
      ensures FlowAt(g, s, m)
    {
      assert NodeFormed(g, m) && NodeFormed(g', m);
      assert m != n ==> Live(g', m) && FlowAt(g', e, m);
      forall q | q in g.pred[m]
        ensures q < |g.root| && (g.root[q] != 0 ==> NodeFormed(g, q) && Fed(g, s, m, g.root[q]))
      {
        assert NodeFormed(g, q) && NodeFormed(g', q);
        assert m != n ==> q in g'.pred[m];
      }
    }
  }

  lemma AbsorbedKeepsLeast(g: Seg, d: Flow, g': Seg, n: nat, p: nat)
    requires Absorbed(g, g', n, p) && LeastFlow(g, d)
    ensures LeastFlow(g', d) && n < |d| && p < |d| && d[n] == Out(g, d, p)
  {
    AbsorbedIsFlow(g, d, g', n, p);
    AbsorbedBack(g, g', n, p, d);
    assert WithinAt(d, d[n := Out(g, d, p)], n);
    forall e, m | IsFlow(g', e) && Live(g', m)
      ensures WithinAt(d, e, m)
    {
      AbsorbedBack(g, g', n, p, e);
      assert NodeFormed(g, m) && NodeFormed(g, p) && Live(g, m);
      assert WithinAt(d, e[n := Out(g, e, p)], m);
    }
  }

  // The least flow exists.

  ghost predicate InAll(g: Seg, n: nat, x: nat) {
    forall e :: IsFlow(g, e) ==> n < |e| && x in e[n]
  }

  /** What all flows have in common. */
  ghost function CommonFlow(g: Seg): Flow {
    seq(|g.np|, (n: nat) => set x: nat | x < |g.np| && InAll(g, n, x))
  }

  lemma LeastFlowExists(g: Seg) returns (d: Flow)
    requires Formed(g)
    ensures LeastFlow(g, d)
  {
    d := CommonFlow(g);
    forall n | Live(g, n)
      ensures FlowAt(g, d, n)
    {
      assert NodeFormed(g, n);
      forall p | p in g.pred[n]
        ensures p < |g.root| && NodeFormed(g, p) && (g.root[p] != 0 ==> Fed(g, d, n, g.root[p]))
      {
        assert NodeFormed(g, p);
        if g.root[p] != 0 {
          CommonFed(g, n, p);
        }
      }
    }
  }

  lemma CommonFed(g: Seg, n: nat, p: nat)
    requires Formed(g) && Live(g, n) && p in g.pred[n] && p < |g.root| && 0 < g.root[p] < |g.np|
    ensures Fed(g, CommonFlow(g), n, g.root[p])
  {
    var d, r := CommonFlow(g), g.root[p];
    forall x | x in Out(g, d, r)
      ensures x in d[n]
    {
      forall e | IsFlow(g, e)
        ensures n < |e| && x in e[n]
      {
        assert FlowAt(g, e, n) && Fed(g, e, n, r);
        assert !g.np[r] ==> InAll(g, r, x);
      }
      assert InAll(g, n, x);
    }
    FedIsOut(g, d, n, r);
  }
}
