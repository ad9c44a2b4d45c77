/** Collecting the leaves and the reusable nodes of a region, and what the
    rebuilt region has in common with the one taken apart. */
module TreeCollecting {
  import opened LatencyShapes
  import opened OperatorTree
  import opened TreeMemory
  import opened TreeRegion
  import opened TreeBuilding

  /** A node at which its region ends: it has no children, or its parent
      applies another operator. */
  predicate ConsideredLeaf(p: Program, h: seq<Cell>, i: nat)
    requires |h| == |p.op| && i < |h| && h[i].parent < |h|
  {
    h[i].left == 0 || h[i].right == 0 || (h[i].parent != 0 && p.op[i] != p.op[h[i].parent])
  }

  /** A tree that hangs below a node of operator `o`. */
  ghost predicate Below(p: Program, h: seq<Cell>, o: Op, t: Tree) {
    && Legal(p) && InRange(p, t) && Holds(h, t) && Timed(p, h, t)
    && |h| == |p.op| && 0 < h[t.id].parent < |h| && p.op[h[t.id].parent] == o
  }

  /** A tree just below a region of operator `o`. */
  ghost predicate Ends(p: Program, h: seq<Cell>, o: Op, t: Tree) {
    && Legal(p) && InRange(p, t) && Holds(h, t) && Timed(p, h, t)
    && (t.Branch? ==> p.op[t.id] != o)
  }

  /** What the region of operator `o` at the top of `t` keeps. */
  ghost function KeptOf(p: Program, o: Op, t: Tree): (k: Kept)
    requires Legal(p) && InRange(p, t)
  {
    Kept(Eval(p, t), Ids(t), Frontier(p, o, t), Times(ShapeOf(p, o, t)), Parts(p, o, t))
  }

  /** A tree that may be collected from: its children hang below it. */
  ghost predicate Source(p: Program, h: seq<Cell>, t: Tree) {
    && Legal(p) && InRange(p, t) && Holds(h, t) && |h| == |p.op|
    && t.id < |h| && h[t.id].parent < |h|
    && (t.Branch? ==> Below(p, h, p.op[t.id], t.left) && Below(p, h, p.op[t.id], t.right))
  }

  /** The trees `done` have been collected, the trees `q` are still to be
      looked at. */
  ghost predicate Collecting(p: Program, h: seq<Cell>, t: Tree, done: seq<Tree>, q: seq<Tree>, r: seq<nat>) {
    && Source(p, h, t)
    && Assembled(p, p.op[t.id], done + q, r, KeptOf(p, p.op[t.id], t))
    && (r == [] ==> (done == [] && q == [t]) || (done == [t] && q == []))
    && (r != [] ==>
          && r[0] == t.id && !ConsideredLeaf(p, h, t.id)
          && (forall i :: 0 <= i < |q| ==> Below(p, h, p.op[t.id], q[i]))
          && (forall i :: 0 <= i < |done| ==> Ends(p, h, p.op[t.id], done[i])))
  }

  lemma AssembledOne(p: Program, o: Op, t: Tree, kept: Kept)
    requires Legal(p) && InRange(p, t)
    ensures Assembled(p, o, [t], [], kept) <==> kept == KeptOf(p, o, t)
  {
    hide InRange, Total, Eval;
    TotalOne(p, o, t);
    ModUnique(Eval(p, t), 0, Eval(p, t), p.modulus);
  }

  lemma CollectStart(p: Program, h: seq<Cell>, t: Tree)
    requires Source(p, h, t)
    ensures Collecting(p, h, t, [], [t], [])
  {
    hide InRange, Total, Eval, Assembled, Holds, Timed, KeptOf, Below;
    AssembledOne(p, p.op[t.id], t, KeptOf(p, p.op[t.id], t));
    assert [] + [t] == [t];
  }

  /** The next tree ends the region. */
  lemma CollectLeaf(p: Program, h: seq<Cell>, t: Tree, done: seq<Tree>, q: seq<Tree>, r: seq<nat>)
    requires Collecting(p, h, t, done, q, r) && q != []
    requires q[0].id < |h| && h[q[0].id].parent < |h| && ConsideredLeaf(p, h, q[0].id)
    ensures Collecting(p, h, t, done + [q[0]], q[1..], r)
    ensures r == [] ==> done == [] && q == [t]
  {
    hide InRange, Assembled, Timed, KeptOf;
    assert (done + [q[0]]) + q[1..] == done + q;
    if r != [] {
      assert Below(p, h, p.op[t.id], q[0]);
      assert Ends(p, h, p.op[t.id], q[0]) by { HeldLeaf(h, q[0]); }
    }
  }

  /** The next tree is a node of the region. */
  lemma CollectNode(p: Program, h: seq<Cell>, t: Tree, done: seq<Tree>, q: seq<Tree>, r: seq<nat>)
    requires Collecting(p, h, t, done, q, r) && q != [] && q[0].Branch?
    requires q[0].id < |h| && h[q[0].id].parent < |h| && !ConsideredLeaf(p, h, q[0].id)
    ensures Collecting(p, h, t, done, q[1..] + [q[0].left, q[0].right], r + [q[0].id])
  {
    hide InRange, Assembled, Holds, Timed, KeptOf;
    var c, o := q[0], p.op[t.id];
    assert p.op[c.id] == o && Below(p, h, o, c.left) && Below(p, h, o, c.right) by {
      if r != [] {
        assert Below(p, h, o, c);
        BelowParts(p, h, o, c);
      }
    }
    TakeApart(p, o, done, q, r, KeptOf(p, o, t));
  }

  lemma BelowParts(p: Program, h: seq<Cell>, o: Op, c: Tree)
    requires Below(p, h, o, c) && c.Branch?
    ensures Below(p, h, p.op[c.id], c.left) && Below(p, h, p.op[c.id], c.right)
  {
  }

  lemma CollectNext(p: Program, h: seq<Cell>, t: Tree, done: seq<Tree>, q: seq<Tree>, r: seq<nat>)
    requires Collecting(p, h, t, done, q, r) && q != []
    ensures |h| == |p.op| && Holds(h, q[0]) && q[0].id < |h| && h[q[0].id].parent < |h|
  {
    hide InRange, Assembled, Timed, KeptOf;
    if r != [] {
      assert Below(p, h, p.op[t.id], q[0]);
    }
  }

  lemma {:induction false} EndsTimes(p: Program, o: Op, f: seq<Tree>)
    requires Legal(p) && AllInRange(p, f) && forall i :: 0 <= i < |f| ==> f[i].Branch? ==> p.op[f[i].id] != o
    ensures Total(p, o, f).times == Total(p, o, f).base
  {
    hide Latency, Eval, Ids, Frontier, Parts;
    if f != [] {
      EndsTimes(p, o, f[1..]);
    }
  }

  /** Everything has been collected. */
  lemma CollectEnd(p: Program, h: seq<Cell>, t: Tree, f: seq<Tree>, r: seq<nat>, leaves: seq<nat>)
    requires Collecting(p, h, t, f, [], r) && Names(leaves, f) && Simple(Ids(t))
    ensures Building(p, h, p.op[t.id], leaves, r, f, KeptOf(p, p.op[t.id], t))
    ensures r == [] ==> f == [t]
    ensures r != [] ==> !ConsideredLeaf(p, h, t.id) && r[0] == t.id
    ensures r != [] ==> Total(p, p.op[t.id], f).times == Times(ShapeOf(p, p.op[t.id], t))
  {
    assert f + [] == f;
    EndedParts(p, h, t, f, r);
    hide InRange, Total, Holds, Timed, Eval, Ids, Frontier, Parts, ShapeOf, Times;
  }

  lemma EndedParts(p: Program, h: seq<Cell>, t: Tree, f: seq<Tree>, r: seq<nat>)
    requires Collecting(p, h, t, f, [], r)
    ensures AllInRange(p, f) && AllHold(h, f) && (|f| > 1 ==> AllTimed(p, h, f))
    ensures r != [] ==> Total(p, p.op[t.id], f).times == Total(p, p.op[t.id], f).base
  {
    hide InRange, Total, Holds, Timed, KeptOf, Assembled;
    assert f + [] == f;
    forall i | 0 <= i < |f|
      ensures InRange(p, f[i]) && Holds(h, f[i]) && (r != [] ==> Timed(p, h, f[i]) && Ends(p, h, p.op[t.id], f[i]))
    {
      if r != [] {
        assert Ends(p, h, p.op[t.id], f[i]);
      }
    }
    OneMore(p, p.op[t.id], f, r, KeptOf(p, p.op[t.id], t));
    if r != [] {
      EndsTimes(p, p.op[t.id], f);
    }
  }

  lemma OneMore(p: Program, o: Op, f: seq<Tree>, r: seq<nat>, kept: Kept)
    requires Assembled(p, o, f, r, kept)
    ensures |f| == |r| + 1
  {
  }

  // The rebuilt region.

  /** No combination of what is below the region finishes earlier. */
  ghost predicate Optimal(p: Program, o: Op, t: Tree)
    requires Legal(p) && InRange(p, t)
  {
    forall s :: Times(s) == Times(ShapeOf(p, o, t)) ==> Latency(p, t) <= Finish(s, Delay(p, o))
  }

  lemma RegionRebuilt(p: Program, o: Op, t: Tree, t': Tree)
    requires Legal(p) && InRange(p, t) && InRange(p, t')
    requires Assembled(p, o, [t'], [], KeptOf(p, o, t))
    requires NoWorse(Delay(p, o), Times(ShapeOf(p, o, t)), multiset{Latency(p, t')})
    ensures KeptOf(p, o, t') == KeptOf(p, o, t)
    ensures Latency(p, t') <= Latency(p, t) && Optimal(p, o, t')
  {
    hide InRange, Eval, Latency, Frontier, Parts, ShapeOf, Times, Finish, Assembled, NoWorse, Delay;
    AssembledOne(p, o, t', KeptOf(p, o, t));
    OnlyOneLeft(Delay(p, o), Times(ShapeOf(p, o, t)), Latency(p, t'));
    ShapeFinishes(p, o, t);
  }
}
