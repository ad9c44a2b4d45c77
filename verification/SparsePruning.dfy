/** Deleting and absorbing preserving nodes in the order of their components. */
module SparsePruning {
  import opened SparseGraph
  import opened SparseSearch
  import UnionFind

  // Deleting.

  /** The live predecessors of `n`, by representative. */
  function LivePreds(pred: set<nat>, root: seq<nat>, n: nat): (r: set<nat>) {
    set p | p in pred && p < |root| && root[p] != 0 && root[p] != n :: root[p]
  }

  /** The first `k` components have been dealt with; those of `dead` had no
      predecessor left and are deleted. */
  ghost predicate Pruning(g: Seg, topo: seq<nat>, k: nat, pred: seq<set<nat>>, root: seq<nat>, dead: set<nat>) {
    && Formed(g) && AllKept(g) && |pred| == |root| == |g.np| && k <= |topo|
    && (forall v :: 0 <= v < |root| ==> root[v] == if g.root[v] in dead then 0 else g.root[v])
    && (forall n :: n in dead ==> n in topo[..k])
    && (forall j :: 0 <= j < k ==> PrunedStep(g, topo, pred, dead, j))
    && (forall n :: 0 <= n < |pred| && n !in topo[..k] ==> pred[n] == g.pred[n])
  }

  ghost predicate PrunedStep(g: Seg, topo: seq<nat>, pred: seq<set<nat>>, dead: set<nat>, j: nat)
    requires Formed(g) && |pred| == |g.np| && j < |topo|
  {
    var n := topo[j];
    && n < |pred|
    && (n in dead ==> pred[n] == g.pred[n] && forall p :: p in g.pred[n] ==> p < |g.root| && g.root[p] in dead)
    && (n !in dead ==> PrunedAtNode(g, pred, dead, n) && pred[n] != {})
  }

  ghost predicate PrunedAtNode(g: Seg, pred: seq<set<nat>>, dead: set<nat>, n: nat)
    requires n < |pred| && n < |g.pred|
  {
    pred[n] == Others(g, dead, n)
  }

  /** The predecessors of `n` that are not deleted, by representative. */
  ghost function Others(g: Seg, dead: set<nat>, n: nat): (r: set<nat>)
    requires n < |g.pred|
  {
    set p | p in g.pred[n] && p < |g.root| && g.root[p] !in dead && g.root[p] != n :: g.root[p]
  }

  lemma LiveIsKept(g: Seg, topo: seq<nat>, k: nat, pred: seq<set<nat>>, root: seq<nat>, dead: set<nat>, n: nat)
    requires Pruning(g, topo, k, pred, root, dead) && n < |g.pred|
    ensures LivePreds(g.pred[n], root, n) == Others(g, dead, n)
  {
    assert NodeFormed(g, n);
    forall p | p in g.pred[n]
      ensures p < |root| && (root[p] != 0 <==> g.root[p] !in dead) && (root[p] != 0 ==> root[p] == g.root[p])
    {
      assert NodeFormed(g, p);
    }
  }

  /** The next component keeps its live predecessors or is deleted. */
  lemma PruneMore(g: Seg, topo: seq<nat>, k: nat, pred: seq<set<nat>>, root: seq<nat>, dead: set<nat>, del: set<nat>)
    requires Pruning(g, topo, k, pred, root, dead) && k < |topo| && TopoOk(g.np, g.pred, g.root, topo, del)
    requires AllPreserve(g.np, topo)
    ensures topo[k] < |pred| && topo[k] != 0 && pred[topo[k]] == g.pred[topo[k]]
    ensures var n, live := topo[k], LivePreds(pred[topo[k]], root, topo[k]);
      && (live != {} ==> Pruning(g, topo, k + 1, pred[n := live], root, dead))
      && (live == {} ==> Pruning(g, topo, k + 1, pred, UnionFind.Relabel(root, n, 0), dead + {n}))
  {
    var n := topo[k];
    assert TopoAt(g.np, g.pred, g.root, topo, k) && NodeFormed(g, n);
    assert n !in topo[..k];
    LiveIsKept(g, topo, k, pred, root, dead, n);
    var live := LivePreds(pred[n], root, n);
    if live != {} {
      PruneKeep(g, topo, k, pred, root, dead, live);
    } else {
      PruneDrop(g, topo, k, pred, root, dead, del);
    }
  }

  lemma PruneKeep(g: Seg, topo: seq<nat>, k: nat, pred: seq<set<nat>>, root: seq<nat>, dead: set<nat>, live: set<nat>)
    requires Pruning(g, topo, k, pred, root, dead) && k < |topo| && topo[k] < |pred| && topo[k] !in topo[..k]
    requires live == Others(g, dead, topo[k]) && live != {}
    ensures Pruning(g, topo, k + 1, pred[topo[k] := live], root, dead)
  {
    var n, pred' := topo[k], pred[topo[k] := live];
    assert topo[..k + 1] == topo[..k] + [n];
    forall j | 0 <= j < k + 1
      ensures PrunedStep(g, topo, pred', dead, j)
    {
      if j < k {
        assert PrunedStep(g, topo, pred, dead, j) && topo[..k][j] == topo[j];
      }
    }
  }

  lemma PruneDrop(g: Seg, topo: seq<nat>, k: nat, pred: seq<set<nat>>, root: seq<nat>, dead: set<nat>, del: set<nat>)
    requires Pruning(g, topo, k, pred, root, dead) && k < |topo| && TopoOk(g.np, g.pred, g.root, topo, del) && AllPreserve(g.np, topo)
    requires topo[k] < |pred| && topo[k] !in topo[..k] && pred[topo[k]] == g.pred[topo[k]]
    requires LivePreds(pred[topo[k]], root, topo[k]) == {}
    ensures Pruning(g, topo, k + 1, pred, UnionFind.Relabel(root, topo[k], 0), dead + {topo[k]})
  {
    var n := topo[k];
    assert topo[..k + 1] == topo[..k] + [n];
    AllDead(g, topo, k, pred, root, dead, n);
    forall j | 0 <= j < k + 1
      ensures PrunedStep(g, topo, pred, dead + {n}, j)
    {
      if j < k {
        assert PrunedStep(g, topo, pred, dead, j);
        LaterIsNoPred(g, topo, del, j, k);
        DropStep(g, topo, pred, dead, n, j);
      }
    }
    hide PrunedStep, TopoOk, LivePreds;
    assert 0 < topo[k];
    forall v | 0 <= v < |root|
      ensures UnionFind.Relabel(root, n, 0)[v] == if g.root[v] in dead + {n} then 0 else g.root[v]
    {
    }
  }

  lemma AllDead(g: Seg, topo: seq<nat>, k: nat, pred: seq<set<nat>>, root: seq<nat>, dead: set<nat>, n: nat)
    requires Pruning(g, topo, k, pred, root, dead) && n < |pred| && pred[n] == g.pred[n] && LivePreds(pred[n], root, n) == {}
    ensures forall p :: p in g.pred[n] ==> p < |g.root| && g.root[p] in dead + {n}
  {
    hide PrunedStep, LivePreds;
    assert NodeFormed(g, n);
    forall p | p in g.pred[n]
      ensures p < |g.root| && g.root[p] in dead + {n}
    {
      assert NodeFormed(g, p);
      LiveListed(pred[n], root, n, p);
    }
  }

  lemma LiveListed(ps: set<nat>, root: seq<nat>, n: nat, p: nat)
    requires p in ps && p < |root|
    ensures root[p] == 0 || root[p] == n || root[p] in LivePreds(ps, root, n)
  {
    if root[p] != 0 && root[p] != n {
      assert p in ps && p < |root| && root[p] in LivePreds(ps, root, n);
    }
  }

  lemma DropStep(g: Seg, topo: seq<nat>, pred: seq<set<nat>>, dead: set<nat>, n: nat, j: nat)
    requires Formed(g) && |pred| == |g.np| && j < |topo| && PrunedStep(g, topo, pred, dead, j) && topo[j] != n
    requires forall p :: p in g.pred[topo[j]] && p < |g.root| ==> g.root[p] != n
    ensures PrunedStep(g, topo, pred, dead + {n}, j)
  {
    assert NodeFormed(g, topo[j]);
    OthersStay(g, dead, n, topo[j]);
  }

  lemma OthersStay(g: Seg, dead: set<nat>, n: nat, m: nat)
    requires m < |g.pred| && forall p :: p in g.pred[m] && p < |g.root| ==> g.root[p] != n
    ensures Others(g, dead + {n}, m) == Others(g, dead, m)
  {
    forall x
      ensures x in Others(g, dead + {n}, m) <==> x in Others(g, dead, m)
    {
    }
  }

  /** A later component does not feed an earlier one. */
  lemma LaterIsNoPred(g: Seg, topo: seq<nat>, del: set<nat>, j: nat, k: nat)
    requires Formed(g) && TopoOk(g.np, g.pred, g.root, topo, del) && j < k < |topo| && AllPreserve(g.np, topo)
    ensures topo[j] < |g.pred| && forall p :: p in g.pred[topo[j]] && p < |g.root| ==> g.root[p] != topo[k]
  {
    assert TopoAt(g.np, g.pred, g.root, topo, j);
    assert 0 < topo[j] < |g.np| && !g.np[topo[k]];
    forall p | p in g.pred[topo[j]] && p < |g.root|
      ensures g.root[p] != topo[k]
    {
      assert NodeFormed(g, p);
      if !g.np[p] {
        assert Earlier(g.root, topo, p, j + 1);
      }
    }
  }

  lemma PruneStart(g: Seg, topo: seq<nat>)
    requires Formed(g) && AllKept(g)
    ensures Pruning(g, topo, 0, g.pred, g.root, {})
  {
  }

  // When all are dealt with.

  lemma PruneEnd(g: Seg, topo: seq<nat>, pred: seq<set<nat>>, root: seq<nat>, dead: set<nat>, del: set<nat>)
    requires Pruning(g, topo, |topo|, pred, root, dead) && TopoOk(g.np, g.pred, g.root, topo, del)
    requires AllPreserve(g.np, topo) && AllClosed(g.np, g.root, topo)
    ensures Pruned(g, Seg(g.np, pred, root), dead)
  {
    var g' := Seg(g.np, pred, root);
    assert topo[..|topo|] == topo;
    forall v | 0 <= v < |root|
      ensures NodeFormed(g', v)
    {
      PrunedFormed(g, topo, pred, root, dead, v);
    }
    forall n | n in dead
      ensures Live(g, n) && !g.np[n] && forall p :: p in g.pred[n] ==> p < |g.root| && g.root[p] in dead
    {
      var j :| 0 <= j < |topo| && topo[j] == n;
      assert PrunedStep(g, topo, pred, dead, j) && TopoAt(g.np, g.pred, g.root, topo, j);
    }
    forall n | Live(g, n)
      ensures g.np[n] ==> pred[n] == g.pred[n]
      ensures !g.np[n] && n !in dead ==> PrunedAt(g, g', dead, n)
    {
      assert NodeFormed(g, n);
      if g.np[n] {
        NotListed(g.np, topo, n);
      } else {
        var j :| 0 <= j < |topo| && topo[j] == g.root[n];
        assert PrunedStep(g, topo, pred, dead, j);
      }
    }
  }

  lemma NotListed(np: seq<bool>, topo: seq<nat>, n: nat)
    requires AllPreserve(np, topo) && n < |np| && np[n]
    ensures n !in topo
  {
  }

  lemma PrunedFormed(g: Seg, topo: seq<nat>, pred: seq<set<nat>>, root: seq<nat>, dead: set<nat>, v: nat)
    requires Pruning(g, topo, |topo|, pred, root, dead) && AllPreserve(g.np, topo) && v < |root|
    ensures NodeFormed(Seg(g.np, pred, root), v)
  {
    assert topo[..|topo|] == topo;
    assert NodeFormed(g, v) && NodeFormed(g, 0) && NodeFormed(g, g.root[v]);
    assert 0 !in dead;
    if g.np[v] {
      NotListed(g.np, topo, v);
    }
    if v in topo && v !in dead {
      var j :| 0 <= j < |topo| && topo[j] == v;
      assert PrunedStep(g, topo, pred, dead, j);
      forall q | q in pred[v]
        ensures 0 < q < |root|
      {
        var p :| p in g.pred[v] && p < |g.root| && g.root[p] !in dead && g.root[p] != v && q == g.root[p];
        assert NodeFormed(g, p);
      }
    } else if v in dead {
      var j :| 0 <= j < |topo| && topo[j] == v;
      assert PrunedStep(g, topo, pred, dead, j);
    }
  }

  /** Something reaches every preserving node that is left. */
  lemma {:induction false} KeptIsReached(g: Seg, d: Flow, topo: seq<nat>, pred: seq<set<nat>>, root: seq<nat>, dead: set<nat>, del: set<nat>, j: nat)
    requires Pruning(g, topo, |topo|, pred, root, dead) && TopoOk(g.np, g.pred, g.root, topo, del) && AllPreserve(g.np, topo)
    requires IsFlow(g, d) && j < |topo| && topo[j] !in dead
    ensures topo[j] < |d| && d[topo[j]] != {}
    decreases j
  {
    var n := topo[j];
    assert PrunedStep(g, topo, pred, dead, j) && TopoAt(g.np, g.pred, g.root, topo, j);
    assert 0 < n && Live(g, n) && FlowAt(g, d, n);
    var q :| q in pred[n];
    var p :| p in g.pred[n] && p < |g.root| && g.root[p] !in dead && g.root[p] != n && q == g.root[p];
    assert NodeFormed(g, p) && Fed(g, d, n, q);
    if !g.np[q] {
      assert !g.np[p] && Earlier(g.root, topo, p, j + 1);
      var i :| 0 <= i < j + 1 && i < |topo| && g.root[p] == topo[i];
      KeptIsReached(g, d, topo, pred, root, dead, del, i);
    }
  }

  // Absorbing.

  /** A predecessor that does not preserve, or is a component before `k`. */
  ghost predicate Before(np: seq<bool>, topo: seq<nat>, r: nat, k: nat) {
    0 < r < |np| && (np[r] || r in topo[..if k <= |topo| then k else |topo|])
  }

  /** Node `n` has several predecessors. */
  ghost predicate Several(g: Seg, n: nat) {
    n < |g.pred| && exists q, r :: q in g.pred[n] && r in g.pred[n] && q < |g.root| && r < |g.root| && g.root[q] != g.root[r]
  }

  /** The predecessors of a component that is left are live and come before
      it; components from `k` on have not been touched, and those before that
      are left have several predecessors. */
  ghost predicate Absorbing(g: Seg, topo: seq<nat>, k: nat) {
    && Formed(g) && k <= |topo| && AllPreserve(g.np, topo)
    && (forall i, j :: 0 <= i < j < |topo| ==> topo[i] != topo[j])
    && (forall j :: k <= j < |topo| ==> g.root[topo[j]] == topo[j] || g.root[topo[j]] == 0)
    && (forall j :: 0 <= j < |topo| && g.root[topo[j]] == topo[j] ==> FedBefore(g, topo, j))
    && (forall j :: 0 <= j < k && g.root[topo[j]] == topo[j] ==> Several(g, topo[j]))
  }

  ghost predicate FedBefore(g: Seg, topo: seq<nat>, j: nat)
    requires j < |topo| && topo[j] < |g.pred|
  {
    g.pred[topo[j]] != {} && forall p :: p in g.pred[topo[j]] ==> p < |g.root| && Before(g.np, topo, g.root[p], j)
  }

  lemma AbsorbStart(g: Seg, topo: seq<nat>, pred: seq<set<nat>>, root: seq<nat>, dead: set<nat>, del: set<nat>)
    requires Pruning(g, topo, |topo|, pred, root, dead) && TopoOk(g.np, g.pred, g.root, topo, del)
    requires AllPreserve(g.np, topo) && AllClosed(g.np, g.root, topo)
    ensures Absorbing(Seg(g.np, pred, root), topo, 0)
  {
    var g' := Seg(g.np, pred, root);
    PruneEnd(g, topo, pred, root, dead, del);
    assert topo[..|topo|] == topo;
    forall j | 0 <= j < |topo|
      ensures root[topo[j]] == topo[j] || root[topo[j]] == 0
      ensures root[topo[j]] != 0 ==> FedBefore(g', topo, j)
    {
      assert TopoAt(g.np, g.pred, g.root, topo, j) && PrunedStep(g, topo, pred, dead, j);
      if root[topo[j]] != 0 {
        forall q | q in pred[topo[j]]
          ensures q < |root| && Before(g.np, topo, root[q], j)
        {
          KeptBefore(g, topo, pred, root, dead, del, j, q);
        }
      }
    }
  }

  lemma KeptBefore(g: Seg, topo: seq<nat>, pred: seq<set<nat>>, root: seq<nat>, dead: set<nat>, del: set<nat>, j: nat, q: nat)
    requires Pruning(g, topo, |topo|, pred, root, dead) && TopoOk(g.np, g.pred, g.root, topo, del) && AllPreserve(g.np, topo)
    requires j < |topo| && topo[j] < |pred| && topo[j] !in dead && q in pred[topo[j]]
    ensures q < |root| && Before(g.np, topo, root[q], j)
  {
    var n := topo[j];
    assert PrunedStep(g, topo, pred, dead, j);
    var p :| p in g.pred[n] && p < |g.root| && g.root[p] !in dead && g.root[p] != n && q == g.root[p];
    assert NodeFormed(g, n);
    PredBefore(g, topo, del, j, p);
    assert root[q] == q by { assert NodeFormed(g, p); }
  }

  /** A predecessor outside a component comes before it. */
  lemma PredBefore(g: Seg, topo: seq<nat>, del: set<nat>, j: nat, p: nat)
    requires Formed(g) && TopoOk(g.np, g.pred, g.root, topo, del) && AllPreserve(g.np, topo) && AllKept(g)
    requires j < |topo| && topo[j] < |g.pred| && p in g.pred[topo[j]] && 0 < p < |g.root| && g.root[p] != topo[j]
    ensures Before(g.np, topo, g.root[p], j)
  {
    assert TopoAt(g.np, g.pred, g.root, topo, j) && NodeFormed(g, p);
    if !g.np[g.root[p]] {
      assert Earlier(g.root, topo, p, j + 1);
      var i :| 0 <= i < j + 1 && i < |topo| && g.root[p] == topo[i];
      assert i < j && topo[..j][i] == g.root[p];
    }
  }

  /** Leaving a component as it is. */
  lemma AbsorbSkip(g: Seg, topo: seq<nat>, k: nat)
    requires Absorbing(g, topo, k) && k < |topo| && (g.root[topo[k]] == 0 || Several(g, topo[k]))
    ensures Absorbing(g, topo, k + 1)
  {
  }

  lemma AbsorbOne(g: Seg, topo: seq<nat>, k: nat, p: nat)
    requires Absorbing(g, topo, k) && k < |topo| && g.root[topo[k]] != 0 && Before(g.np, topo, p, k) && g.root[p] == p
    requires forall q :: q in g.pred[topo[k]] ==> q < |g.root| && g.root[q] == p
    requires exists q :: q in g.pred[topo[k]]
    ensures var g' := g.(root := UnionFind.Relabel(g.root, topo[k], p));
      Absorbed(g, g', topo[k], p) && Absorbing(g', topo, k + 1)
  {
    var n, g' := topo[k], g.(root := UnionFind.Relabel(g.root, topo[k], p));
    assert topo[k] != 0 && NodeFormed(g, n);
    assert p != n by { BeforeIsOther(g.np, topo, p, k); }
    forall v | 0 <= v < |g.root|
      ensures NodeFormed(g', v)
    {
      assert NodeFormed(g, v) && NodeFormed(g, p);
    }
    forall j | 0 <= j < |topo| && g'.root[topo[j]] == topo[j]
      ensures FedBefore(g', topo, j) && (j < k + 1 ==> Several(g', topo[j]))
    {
      AbsorbOther(g, g', topo, k, p, j);
    }
  }

  lemma AbsorbOther(g: Seg, g': Seg, topo: seq<nat>, k: nat, p: nat, j: nat)
    requires Absorbing(g, topo, k) && j < |topo| && k < |topo| && Before(g.np, topo, p, k) && p != topo[k] && g.root[p] == p
    requires g' == g.(root := UnionFind.Relabel(g.root, topo[k], p)) && g'.root[topo[j]] == topo[j] && g.root[topo[k]] == topo[k]
    ensures FedBefore(g', topo, j) && (j < k + 1 ==> Several(g', topo[j]))
  {
  }

  lemma BeforeIsOther(np: seq<bool>, topo: seq<nat>, p: nat, k: nat)
    requires Before(np, topo, p, k) && k < |topo| && AllPreserve(np, topo) && forall i, j :: 0 <= i < j < |topo| ==> topo[i] != topo[j]
    ensures p != topo[k]
  {
  }

  // What the steps keep of every node.

  /** A node was deleted exactly if it preserves and nothing reaches it. */
  ghost predicate Undefined(np: seq<bool>, d: Flow, root1: seq<nat>, root: seq<nat>, v: nat) {
    && v < |np| == |d| == |root1| == |root| && root1[v] < |d|
    && (root[v] == 0 <==> !np[root1[v]] && d[root1[v]] == {})
    && (root[v] != 0 ==> root[v] == root1[v])
  }

  lemma UndefinedExactly(g: Seg, d: Flow, topo: seq<nat>, pred: seq<set<nat>>, root: seq<nat>, dead: set<nat>, del: set<nat>, v: nat)
    requires Pruning(g, topo, |topo|, pred, root, dead) && TopoOk(g.np, g.pred, g.root, topo, del)
    requires AllPreserve(g.np, topo) && AllClosed(g.np, g.root, topo) && LeastFlow(g, d) && 0 < v < |g.np|
    requires forall n :: n in dead ==> n < |d| && d[n] == {}
    ensures Undefined(g.np, d, g.root, root, v)
  {
    var r := g.root[v];
    assert NodeFormed(g, v) && NodeFormed(g, r);
    assert topo[..|topo|] == topo;
    if g.np[r] {
      NotListed(g.np, topo, r);
    } else {
      var j :| 0 <= j < |topo| && topo[j] == g.root[r];
      if r !in dead {
        KeptIsReached(g, d, topo, pred, root, dead, del, j);
      }
    }
  }

  /** What comes out of a node comes out of what it was merged into. */
  ghost predicate SameOut(np: seq<bool>, d: Flow, before: seq<nat>, root: seq<nat>, v: nat) {
    && v < |np| == |d| == |before| == |root| && before[v] < |d| && root[v] < |d|
    && (root[v] == 0 <==> before[v] == 0) && (np[before[v]] ==> root[v] == before[v]) && (root[v] == v ==> before[v] == v)
    && OutOf(np, d, root[v]) == OutOf(np, d, before[v])
  }

  ghost function OutOf(np: seq<bool>, d: Flow, r: nat): set<nat>
    requires r < |np| == |d|
  {
    if np[r] then {r} else d[r]
  }

  lemma SameOutSelf(g: Seg, d: Flow, v: nat)
    requires LeastFlow(g, d) && v < |g.root|
    ensures SameOut(g.np, d, g.root, g.root, v)
  {
    assert NodeFormed(g, v);
  }

  lemma SameOutAbsorbed(g: Seg, d: Flow, g': Seg, n: nat, p: nat, before: seq<nat>, v: nat)
    requires Absorbed(g, g', n, p) && |d| == |g.np| && d[n] == Out(g, d, p)
    requires SameOut(g.np, d, before, g.root, v)
    ensures SameOut(g.np, d, before, g'.root, v)
  {
  }

  lemma AbsorbFacts(g: Seg, topo: seq<nat>, k: nat)
    requires Absorbing(g, topo, k) && k < |topo|
    ensures |g.np| == |g.pred| == |g.root| && 0 < topo[k] < |g.root|
    ensures g.root[topo[k]] == topo[k] || g.root[topo[k]] == 0
  {
  }

  lemma LeastSizes(g: Seg, d: Flow)
    requires LeastFlow(g, d)
    ensures Formed(g) && |g.np| == |g.pred| == |g.root| == |d|
  {
  }

  lemma AbsorbEnd(g: Seg, topo: seq<nat>)
    requires Absorbing(g, topo, |topo|)
    ensures forall j :: 0 <= j < |topo| && topo[j] < |g.root| && g.root[topo[j]] == topo[j] ==> Several(g, topo[j])
    ensures FedInOrder(g, topo)
  {
  }

  /** The preserving nodes of `topo` that are left are only fed by nodes that do
      not preserve and by earlier ones. */
  ghost predicate FedInOrder(g: Seg, topo: seq<nat>) {
    && (forall i, j :: 0 <= i < j < |topo| ==> topo[i] != topo[j])
    && (forall j :: 0 <= j < |topo| ==> topo[j] < |g.pred| && topo[j] < |g.root|)
    && (forall j :: 0 <= j < |topo| && g.root[topo[j]] == topo[j] ==> FedBefore(g, topo, j))
  }

  /** No preserving nodes that are left lie on a cycle: all of them can be put
      in such an order. */
  ghost predicate Acyclic(g: Seg) {
    |g.np| <= |g.root| && exists topo :: FedInOrder(g, topo) && forall v :: 0 < v < |g.np| && !g.np[v] && g.root[v] == v ==> v in topo
  }

  /** What the whole reduction keeps of node `v`: it is deleted exactly if it
      preserves and nothing reaches it; otherwise what comes out of it comes
      out of the node it was merged into. */
  ghost predicate KeptNode(np: seq<bool>, d: Flow, root: seq<nat>, v: nat) {
    && v < |np| == |d| == |root| && root[v] < |d|
    && (root[v] == 0 <==> !np[v] && d[v] == {})
    && (root[v] != 0 ==> OutOf(np, d, root[v]) == OutOf(np, d, v))
    && (np[v] ==> root[v] == v)
  }

  lemma NodeKept(np: seq<bool>, d: Flow, root1: seq<nat>, root2: seq<nat>, root: seq<nat>, v: nat)
    requires SameFlow(d, root1, v) && ZeroApart(np, root1, v) && Undefined(np, d, root1, root2, v) && SameOut(np, d, root2, root, v) && 0 < v
    ensures KeptNode(np, d, root, v)
  {
  }
}
