/** Collapsing cycles of preserving nodes, in the order in which later steps
    visit them. */
module SparseSearch {
  import opened Tarjan
  import opened SparseGraph
  import O = OfflineGraph
  import Q = OfflineSearch
  import C = OfflineCollapse

  /** The preserving predecessors of each representative. */
  ghost function DirectOf(np: seq<bool>, pred: seq<set<nat>>, root: seq<nat>): (r: seq<set<nat>>)
    requires |np| == |pred| == |root|
  {
    seq(|np|, v requires 0 <= v < |np| => if root[v] == v then PreservingOf(np, pred[v]) else {})
  }

  ghost function PreservingOf(np: seq<bool>, ps: set<nat>): set<nat> {
    set p | p in ps && p < |np| && !np[p]
  }

  ghost function None(n: nat): seq<set<nat>> {
    seq(n, i => {})
  }

  ghost function Always(n: nat): seq<bool> {
    seq(n, i => true)
  }

  /** The preserving nodes as a graph in which every component gets a label of
      its own. */
  ghost function GraphOf(g: Seg): O.Graph
    requires Formed(g)
  {
    O.Graph(DirectOf(g.np, g.pred, g.root), None(|g.np|), None(|g.np|), Always(|g.np|))
  }

  ghost predicate Fresh(g: Seg) {
    Formed(g) && g.pred[0] == {} && forall v :: 0 <= v < |g.root| ==> g.root[v] == v
  }

  lemma FlowFits(g: Seg, d: Flow)
    requires Fresh(g) && IsFlow(g, d)
    ensures O.Fits(GraphOf(g), d, map[])
  {
    var og := GraphOf(g);
    forall v | 0 <= v < |g.np|
      ensures O.EdgesFormed(og, v) && forall w :: w in O.Succ(og, v) && w < |d| ==> d[w] <= d[v]
    {
      assert NodeFormed(g, v);
      if v > 0 {
        assert Live(g, v) && FlowAt(g, d, v);
      }
    }
    forall v | 0 <= v < |g.np|
      ensures O.FitsAt(og, d, map[], v)
    {
    }
  }

  // What the search keeps besides.

  /** What a representative has as predecessors, and where they come from. */
  ghost predicate PredOk(g: Seg, pred: seq<set<nat>>, root: seq<nat>) {
    && |g.pred| == |pred| == |root|
    && (forall v :: 0 <= v < |root| ==> root[v] < |root| && root[root[v]] == root[v] && g.pred[v] <= pred[root[v]])
    && (forall r, p :: 0 <= r < |root| && root[r] == r && p in pred[r] ==> Comes(g, root, r, p))
    && (forall v, p :: 0 <= v < |pred| && p in pred[v] ==> 0 < p < |pred|)
  }

  ghost predicate Comes(g: Seg, root: seq<nat>, r: nat, p: nat) {
    exists v :: 0 <= v < |root| && v < |g.pred| && root[v] == r && p in g.pred[v]
  }

  /** Only preserving nodes are visited and merged, and never node 0. */
  ghost predicate NpOk(np: seq<bool>, root: seq<nat>, num: seq<nat>) {
    && |np| == |root| == |num|
    && forall v :: 0 <= v < |np| && (np[v] || v == 0) ==> root[v] == v && num[v] == 0
  }

  /** The closed components in the order of closing: a preserving predecessor
      of one is part of it or of an earlier one. */
  ghost predicate TopoOk(np: seq<bool>, pred: seq<set<nat>>, root: seq<nat>, topo: seq<nat>, del: set<nat>) {
    && |np| == |pred| == |root|
    && (forall r :: r in del <==> r in topo)
    && (forall i, j :: 0 <= i < j < |topo| ==> topo[i] != topo[j])
    && (forall k :: 0 <= k < |topo| ==> TopoAt(np, pred, root, topo, k))
  }

  ghost predicate TopoAt(np: seq<bool>, pred: seq<set<nat>>, root: seq<nat>, topo: seq<nat>, k: nat)
    requires |np| == |pred| == |root| && k < |topo|
  {
    && topo[k] < |root| && root[topo[k]] == topo[k]
    && forall p :: p in pred[topo[k]] ==> p < |np| && (!np[p] ==> Earlier(root, topo, p, k + 1))
  }

  /** Node `p` was merged into one of the first `k` of `topo`. */
  ghost predicate Earlier(root: seq<nat>, topo: seq<nat>, p: nat, k: nat) {
    p < |root| && exists j :: 0 <= j < k && j < |topo| && root[p] == topo[j]
  }

  lemma PredMerged(g: Seg, pred: seq<set<nat>>, root: seq<nat>, root': seq<nat>, a: nat, b: nat)
    requires PredOk(g, pred, root) && a < |root| && b < |root| && a != b && root[a] == a && root[b] == b
    requires |root'| == |root| && forall v :: 0 <= v < |root| ==> root'[v] == if root[v] == b then a else root[v]
    ensures PredOk(g, pred[a := pred[a] + pred[b]], root')
  {
  }

  /** One more closed component. */
  lemma TopoMore(np: seq<bool>, pred: seq<set<nat>>, root: seq<nat>, topo: seq<nat>, del: set<nat>,
    pred': seq<set<nat>>, root': seq<nat>, m: nat)
    requires TopoOk(np, pred, root, topo, del) && |pred'| == |root'| == |np| && m < |np| && m !in del && root'[m] == m
    requires forall v :: 0 <= v < |root| && root[v] in del ==> root'[v] == root[v]
    requires forall r :: r in del && r < |pred| ==> pred'[r] == pred[r]
    requires forall p :: p in pred'[m] ==> p < |np| && (!np[p] ==> root'[p] == m || root'[p] in del)
    ensures TopoOk(np, pred', root', topo + [m], del + {m})
  {
    var t' := topo + [m];
    forall k | 0 <= k < |t'|
      ensures TopoAt(np, pred', root', t', k)
    {
      if k < |topo| {
        assert TopoAt(np, pred, root, topo, k) && topo[k] in topo;
        forall p | p in pred'[t'[k]]
          ensures p < |np| && (!np[p] ==> Earlier(root', t', p, k + 1))
        {
          if !np[p] {
            assert Earlier(root, topo, p, k + 1);
            var j :| 0 <= j < k + 1 && j < |topo| && root[p] == topo[j];
            assert topo[j] in topo && t'[j] == topo[j];
          }
        }
      } else {
        forall p | p in pred'[m] && p < |np| && !np[p]
          ensures Earlier(root', t', p, k + 1)
        {
          if root'[p] != m {
            var j :| 0 <= j < |topo| && topo[j] == root'[p];
            assert t'[j] == root'[p];
          } else {
            assert t'[k] == m;
          }
        }
      }
    }
  }

  /** Where the preserving predecessors of a collapsed component are. */
  lemma ComponentPred(g: Seg, d: Flow, s0: O.Off, s: O.Off, t0: Search, t: Search, n: nat, m: nat, pred: seq<set<nat>>, p: nat)
    requires Formed(g) && C.AtRoot(GraphOf(g), d, s0, t0, t, n)
    requires C.Popped(GraphOf(g), s0, s, t, n, |t0.stack|, |t0.stack|, m)
    requires |pred| == |s.root| == |g.np| && s.direct == DirectOf(g.np, pred, s.root) && s.root[m] == m
    requires p in pred[m] && p < |g.np| && !g.np[p]
    ensures s.root[p] == m || s.root[p] in s0.roots
  {
    hide C.AtRoot;
    var og, c := GraphOf(g), Component(t, n, |t0.stack|);
    assert p in s.direct[m];
    var v :| v in c && v < |og.direct| && p in og.direct[v];
    C.MergedEdge(og, d, s0, s, t0, t, n, m, v, p);
  }

  lemma CloseTopo(g: Seg, d: Flow, s0: O.Off, s: O.Off, t0: Search, t: Search, n: nat, m: nat,
    pred0: seq<set<nat>>, pred: seq<set<nat>>, topo: seq<nat>)
    requires Formed(g) && C.AtRoot(GraphOf(g), d, s0, t0, t, n)
    requires C.Popped(GraphOf(g), s0, s, t, n, |t0.stack|, |t0.stack|, m)
    requires |pred| == |s.root| == |g.np| && s.direct == DirectOf(g.np, pred, s.root) && PredOk(g, pred, s.root)
    requires TopoOk(g.np, pred0, s0.root, topo, s0.roots)
    requires forall r :: r in s0.roots && r < |pred0| ==> pred[r] == pred0[r]
    ensures TopoOk(g.np, pred, s.root, topo + [m], s0.roots + {m})
  {
    hide GraphOf, DirectOf, TopoOk, C.Gathered;
    C.MemberTied(GraphOf(g), d, s0, t0, t, n, m);
    hide C.AtRoot;
    forall v | 0 <= v < |s.root|
      ensures s0.root[v] in s0.roots ==> s.root[v] == s0.root[v]
    {
      C.OutsideAt(GraphOf(g), d, s0, s, t0, t, n, m, v);
    }
    forall p | p in pred[m]
      ensures p < |g.np| && (!g.np[p] ==> s.root[p] == m || s.root[p] in s0.roots)
    {
      assert PredOk(g, pred, s.root);
      if !g.np[p] {
        ComponentPred(g, d, s0, s, t0, t, n, m, pred, p);
      }
    }
    TopoMore(g.np, pred0, s0.root, topo, s0.roots, pred, s.root, m);
  }

  lemma PoppedTables(g: Seg, s0: O.Off, s: O.Off, t: Search, n: nat, base: nat, m: nat)
    requires Formed(g) && C.Popped(GraphOf(g), s0, s, t, n, base, base, m)
    ensures s.roots == s0.roots && s.next == s0.next && s.mean == s0.mean
  {
  }

  /** The label of a component is the place at which it was closed. */
  lemma LabelFresh(s: O.Off, m: nat, b: set<nat>) returns (s': O.Off)
    requires O.Ripe(s, m, b) && 0 < s.next && s.indirect[m]
    ensures s' == s.(next := s.next + 1, mean := s.mean[s.next := b]) && O.Ripened(s, m, b, s', {s.next})
  {
    s' := s.(next := s.next + 1, mean := s.mean[s.next := b]);
    O.RipenIndirect(s, m, b, s', s.labels[m] + O.Incoming(s, m, s.direct[m]), {s.next});
  }

  /** A component is closed under its fresh label. */
  lemma ComponentListed(g: Seg, d: Flow, s0: O.Off, s: O.Off, t0: Search, t: Search, n: nat, m: nat) returns (s1: O.Off)
    requires Formed(g) && C.AtRoot(GraphOf(g), d, s0, t0, t, n) && C.Popped(GraphOf(g), s0, s, t, n, |t0.stack|, |t0.stack|, m)
    requires 0 < s.next && forall v :: 0 <= v < |s.indirect| ==> s.indirect[v]
    ensures m < |s.root| == |s.labels| == |s.indirect| && s1 == s.(next := s.next + 1, mean := s1.mean)
    ensures n < |d| && s1.mean == s.mean[s.next := d[n]] && s.roots == s0.roots && s.next == s0.next && s.mean == s0.mean
    ensures Q.Visited(GraphOf(g), d, C.Closed(s1, m, {s.next}), t0, Close(t, n, |t0.stack|), n)
  {
    hide C.AtRoot, C.Popped, O.Ripe, O.Ripened, Q.Visited, Formed, GraphOf, C.Closed;
    C.PoppedRipe(GraphOf(g), d, s0, s, t0, t, n, m);
    C.PoppedSizes(GraphOf(g), s0, s, t, n, |t0.stack|, |t0.stack|, m);
    PoppedTables(g, s0, s, t, n, |t0.stack|, m);
    s1 := LabelFresh(s, m, d[n]);
    C.ExploreClosed(GraphOf(g), d, s0, s, t0, t, n, m, s1, {s.next});
  }

  /** Which edges the search follows. */
  lemma EdgesToFollow(g: Seg, d: Flow, s: O.Off, t0: Search, t: Search, n: nat, done: set<nat>, pred: seq<set<nat>>)
    requires Formed(g) && Q.Exploring(GraphOf(g), d, s, t0, t, n, done)
    requires |pred| == |g.np| && s.direct == DirectOf(g.np, pred, s.root)
    ensures n < |pred| && PreservingOf(g.np, pred[n]) == Q.SuccOf(GraphOf(g), n)
  {
    hide DirectOf, PreservingOf;
    Q.ExploringFacts(GraphOf(g), d, s, t0, t, n, done);
    assert NodeFormed(g, n);
    Q.ExploringOk(GraphOf(g), d, s, t0, t, n, done);
    OpenSelf(g, d, s, t0, t, n, done);
    DirectAt(g.np, pred, s.root, n);
  }

  lemma OpenSelf(g: Seg, d: Flow, s: O.Off, t0: Search, t: Search, n: nat, done: set<nat>)
    requires Formed(g) && Q.Exploring(GraphOf(g), d, s, t0, t, n, done)
    ensures n < |s.root| && s.root[n] == n
  {
    Q.OpenNum(GraphOf(g), d, s, t, n);
  }

  lemma DirectAt(np: seq<bool>, pred: seq<set<nat>>, root: seq<nat>, n: nat)
    requires |np| == |pred| == |root| && n < |np| && root[n] == n
    ensures DirectOf(np, pred, root)[n] == PreservingOf(np, pred[n])
  {
  }

  /** Only preserving nodes are on the stack. */
  lemma MembersPreserve(g: Seg, d: Flow, s0: O.Off, s: O.Off, t0: Search, t: Search, n: nat, j: nat, m: nat, num: seq<nat>)
    requires Formed(g) && C.AtRoot(GraphOf(g), d, s0, t0, t, n) && t.num == num && NpOk(g.np, s.root, num)
    requires C.Popped(GraphOf(g), s0, s, t, n, |t0.stack|, j, m) && |t0.stack| < j
    ensures 0 < m < |g.np| && !g.np[m] && 0 < t.stack[j - 1] < |g.np| && !g.np[t.stack[j - 1]]
    ensures m !in s0.roots && t.stack[j - 1] !in s0.roots
  {
    var v := t.stack[j - 1];
    PopsAreMembers(t, n, |t0.stack|, j);
    C.MemberVisited(GraphOf(g), d, s0, t0, t, n, m);
    C.MemberVisited(GraphOf(g), d, s0, t0, t, n, v);
    C.MemberTied(GraphOf(g), d, s0, t0, t, n, m);
    C.MemberTied(GraphOf(g), d, s0, t0, t, n, v);
    hide C.AtRoot, GraphOf;
  }

  /** A node and its representative are of the same kind. */
  lemma SameKind(g: Seg, d: Flow, s: O.Off, t: Search, v: nat)
    requires Formed(g) && O.OffOk(GraphOf(g), d, s, t) && NpOk(g.np, s.root, t.num) && v < |g.np|
    ensures v < |s.root| == |g.np| && s.root[v] < |g.np| && (g.np[s.root[v]] <==> g.np[v]) && (s.root[v] == 0 <==> v == 0)
  {
    hide O.FitsAt, O.EdgesFormed, O.TableOk, NodeOk, PairOk, O.Labelled, DirectOf;
    assert Settled(s.root, t, s.roots, v) && O.NodeState(GraphOf(g), d, s, t, v);
    assert Settled(s.root, t, s.roots, s.root[v]);
  }

  lemma PreservingMore(np: seq<bool>, ps: set<nat>, p: nat)
    requires p < |np|
    ensures PreservingOf(np, ps + {p}) == PreservingOf(np, ps) + if np[p] then {} else {p}
  {
  }

  // After the search.

  /** Every preserving node is in a closed component. */
  ghost predicate AllClosed(np: seq<bool>, root: seq<nat>, topo: seq<nat>) {
    |np| == |root| && forall v :: 0 < v < |np| && !np[v] ==> root[v] in topo
  }

  ghost predicate SameFlow(d: Flow, root: seq<nat>, v: nat) {
    v < |d| == |root| && root[v] < |d| && d[v] == d[root[v]]
  }

  lemma SearchEnd(g: Seg, d: Flow, s: O.Off, t: Search, topo: seq<nat>)
    requires Formed(g) && O.OffOk(GraphOf(g), d, s, t) && t.path == {} && t.stack == []
    requires forall v :: 0 < v < |t.num| && v < |g.np| && !g.np[v] ==> t.num[v] > 0
    requires forall r :: r in s.roots <==> r in topo
    ensures AllClosed(g.np, s.root, topo)
    ensures |s.root| == |g.np| == |d| && forall v :: 0 <= v < |g.np| ==> SameFlow(d, s.root, v)
  {
    hide O.FitsAt, O.EdgesFormed, O.TableOk, NodeOk, PairOk, O.Worth, DirectOf;
    forall v | 0 <= v < |g.np|
      ensures SameFlow(d, s.root, v)
      ensures 0 < v && !g.np[v] ==> s.root[v] in topo
    {
      assert Settled(s.root, t, s.roots, v) && O.NodeState(GraphOf(g), d, s, t, v);
      if s.root[v] in s.roots {
        assert Settled(s.root, t, s.roots, s.root[v]) && O.NodeState(GraphOf(g), d, s, t, s.root[v]);
      }
    }
  }

  /** Collapsing merges nodes of equal flow only. */
  lemma CollapsedMerges(g: Seg, d: Flow, pred: seq<set<nat>>, root: seq<nat>)
    requires Fresh(g) && IsFlow(g, d) && PredOk(g, pred, root)
    requires |root| == |g.np| && forall v :: 0 <= v < |g.np| ==> SameFlow(d, root, v) && ZeroApart(g.np, root, v)
    ensures MergedInto(g, d, Seg(g.np, pred, root)) && AllKept(Seg(g.np, pred, root))
  {
    var g' := Seg(g.np, pred, root);
    forall v | 0 <= v < |g.np|
      ensures NodeFormed(g', v) && (0 < v ==> root[v] != 0)
    {
      assert NodeFormed(g, v) && ZeroApart(g.np, root, v);
    }
    assert Formed(g');
    forall v | 0 < v < |g.root|
      ensures MergedAt(g, d, g', v)
    {
      assert NodeFormed(g, v) && ZeroApart(g.np, root, v) && SameFlow(d, root, v);
    }
    forall r, p | Live(g', r) && p in g'.pred[r]
      ensures exists v: nat :: FromMember(g, g', r, p, v)
    {
      assert Comes(g, root, r, p);
      var v :| 0 <= v < |root| && v < |g.pred| && root[v] == r && p in g.pred[v];
      assert FromMember(g, g', r, p, v);
    }
  }

  /** Node 0 is on its own, and so are non-preserving nodes. */
  ghost predicate ZeroApart(np: seq<bool>, root: seq<nat>, v: nat) {
    v < |np| == |root| && root[v] < |np| && (root[v] == 0 <==> v == 0) && (np[root[v]] <==> np[v]) && (np[v] ==> root[v] == v)
  }

  ghost predicate InNodes(np: seq<bool>, ps: set<nat>) {
    forall p :: p in ps ==> p < |np|
  }

  lemma EdgePreserves(g: Seg, i: nat, n: nat)
    requires Formed(g) && i in Q.SuccOf(GraphOf(g), n)
    ensures i < |g.np| && !g.np[i]
  {
  }

  lemma GraphSize(g: Seg)
    requires Formed(g)
    ensures |GraphOf(g).direct| == |g.np|
  {
  }

  /** A node that is not its own representative was visited. */
  lemma MergedIsVisited(g: Seg, d: Flow, s: O.Off, t: Search, v: nat)
    requires Formed(g) && O.OffOk(GraphOf(g), d, s, t) && v < |g.np| && v < |t.low|
    ensures v < |s.root| && v < |t.num| && (s.root[v] != v || t.low[v] != 0 ==> t.num[v] > 0)
  {
    hide O.FitsAt, O.EdgesFormed, O.TableOk, NodeOk, PairOk, O.Labelled, DirectOf;
    assert Settled(s.root, t, s.roots, v) && O.NodeState(GraphOf(g), d, s, t, v);
  }

  lemma T4Ends(g: Seg, d: Flow, s: O.Off, t: Search, pred: seq<set<nat>>, topo: seq<nat>)
    requires Fresh(g) && IsFlow(g, d) && O.OffOk(GraphOf(g), d, s, t) && t.path == {} && t.stack == []
    requires PredOk(g, pred, s.root) && NpOk(g.np, s.root, t.num) && TopoOk(g.np, pred, s.root, topo, s.roots)
    requires |t.num| == |g.np| && forall v :: 0 < v < |g.np| && !g.np[v] ==> t.num[v] > 0
    ensures AllClosed(g.np, s.root, topo) && AllPreserve(g.np, topo)
    ensures MergedInto(g, d, Seg(g.np, pred, s.root)) && AllKept(Seg(g.np, pred, s.root))
    ensures forall v :: 0 <= v < |g.np| ==> SameFlow(d, s.root, v) && ZeroApart(g.np, s.root, v)
  {
    hide O.OffOk, PredOk, GraphOf;
    SearchEnd(g, d, s, t, topo);
    forall j | 0 <= j < |topo|
      ensures 0 < topo[j] < |g.np| && !g.np[topo[j]]
    {
      assert topo[j] in topo;
      ListedVisited(g, d, s, t, topo[j]);
    }
    forall v | 0 <= v < |g.np|
      ensures ZeroApart(g.np, s.root, v)
    {
      ZeroIsApart(g, d, s, t, v);
    }
    CollapsedMerges(g, d, pred, s.root);
  }

  ghost predicate AllPreserve(np: seq<bool>, topo: seq<nat>) {
    forall j :: 0 <= j < |topo| ==> 0 < topo[j] < |np| && !np[topo[j]]
  }

  lemma ListedVisited(g: Seg, d: Flow, s: O.Off, t: Search, r: nat)
    requires Formed(g) && O.OffOk(GraphOf(g), d, s, t) && NpOk(g.np, s.root, t.num) && r in s.roots
    ensures 0 < r < |g.np| && !g.np[r]
  {
    hide O.NodeState, O.FitsAt, O.EdgesFormed, O.TableOk, NodeOk, PairOk, DirectOf;
    assert Settled(s.root, t, s.roots, r);
  }

  lemma ZeroIsApart(g: Seg, d: Flow, s: O.Off, t: Search, v: nat)
    requires Fresh(g) && O.OffOk(GraphOf(g), d, s, t) && NpOk(g.np, s.root, t.num) && v < |g.np|
    ensures ZeroApart(g.np, s.root, v)
  {
    hide O.OffOk, GraphOf;
    SameKind(g, d, s, t, v);
  }

  lemma FreshPredOk(g: Seg)
    requires Fresh(g)
    ensures PredOk(g, g.pred, g.root)
  {
    forall v, p | 0 <= v < |g.pred| && p in g.pred[v]
      ensures 0 < p < |g.pred| && Comes(g, g.root, v, p)
    {
      assert NodeFormed(g, v);
    }
  }

  lemma PredsInNodes(g: Seg, pred: seq<set<nat>>, root: seq<nat>, n: nat)
    requires PredOk(g, pred, root) && n < |pred| == |g.np|
    ensures InNodes(g.np, pred[n])
  {
  }
}
