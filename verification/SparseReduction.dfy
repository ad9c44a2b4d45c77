/** Reducing a sparse evaluation graph: collapse cycles of preserving nodes,
    delete nodes that nothing reaches, merge nodes with one predecessor. */
module SparseReduction {
  import opened Tarjan
  import opened SparseGraph
  import opened SparseSearch
  import opened SparsePruning
  import O = OfflineGraph
  import Q = OfflineSearch
  import C = OfflineCollapse
  import UnionFind

  lemma UniteView(np: seq<bool>, pred: seq<set<nat>>, root: seq<nat>, s: O.Off, p: nat, c: nat)
    requires |np| == |pred| == |root| == |s.labels| && p < |np| && c < |np| && p != c && root[p] == p && root[c] == c
    requires s.root == root && s.direct == DirectOf(np, pred, root) && s.implied == None(|np|) && s.indirect == Always(|np|)
    ensures |s.direct| == |s.implied| == |s.indirect| == |np|
    ensures var s', root' := C.Merged(s, p, c), UnionFind.Relabel(root, c, p);
      && s' == s.(root := s'.root, direct := s'.direct, labels := s.labels[p := s.labels[p] + s.labels[c]][c := {}])
      && s'.root == root' && s'.direct == DirectOf(np, pred[p := pred[p] + pred[c]], root')
      && s'.implied == None(|np|) && s'.indirect == Always(|np|)
  {
    var s', root' := C.Merged(s, p, c), UnionFind.Relabel(root, c, p);
    var pred' := pred[p := pred[p] + pred[c]];
    forall v | 0 <= v < |np|
      ensures s'.direct[v] == DirectOf(np, pred', root')[v]
      ensures s'.implied[v] == {} && s'.indirect[v]
    {
      if v == p {
        assert PreservingOf(np, pred'[p]) == PreservingOf(np, pred[p]) + PreservingOf(np, pred[c]);
      }
    }
  }

  /** Every node merged into `q` is merged into `p` instead. */
  function Redirect(root: seq<nat>, q: nat, p: nat): (r: seq<nat>)
    ensures r == UnionFind.Relabel(root, q, p)
  {
    seq(|root|, (i: nat) requires i < |root| => if root[i] == q then p else root[i])
  }

  class Reducer {
    const np: seq<bool>
    var pred: seq<set<nat>>
    /** The node each node was merged into, 0 if deleted. */
    var root: seq<nat>
    var rank: seq<nat>
    var dfs: seq<nat>
    var del: set<nat>
    var stack: seq<nat>
    var dfsNum: nat
    var topo: seq<nat>
    ghost const g: Seg
    ghost const d: Flow
    ghost var num: seq<nat>
    ghost var labels: seq<set<nat>>
    ghost var mean: O.Meaning
    ghost var when: map<nat, nat>

    ghost function S(): O.Off
      requires |np| == |pred| == |root|
      reads this
    {
      O.Off(root, DirectOf(np, pred, root), None(|np|), labels, Always(|np|), |topo| + 1, map[], del, mean, when)
    }

    ghost function T(path: set<nat>): Search
      reads this
    {
      Search(num, dfs, path, stack, dfsNum)
    }

    ghost predicate Valid()
      reads this
    {
      && Formed(g) && np == g.np && |np| == |pred| == |root| == |rank| == |labels| && 0 < dfsNum
      && PredOk(g, pred, root) && NpOk(np, root, num)
    }

    constructor (np: seq<bool>, pred: seq<set<nat>>, ghost g: Seg, ghost d: Flow)
      requires Fresh(g) && np == g.np && pred == g.pred && IsFlow(g, d)
      ensures this.g == g && this.d == d && this.np == np
      ensures Valid() && O.WellFormed(GraphOf(g)) && O.OffOk(GraphOf(g), d, S(), T({})) && stack == []
      ensures TopoOk(np, this.pred, root, topo, del) && topo == []
    {
      var n := |np|;
      this.np, this.pred := np, pred;
      root, rank, dfs := seq(n, i => i), seq(n, i => 0), seq(n, i => 0);
      del, stack, dfsNum, topo := {}, [], 1, [];
      this.g, this.d := g, d;
      num, labels, mean, when := seq(n, i => 0), None(n), map[], map[];
      new;
      FlowFits(g, d);
      assert root == g.root;
      C.SearchStart(GraphOf(g), d, S(), T({}));
      FreshPredOk(g);
      assert forall v :: 0 <= v < n ==> NodeFormed(g, v);
    }

    /** Unites two representatives; the one of greater rank becomes the parent,
        the first on a tie. */
    method Unite(a: nat, b: nat) returns (p: nat, ghost c: nat)
      requires Valid() && 0 < a < |root| && 0 < b < |root| && a != b && root[a] == a && root[b] == b && !np[a] && !np[b]
      modifies this`pred, this`root, this`rank, this`labels
      ensures Valid() && if old(rank[a] < rank[b]) then p == b && c == a else p == a && c == b
      ensures rank == old(if rank[a] == rank[b] then rank[a := rank[a] + 1] else rank)
      ensures p < |old(S()).direct| && c < |old(S()).direct| && |old(S()).direct| == |old(S()).implied| == |old(S()).labels| == |old(S()).indirect|
      ensures S() == C.Merged(old(S()), p, c)
      ensures pred == old(pred)[p := old(pred)[p] + old(pred)[c]]
    {
      hide Formed, DirectOf, C.Merged, PredOk;
      p := a;
      var q := b;
      if rank[a] < rank[b] {
        p, q := b, a;
      } else if rank[a] == rank[b] {
        rank := rank[a := rank[a] + 1];
      }
      c := q;
      UniteView(np, pred, root, S(), p, q);
      PredMerged(g, pred, root, UnionFind.Relabel(root, q, p), p, q);
      pred := pred[p := pred[p] + pred[q]];
      root := Redirect(root, q, p);
      labels := labels[p := labels[p] + labels[q]][q := {}];
    }

    /** Merges the component of `n`, the first visited of it. */
    method PopComponent(n: nat, myDfs: nat, ghost path: set<nat>, ghost t0: Search) returns (m: nat)
      requires Valid() && C.AtRoot(GraphOf(g), d, S(), t0, T(path + {n}), n)
      requires n < |num| && myDfs == num[n]
      modifies this`pred, this`root, this`rank, this`labels, this`stack
      ensures Valid() && |t0.stack| <= |old(stack)| && stack == old(stack)[..|t0.stack|]
      ensures C.Popped(GraphOf(g), old(S()), S(), old(T(path + {n})), n, |t0.stack|, |t0.stack|, m)
      ensures forall r :: r in del && r < |old(pred)| ==> r < |pred| && pred[r] == old(pred[r])
    {
      hide C.AtRoot, C.Popped, Component, C.Merged, Formed, PredOk, DirectOf, GraphOf;
      ghost var s0, t := S(), T(path + {n});
      ghost var base := |t0.stack|;
      C.PopStart(GraphOf(g), d, s0, t0, t, n);
      C.PopGuard(GraphOf(g), d, s0, t0, t, n, |stack|);
      m := n;
      while stack != [] && dfs[stack[|stack| - 1]] >= myDfs
        invariant stack != [] ==> stack[|stack| - 1] < |dfs| && (dfs[stack[|stack| - 1]] >= myDfs <==> base < |stack|)
        invariant Valid() && base <= |stack| <= |t.stack| && stack == t.stack[..|stack|]
        invariant C.Popped(GraphOf(g), s0, S(), t, n, base, |stack|, m)
        invariant forall r :: r in del && r < |old(pred)| ==> r < |pred| && pred[r] == old(pred[r])
        decreases |stack|
      {
        var j := |stack|;
        var n2 := stack[j - 1];
        C.PopNext(GraphOf(g), d, s0, S(), t0, t, n, j, m);
        MembersPreserve(g, d, s0, S(), t0, t, n, j, m, num);
        stack := stack[..j - 1];
        ghost var s, m0, child := S(), m, 0;
        m, child := Unite(m, n2);
        C.PopMerge(GraphOf(g), d, s0, s, t0, t, n, j, m0, m, child);
        C.PopGuard(GraphOf(g), d, s0, t0, t, n, j - 1);
      }
    }

    /** Merges the component of `n`, the first visited of it, and lists it. */
    method Collapse(n: nat, myDfs: nat, ghost path: set<nat>, ghost t0: Search)
      requires Valid() && C.AtRoot(GraphOf(g), d, S(), t0, T(path + {n}), n)
      requires n < |num| && myDfs == num[n] && n !in path && TopoOk(np, pred, root, topo, del)
      modifies this`pred, this`root, this`rank, this`labels, this`stack, this`del, this`topo, this`mean, this`when
      ensures Valid() && Q.Visited(GraphOf(g), d, S(), t0, T(path), n) && TopoOk(np, pred, root, topo, del)
    {
      hide C.AtRoot, C.Popped, O.Ripe, O.Ripened, Q.Visited, Formed, PredOk, DirectOf, GraphOf, TopoOk, NpOk, None, Always;
      ghost var s0, t, pred0 := S(), T(path + {n}), pred;
      var m := PopComponent(n, myDfs, path, t0);
      assert path + {n} - {n} == path;
      ListComponent(n, m, path, t0, s0, t, pred0);
    }

    /** Lists the component of `n`, which is merged into `m`. */
    method ListComponent(n: nat, m: nat, ghost path: set<nat>, ghost t0: Search, ghost s0: O.Off, ghost t: Search, ghost pred0: seq<set<nat>>)
      requires Valid() && C.AtRoot(GraphOf(g), d, s0, t0, t, n)
      requires C.Popped(GraphOf(g), s0, S(), t, n, |t0.stack|, |t0.stack|, m) && T(path) == Close(t, n, |t0.stack|)
      requires TopoOk(np, pred0, s0.root, topo, del) && (forall r :: r in del && r < |pred0| ==> pred[r] == pred0[r])
      modifies this`labels, this`del, this`topo, this`mean, this`when
      ensures Valid() && Q.Visited(GraphOf(g), d, S(), t0, T(path), n) && TopoOk(np, pred, root, topo, del)
    {
      hide C.AtRoot, C.Popped, O.Ripe, O.Ripened, Q.Visited, Formed, PredOk, DirectOf, GraphOf, TopoOk, NpOk, None;
      ghost var s := S();
      ghost var s1 := ComponentListed(g, d, s0, s, t0, t, n, m);
      CloseTopo(g, d, s0, s, t0, t, n, m, pred0, pred, topo);
      mean, labels := mean[|topo| + 1 := d[n]], labels[m := {|topo| + 1}];
      topo := topo + [m];
      del, when := del + {m}, when[m := |when|];
    }

    /** Follows the edge from `n` to its predecessor `i`. */
    method Follow(n: nat, i: nat, ghost path: set<nat>, ghost t0: Search, ghost done: set<nat>)
      requires Valid() && Q.Exploring(GraphOf(g), d, S(), t0, T(path + {n}), n, done) && TopoOk(np, pred, root, topo, del)
      requires i in Q.SuccOf(GraphOf(g), n)
      modifies this
      ensures Valid() && Q.Exploring(GraphOf(g), d, S(), t0, T(path + {n}), n, done + {i}) && TopoOk(np, pred, root, topo, del)
      decreases Unvisited(num), 4
    {
      hide Q.Exploring, Q.Visited, O.OffOk, O.Leads, Unvisited, PredOk, DirectOf, GraphOf, TopoOk, Formed, NpOk;
      ghost var t, s := T(path + {n}), S();
      Q.EdgeTarget(GraphOf(g), d, s, t0, t, n, done, i);
      EdgePreserves(g, i, n);
      var p := root[i];
      if p == n || p in del {
        Q.ExploreSkip(GraphOf(g), d, s, t0, t, n, done, i);
        return;
      }
      if dfs[p] == 0 {
        Q.ExploringOk(GraphOf(g), d, s, t0, t, n, done);
        T4Visit(p, path + {n}, n);
        Q.ExploreChild(GraphOf(g), d, t0, s, t, n, done, S(), T(path + {n}), p);
      } else {
        Q.ExploreSee(GraphOf(g), d, s, t0, t, n, done, p);
      }
      if dfs[n] > dfs[p] {
        dfs := dfs[n := dfs[p]];
      }
    }

    /** Visits preserving node `n` and the preserving nodes it depends on. */
    method T4Visit(n: nat, ghost path: set<nat>, ghost from: nat)
      requires Valid() && O.OffOk(GraphOf(g), d, S(), T(path)) && TopoOk(np, pred, root, topo, del)
      requires 0 < n < |num| && num[n] == 0 && n < |np| && !np[n]
      requires path != {} ==> IsTop(T(path), from) && (from, n) in O.Leads(GraphOf(g))
      modifies this
      ensures Valid() && Q.Visited(GraphOf(g), d, S(), old(T(path)), T(path), n) && TopoOk(np, pred, root, topo, del)
      decreases Unvisited(num), 3
    {
      hide Q.Exploring, Q.Visited, O.OffOk, O.Leads, Unvisited, C.AtRoot, PredOk, DirectOf, GraphOf, TopoOk, Formed;
      ghost var t0 := T(path);
      Q.ExploreStart(GraphOf(g), d, S(), t0, n, from);
      Q.OkSizes(GraphOf(g), d, S(), t0);
      var myDfs := dfsNum;
      dfsNum := dfsNum + 1;
      dfs, num := dfs[n := myDfs], num[n := myDfs];
      EdgesToFollow(g, d, S(), t0, T(path + {n}), n, {}, pred);
      PredsInNodes(g, pred, root, n);
      Q.ExploringFacts(GraphOf(g), d, S(), t0, T(path + {n}), n, {});
      FollowPreds(n, path, t0);
      Leave(n, myDfs, path, t0);
    }

    /** Follows the predecessors of `n` that preserve. */
    method FollowPreds(n: nat, ghost path: set<nat>, ghost t0: Search)
      requires Valid() && TopoOk(np, pred, root, topo, del) && n < |np| && !np[n] && 0 < t0.clock
      requires Q.Exploring(GraphOf(g), d, S(), t0, T(path + {n}), n, {})
      requires InNodes(np, pred[n]) && PreservingOf(np, pred[n]) == Q.SuccOf(GraphOf(g), n)
      modifies this
      ensures Valid() && TopoOk(np, pred, root, topo, del)
      ensures Q.Exploring(GraphOf(g), d, S(), t0, T(path + {n}), n, Q.SuccOf(GraphOf(g), n))
      decreases Unvisited(t0.num), 2
    {
      hide Q.Exploring, Q.Visited, O.OffOk, O.Leads, Unvisited, C.AtRoot, PredOk, DirectOf, GraphOf, TopoOk, Formed;
      ghost var ps := pred[n];
      var todo := pred[n];
      assert ps - todo == {} && PreservingOf(np, {}) == {};
      while todo != {}
        invariant Valid() && todo <= ps && TopoOk(np, pred, root, topo, del)
        invariant Q.Exploring(GraphOf(g), d, S(), t0, T(path + {n}), n, PreservingOf(np, ps - todo))
        decreases todo
      {
        var i :| i in todo;
        ghost var done := PreservingOf(np, ps - todo);
        PreservingMore(np, ps - todo, i);
        assert ps - (todo - {i}) == (ps - todo) + {i};
        assert done + {} == done;
        Q.ExploringFacts(GraphOf(g), d, S(), t0, T(path + {n}), n, done);
        Q.ExploringOk(GraphOf(g), d, S(), t0, T(path + {n}), n, done);
        SameKind(g, d, S(), T(path + {n}), i);
        if !np[root[i]] {
          Follow(n, i, path, t0, done);
        }
        todo := todo - {i};
      }
      assert ps - {} == ps;
    }

    /** Closes the component of `n`, or leaves `n` on the stack. */
    method Leave(n: nat, myDfs: nat, ghost path: set<nat>, ghost t0: Search)
      requires Valid() && Q.Exploring(GraphOf(g), d, S(), t0, T(path + {n}), n, Q.SuccOf(GraphOf(g), n))
      requires t0.path == path && myDfs == t0.clock && TopoOk(np, pred, root, topo, del)
      modifies this`pred, this`root, this`rank, this`labels, this`stack, this`del, this`topo, this`mean, this`when
      ensures Valid() && Q.Visited(GraphOf(g), d, S(), t0, T(path), n) && TopoOk(np, pred, root, topo, del)
    {
      hide Q.Visited, O.OffOk, O.Leads, Unvisited, PredOk, DirectOf, GraphOf, TopoOk, Formed;
      Q.ExploringFacts(GraphOf(g), d, S(), t0, T(path + {n}), n, Q.SuccOf(GraphOf(g), n));
      if dfs[n] == myDfs {
        Collapse(n, myDfs, path, t0);
      } else {
        Q.ExplorePushed(GraphOf(g), d, S(), t0, T(path + {n}), n);
        stack := stack + [n];
        assert path + {n} - {n} == path;
      }
    }

    /** Collapses all cycles of preserving nodes. */
    method T4()
      requires Valid() && O.OffOk(GraphOf(g), d, S(), T({})) && stack == [] && TopoOk(np, pred, root, topo, del)
      requires Fresh(g) && IsFlow(g, d)
      modifies this
      ensures Valid() && TopoOk(np, pred, root, topo, del) && AllClosed(np, root, topo) && AllPreserve(np, topo)
      ensures forall v :: 0 <= v < |np| ==> SameFlow(d, root, v) && ZeroApart(np, root, v)
      ensures MergedInto(g, d, Seg(np, pred, root)) && AllKept(Seg(np, pred, root))
    {
      hide Q.Visited, O.OffOk, PredOk, DirectOf, GraphOf, TopoOk, Formed, NpOk;
      Q.OkSizes(GraphOf(g), d, S(), T({}));
      GraphSize(g);
      var i := 1;
      while i < |np|
        invariant Valid() && O.OffOk(GraphOf(g), d, S(), T({})) && stack == [] && TopoOk(np, pred, root, topo, del)
        invariant |dfs| == |num| == |np| && 0 < i && forall v :: 0 < v < i && v < |np| && !np[v] ==> num[v] > 0
      {
        Q.VisitedNum(GraphOf(g), d, S(), T({}), i);
        if root[i] == i && !np[i] && dfs[i] == 0 {
          ghost var t0 := T({});
          T4Visit(i, {}, 0);
          Q.RootCloses(GraphOf(g), d, S(), t0, T({}), i);
          Q.OkSizes(GraphOf(g), d, S(), T({}));
        } else {
          MergedIsVisited(g, d, S(), T({}), i);
        }
        i := i + 1;
      }
      T4Ends(g, d, S(), T({}), pred, topo);
    }

    ghost function G(): Seg
      reads this
    {
      Seg(np, pred, root)
    }

    /** Deletes the preserving nodes that nothing reaches; the others keep their
        live predecessors. */
    method RmUndef(ghost g1: Seg)
      requires g1 == G() && LeastFlow(g1, d) && AllKept(g1)
      requires TopoOk(np, pred, root, topo, del) && AllPreserve(np, topo) && AllClosed(np, root, topo)
      modifies this`pred, this`root
      ensures LeastFlow(G(), d) && Absorbing(G(), topo, 0) && |root| == |g1.root|
      ensures forall v :: 0 < v < |root| ==> Undefined(np, d, g1.root, root, v)
    {
      hide Pruning, LeastFlow, TopoOk, AllClosed, Absorbing, Undefined;
      LeastSizes(g1, d);
      PruneStart(g1, topo);
      ghost var dead: set<nat> := {};
      var k := 0;
      while k < |topo|
        invariant 0 <= k <= |topo| && |pred| == |root| == |np| && Pruning(g1, topo, k, pred, root, dead)
      {
        var i := topo[k];
        PruneMore(g1, topo, k, pred, root, dead, del);
        var live := LivePreds(pred[i], root, i);
        if live != {} {
          pred := pred[i := live];
        } else {
          root := Redirect(root, i, 0);
          dead := dead + {i};
        }
        k := k + 1;
      }
      PruneEnd(g1, topo, pred, root, dead, del);
      PrunedKeepsLeast(g1, d, G(), dead);
      AbsorbStart(g1, topo, pred, root, dead, del);
      forall v | 0 < v < |root|
        ensures Undefined(np, d, g1.root, root, v)
      {
        UndefinedExactly(g1, d, topo, pred, root, dead, del, v);
      }
    }

    /** Merges each preserving node that has one predecessor into it. */
    method T2(ghost before: seq<nat>)
      requires LeastFlow(G(), d) && Absorbing(G(), topo, 0) && before == root && |rank| == |np|
      modifies this`root, this`rank
      ensures forall j :: 0 <= j < |topo| && topo[j] < |root| && root[topo[j]] == topo[j] ==> Several(G(), topo[j])
      ensures FedInOrder(G(), topo)
      ensures LeastFlow(G(), d) && |root| == |before| && forall v :: 0 <= v < |root| ==> SameOut(np, d, before, root, v)
    {
      hide LeastFlow, Absorbing, SameOut;
      var k := 0;
      forall v | 0 <= v < |root|
        ensures SameOut(np, d, before, root, v)
      {
        SameOutSelf(G(), d, v);
      }
      while k < |topo|
        invariant 0 <= k <= |topo| && LeastFlow(G(), d) && Absorbing(G(), topo, k) && |rank| == |np|
        invariant |root| == |before| && forall v :: 0 <= v < |root| ==> SameOut(np, d, before, root, v)
      {
        AbsorbFacts(G(), topo, k);
        if root[topo[k]] == 0 {
          AbsorbSkip(G(), topo, k);
        } else {
          var n := root[topo[k]];
          var p, mult := OnlyPred(n, k);
          if !mult && p != 0 {
            ghost var g2 := G();
            AbsorbOne(g2, topo, k, p);
            if rank[p] < rank[n] {
              rank := rank[p := rank[n]];
            }
            root := Redirect(root, n, p);
            LeastSizes(g2, d);
            AbsorbedKeepsLeast(g2, d, G(), n, p);
            forall v | 0 <= v < |root|
              ensures SameOut(np, d, before, root, v)
            {
              SameOutAbsorbed(g2, d, G(), n, p, before, v);
            }
          } else {
            AbsorbSkip(G(), topo, k);
          }
        }
        k := k + 1;
      }
      AbsorbEnd(G(), topo);
    }

    /** The predecessor of `n`, or whether there are several. */
    method OnlyPred(n: nat, ghost k: nat) returns (p: nat, mult: bool)
      requires Absorbing(G(), topo, k) && k < |topo| && root[topo[k]] == n != 0
      ensures !mult && p != 0 ==>
        Before(np, topo, p, k) && root[p] == p && pred[n] != {} && forall q :: q in pred[n] ==> q < |root| && root[q] == p
      ensures mult || p == 0 ==> Several(G(), n)
    {
      AbsorbFacts(G(), topo, k);
      assert FedBefore(G(), topo, k);
      p, mult := 0, false;
      var todo := pred[n];
      while todo != {}
        invariant todo <= pred[n] && !mult && (p == 0 ==> todo == pred[n])
        invariant p != 0 ==> Before(np, topo, p, k) && root[p] == p && exists q :: q in pred[n] && q < |root| && root[q] == p
        invariant forall q :: q in pred[n] - todo ==> q < |root| && root[q] == p
        decreases todo
      {
        var j :| j in todo;
        assert Before(np, topo, root[j], k) && NodeFormed(G(), j);
        var x := root[j];
        todo := todo - {j};
        if p == 0 {
          p := x;
        } else if p != x {
          mult := true;
          return;
        }
      }
    }
  }

  /** The whole reduction: the least flow of the original graph is that of the
      reduced one, node by node. */
  method Reduce(np: seq<bool>, pred: seq<set<nat>>, ghost g: Seg, ghost d: Flow) returns (pred': seq<set<nat>>, root: seq<nat>)
    requires Fresh(g) && np == g.np && pred == g.pred && LeastFlow(g, d)
    ensures LeastFlow(Seg(np, pred', root), d)
    ensures |root| == |np| && forall v :: 0 < v < |np| ==> KeptNode(np, d, root, v)
    ensures forall v :: 0 < v < |np| && !np[v] && root[v] == v ==> Several(Seg(np, pred', root), v)
    ensures Acyclic(Seg(np, pred', root))
  {
    hide FedInOrder, LeastFlow, O.OffOk, GraphOf, TopoOk, AllClosed, MergedInto, Absorbing, Undefined, SameOut, KeptNode, Several;
    LeastIsFlow(g, d);
    var r := new Reducer(np, pred, g, d);
    r.T4();
    ghost var g1 := r.G();
    MergedKeepsLeast(g, d, g1);
    LeastSizes(g1, d);
    r.RmUndef(g1);
    ghost var root2 := r.root;
    r.T2(root2);
    forall v | 0 < v < |np|
      ensures KeptNode(np, d, r.root, v)
    {
      NodeKept(np, d, g1.root, root2, r.root, v);
    }
    pred', root := r.pred, r.root;
    forall v | 0 < v < |np| && !np[v] && root[v] == v
      ensures Several(Seg(np, pred', root), v) && v in r.topo
    {
      OwnComponent(np, d, g1.root, root2, root, r.topo, v);
    }
    assert FedInOrder(Seg(np, pred', root), r.topo);
  }

  lemma LeastIsFlow(g: Seg, d: Flow)
    requires LeastFlow(g, d)
    ensures IsFlow(g, d)
  {
  }

  /** A preserving node that is left stands for its component. */
  lemma OwnComponent(np: seq<bool>, d: Flow, root1: seq<nat>, root2: seq<nat>, root: seq<nat>, topo: seq<nat>, v: nat)
    requires AllClosed(np, root1, topo) && Undefined(np, d, root1, root2, v) && SameOut(np, d, root2, root, v)
    requires 0 < v < |np| && !np[v] && root[v] == v && (forall u :: 0 <= u < |np| ==> ZeroApart(np, root1, u))
    ensures exists j :: 0 <= j < |topo| && topo[j] == v
  {
  }
}
