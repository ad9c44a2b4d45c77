/** The recursion of lazy cycle detection, one step at a time. */
module LcdSearch {
  import opened Constraints
  import opened ConstraintGraph
  import opened GraphSteps
  import opened SolverState
  import opened LcdState
  import Tarjan

  lemma CoarserTransitive(a: seq<nat>, b: seq<nat>, c: seq<nat>, keep: set<nat>)
    requires Tarjan.Coarser(a, b, keep) && Tarjan.Coarser(b, c, keep)
    ensures Tarjan.Coarser(a, c, keep)
  {
    forall i | 0 <= i < |a|
      ensures Tarjan.CoarserAt(a, c, keep, i)
    {
      assert Tarjan.CoarserAt(a, b, keep, i);
      assert Tarjan.CoarserAt(b, c, keep, i) && Tarjan.CoarserAt(b, c, keep, a[i]) && Tarjan.CoarserAt(b, c, keep, b[i]);
    }
  }

  lemma CoarserWeaken(a: seq<nat>, b: seq<nat>, keep: set<nat>, keep': set<nat>)
    requires Tarjan.Coarser(a, b, keep) && keep' <= keep
    ensures Tarjan.Coarser(a, b, keep')
  {
    forall i | 0 <= i < |a|
      ensures Tarjan.CoarserAt(a, b, keep', i)
    {
      assert Tarjan.CoarserAt(a, b, keep, i);
    }
  }

  lemma AdvancedTransitive(st0: State, st1: State, st2: State, path: set<nat>, path': set<nat>, keep: set<nat>, keep': set<nat>)
    requires Advanced(st0, st1, path, keep) && Advanced(st1, st2, path', keep') && path <= path' && keep <= keep'
    ensures Advanced(st0, st2, path, keep)
  {
    CoarserWeaken(st1.root, st2.root, keep', keep);
    CoarserTransitive(st0.root, st1.root, st2.root, keep);
  }

  lemma AdvancedSelf(st: State, path: set<nat>, keep: set<nat>)
    requires LegalPartition(st.root)
    ensures Advanced(st, st, path, keep)
  {
  }

  /** Node `n` is being explored by a search that started from `st0`, `t0`. */
  ghost predicate Exploring(sys: System, st0: State, t0: Tarjan.Search, roots0: set<nat>, st: State, t: Tarjan.Search, roots: set<nat>, n: nat) {
    && LcdOk(sys, st.root, t, roots) && roots0 <= roots
    && t.path == t0.path + {n} && n !in t0.path
    && Tarjan.Begun(t0, t, n)
    && Tarjan.Frame(t, n, |t0.stack|)
    && Advanced(st0, st, t.path, Outside(t0) + {n})
  }

  /** The search from `n` is over: `n` is on the stack or its component is
      closed. */
  ghost predicate Visited(sys: System, st0: State, t0: Tarjan.Search, roots0: set<nat>, st: State, t: Tarjan.Search, roots: set<nat>, n: nat) {
    && LcdOk(sys, st.root, t, roots) && roots0 <= roots
    && t.path == t0.path
    && |t0.num| == |t0.low| && n < |t0.num| && Tarjan.Descended(t0, t, n)
    && n < |st.root|
    && (n !in t.stack ==> st.root[n] in roots && st.root[n] < |t.low| && t.num[n] <= t.low[st.root[n]])
    && Advanced(st0, st, t0.path, Outside(t0))
  }

  lemma ExploreStart(sys: System, st: State, t: Tarjan.Search, roots: set<nat>, n: nat, from: nat)
    requires LcdOk(sys, st.root, t, roots) && LegalPartition(st.root) && Usable(View(st, 0, {}), n) && t.num[n] == 0
    requires t.path != {} ==> Tarjan.IsTop(t, from) && Below(sys, from, n)
    ensures n < |t.num| && Exploring(sys, st, t, roots, st, Tarjan.Enter(t, n), roots, n)
  {
    assert Below(sys, n, n);
    assert Tarjan.Settled(st.root, t, roots, n) && Tarjan.NodeOk(BelowRel(sys), t, n);
    Tarjan.EnterKeeps(BelowRel(sys), t, n, from);
    Tarjan.EnterCollapsing(BelowRel(sys), st.root, t, roots, n);
    AdvancedSelf(st, t.path + {n}, Outside(t) + {n});
    assert forall v :: Tarjan.Open(Tarjan.Enter(t, n), v) ==> Tarjan.Open(t, v) || v == n;
  }

  lemma SeeOk(sys: System, root: seq<nat>, t: Tarjan.Search, roots: set<nat>, n: nat, w: nat)
    requires LcdOk(sys, root, t, roots) && n < |t.num| && w < |t.num| && Tarjan.Open(t, n) && Tarjan.Open(t, w)
    requires Tarjan.Inv(BelowRel(sys), Tarjan.See(t, n, w))
    ensures LcdOk(sys, root, Tarjan.See(t, n, w), roots)
  {
    Tarjan.SeeCollapsing(BelowRel(sys), root, t, roots, n, w);
    assert forall v :: Tarjan.Open(Tarjan.See(t, n, w), v) ==> Tarjan.Open(t, v);
  }

  lemma ExploreSee(sys: System, st0: State, t0: Tarjan.Search, roots0: set<nat>, st: State, t: Tarjan.Search, roots: set<nat>, n: nat, w: nat)
    requires Exploring(sys, st0, t0, roots0, st, t, roots, n) && w < |t.num| && Tarjan.Open(t, w) && Below(sys, n, w)
    ensures Exploring(sys, st0, t0, roots0, st, Tarjan.See(t, n, w), roots, n)
  {
    Tarjan.SeeKeeps(BelowRel(sys), t, n, |t0.stack|, w);
    SeeOk(sys, st.root, t, roots, n, w);
    hide Tarjan.Inv, Tarjan.Collapsing, Advanced;
  }

  /** A visited node outside collapsed components is open. */
  lemma VisitedIsOpen(sys: System, root: seq<nat>, t: Tarjan.Search, roots: set<nat>, w: nat)
    requires LcdOk(sys, root, t, roots) && w < |root| && root[w] == w && w !in roots && t.num[w] > 0
    ensures w < |t.num| && Tarjan.Open(t, w)
  {
    assert Tarjan.Settled(root, t, roots, w);
  }

  lemma VisitedNum(sys: System, root: seq<nat>, t: Tarjan.Search, roots: set<nat>, v: nat)
    requires LcdOk(sys, root, t, roots) && v < |root|
    ensures v < |t.num| == |t.low| && (t.num[v] == 0 <==> t.low[v] == 0)
  {
    assert Tarjan.Settled(root, t, roots, v);
  }

  lemma OpenIsRep(sys: System, root: seq<nat>, t: Tarjan.Search, roots: set<nat>, w: nat)
    requires LcdOk(sys, root, t, roots) && Tarjan.Open(t, w)
    ensures w < |root| && root[w] == w
  {
    assert Tarjan.Settled(root, t, roots, w);
  }

  /** Returning from a child: its outcome is taken into account. */
  lemma ExploreChild(sys: System, st0: State, t0: Tarjan.Search, roots0: set<nat>, st: State, t: Tarjan.Search, roots: set<nat>, n: nat,
                     st': State, t': Tarjan.Search, roots': set<nat>, d: nat)
    requires Exploring(sys, st0, t0, roots0, st, t, roots, n) && Below(sys, n, d)
    requires Visited(sys, st, t, roots, st', t', roots', d)
    ensures n < |t'.low| && d < |t'.low| && d < |st'.root|
    ensures d in t'.stack ==> st'.root[d] == d && Exploring(sys, st0, t0, roots0, st', Tarjan.See(t', n, d), roots', n)
    ensures d !in t'.stack ==>
              st'.root[d] < |t'.low| && t'.low[n] <= t'.low[st'.root[d]] && Exploring(sys, st0, t0, roots0, st', t', roots', n)
  {
    hide Advanced, Tarjan.Descended, Tarjan.NodeOk, Tarjan.PairOk, Tarjan.Settled, Tarjan.Begun, Outside;
    ChildAdvanced(sys, st0, t0, roots0, st, t, roots, n, st', t', roots', d);
    ChildSizes(sys, st0, t0, roots0, st, t, roots, n, st', t', roots', d);
    Tarjan.ChildFrame(BelowRel(sys), t0, t, t', n, d);
    if d in t'.stack {
      OpenIsRep(sys, st'.root, t', roots', d);
      Tarjan.SeeKeeps(BelowRel(sys), t', n, |t0.stack|, d);
      SeeOk(sys, st'.root, t', roots', n, d);
    }
  }

  lemma ChildSizes(sys: System, st0: State, t0: Tarjan.Search, roots0: set<nat>, st: State, t: Tarjan.Search, roots: set<nat>, n: nat,
                   st': State, t': Tarjan.Search, roots': set<nat>, d: nat)
    requires Exploring(sys, st0, t0, roots0, st, t, roots, n) && Visited(sys, st, t, roots, st', t', roots', d)
    ensures n < |t'.low| == |t'.num| == |t.num| && d < |t'.low| && roots0 <= roots'
    ensures d !in t'.stack ==> t'.stack == t.stack
  {
  }

  lemma ChildAdvanced(sys: System, st0: State, t0: Tarjan.Search, roots0: set<nat>, st: State, t: Tarjan.Search, roots: set<nat>, n: nat,
                      st': State, t': Tarjan.Search, roots': set<nat>, d: nat)
    requires Exploring(sys, st0, t0, roots0, st, t, roots, n)
    requires Visited(sys, st, t, roots, st', t', roots', d)
    ensures Advanced(st0, st', t.path, Outside(t0) + {n})
    ensures n < |t'.low| && d < |t'.low| && Tarjan.Begun(t0, t', n) && Tarjan.Begun(t0, Tarjan.See(t', n, d), n)
  {
    forall s | s in Outside(t0) + {n}
      ensures s in Outside(t)
    {
      if s in t0.stack {
        var i :| 0 <= i < |t0.stack| && t0.stack[i] == s;
        assert t.stack[i] == s;
      }
    }
    AdvancedTransitive(st0, st, st', t.path, t.path, Outside(t0) + {n}, Outside(t));
    assert Tarjan.NodeOk(BelowRel(sys), t, n);
  }

  /** All edges of `n` were followed and cleaned up. */
  ghost predicate Explored(sys: System, st0: State, t0: Tarjan.Search, roots0: set<nat>, st: State, t: Tarjan.Search, roots: set<nat>, n: nat) {
    && LcdOk(sys, st.root, t, roots) && roots0 <= roots
    && t.path == t0.path + {n} && n !in t0.path
    && Tarjan.Begun(t0, t, n)
    && Tarjan.Frame(t, n, |t0.stack|)
    && Advanced(st0, st, t0.path, Outside(t0))
  }

  lemma ExploreRewired(sys: System, st0: State, t0: Tarjan.Search, roots0: set<nat>, st: State, t: Tarjan.Search, roots: set<nat>, n: nat, st': State)
    requires Exploring(sys, st0, t0, roots0, st, t, roots, n) && LegalPartition(st.root)
    requires st'.root == st.root && |st'.nodes| == |st.nodes| && Shrunk(st, st')
    requires forall q :: 0 <= q < |st.nodes| && q != n ==> st'.nodes[q] == st.nodes[q]
    ensures Explored(sys, st0, t0, roots0, st', t, roots, n)
  {
    AdvancedSelf(st, t0.path, Outside(t0));
    CoarserWeaken(st0.root, st.root, Outside(t0) + {n}, Outside(t0));
    AdvancedTransitive(st0, st, st', t0.path, t0.path, Outside(t0), Outside(t0));
  }

  lemma ExplorePushed(sys: System, st0: State, t0: Tarjan.Search, roots0: set<nat>, st: State, t: Tarjan.Search, roots: set<nat>, n: nat)
    requires Explored(sys, st0, t0, roots0, st, t, roots, n) && t.low[n] != t.num[n]
    ensures Visited(sys, st0, t0, roots0, st, Tarjan.Finish(t, n), roots, n)
  {
    var t' := Tarjan.Finish(t, n);
    assert Tarjan.NodeOk(BelowRel(sys), t, n);
    Tarjan.FinishKeeps(BelowRel(sys), t, n, |t0.stack|);
    Tarjan.FinishCollapsing(st.root, t, roots, n);
    assert forall v :: Tarjan.Open(t', v) ==> Tarjan.Open(t, v);
    assert t.path - {n} == t0.path;
    assert t'.stack[|t'.stack| - 1] == n;
    Tarjan.StackLeft(BelowRel(sys), t0, t, t', n);
  }

  lemma ExploreClosed(sys: System, st0: State, t0: Tarjan.Search, roots0: set<nat>, st: State, t: Tarjan.Search, roots: set<nat>, n: nat,
                      st': State, t': Tarjan.Search, roots': set<nat>)
    requires Explored(sys, st0, t0, roots0, st, t, roots, n)
    requires t' == Tarjan.Close(t, n, |t0.stack|) && Closed(sys, st, t, roots, st', t', roots', n)
    ensures Visited(sys, st0, t0, roots0, st', t', roots', n)
  {
    assert t.path - {n} == t0.path;
    assert t'.stack == t0.stack;
    AdvancedTransitive(st0, st, st', t0.path, t0.path, Outside(t0), Outside(t'));
  }

  /** Where a copy edge leads. */
  lemma CopyEdge(sys: System, st: State, n: nat, e: nat)
    requires Ok(sys, st, 0, {}, {}) && n < |st.nodes| && e in st.nodes[n].copyTo
    ensures e < |st.root| == |st.nodes| && st.root[e] < |st.nodes|
    ensures Usable(View(st, 0, {}), st.root[e]) && Below(sys, n, st.root[e])
  {
    var g := View(st, 0, {});
    assert NodeShape(g, n) && NodeSound(sys, g, n) && NodeSound(sys, g, e);
    BelowTransitive(sys, n, e, st.root[e]);
  }

  /** What is known while `n` is explored. */
  lemma ExploringFacts(sys: System, st0: State, t0: Tarjan.Search, roots0: set<nat>, st: State, t: Tarjan.Search, roots: set<nat>, n: nat)
    requires Exploring(sys, st0, t0, roots0, st, t, roots, n)
    ensures LcdOk(sys, st.root, t, roots) && n in t.path && Tarjan.IsTop(t, n)
    ensures n < |t.num| == |t.low| == |st.root| && st.root[n] == n && 0 < n && n != I2P
    ensures 0 < t0.clock ==> Tarjan.Unvisited(t.num) < Tarjan.Unvisited(t0.num)
    ensures forall v :: 0 <= v < |t.num| ==> (t.num[v] == 0 <==> t.low[v] == 0)
  {
    assert Tarjan.Settled(st.root, t, roots, n) && Tarjan.Open(t, n);
    if 0 < t0.clock {
      Tarjan.UnvisitedShrinks(t0, t, n);
    }
    forall v | 0 <= v < |t.num|
      ensures t.num[v] == 0 <==> t.low[v] == 0
    {
      assert Tarjan.Settled(st.root, t, roots, v);
    }
  }

  /** The effect of a recursive call on the edges done so far. */
  lemma ChildEdges(sys: System, st: State, t: Tarjan.Search, roots: set<nat>, st': State, t': Tarjan.Search, roots': set<nat>, d: nat,
                   n: nat, copyTo: set<nat>, todo: set<nat>, del: set<nat>, add: set<nat>, e: nat)
    requires Visited(sys, st, t, roots, st', t', roots', d) && n in t.path && n < |st.nodes|
    requires EdgesDone(st.root, n, copyTo, todo, del, add) && e < |st.root| && st.root[e] == d && d != n
    ensures EdgesDone(st'.root, n, copyTo, todo, del, add) && e < |st'.root| && st'.root[e] == st'.root[d] != n
    ensures n < |st'.nodes| && st'.nodes[n] == st.nodes[n]
  {
    EdgesDoneCoarser(st.root, st'.root, Outside(t), n, copyTo, todo, del, add);
    assert Tarjan.CoarserAt(st.root, st'.root, Outside(t), e) && Tarjan.CoarserAt(st.root, st'.root, Outside(t), d);
  }

  lemma LcdOkFacts(sys: System, root: seq<nat>, t: Tarjan.Search, roots: set<nat>)
    requires LcdOk(sys, root, t, roots)
    ensures |t.num| == |t.low| == |root| == sys.n && 0 < t.clock
  {
  }

  lemma ExploredFacts(sys: System, st0: State, t0: Tarjan.Search, roots0: set<nat>, st: State, t: Tarjan.Search, roots: set<nat>, n: nat)
    requires Explored(sys, st0, t0, roots0, st, t, roots, n)
    ensures n < |t.num| == |t.low| && t.num[n] == t0.clock && n !in t0.path && |t0.stack| <= |t.stack|
    ensures t.low[n] == t.num[n] ==> AtRoot(sys, st.root, t, roots, n, |t0.stack|)
  {
  }

  lemma EdgesDoneNone(root: seq<nat>, n: nat, copyTo: set<nat>)
    ensures EdgesDone(root, n, copyTo, copyTo, {}, {})
  {
  }
}
