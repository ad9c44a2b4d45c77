/** What a pass of cycle detection leaves behind: no two of the nodes it
    visited lie on a cycle of copy edges. */
module LcdComponents {
  import opened Constraints
  import opened ConstraintGraph
  import opened SolverState
  import opened LcdState
  import opened LcdSearch
  import Tarjan

  /** An edge from node `v` was followed. */
  ghost predicate EdgeSeen(root: seq<nat>, t: Tarjan.Search, v: nat, e: nat) {
    e < |root| && Tarjan.Followed(t, v, root[e])
  }

  ghost predicate AllSeen(root: seq<nat>, t: Tarjan.Search, v: nat, es: set<nat>) {
    forall e :: e in es ==> EdgeSeen(root, t, v, e)
  }

  /** An edge from component `r` leads to one that was closed no later. */
  ghost predicate Sooner(root: seq<nat>, when: map<nat, nat>, r: nat, e: nat) {
    e < |root| && root[e] in when && r in when && when[root[e]] <= when[r]
  }

  ghost predicate AllSooner(root: seq<nat>, when: map<nat, nat>, r: nat, es: set<nat>) {
    forall e :: e in es ==> Sooner(root, when, r, e)
  }

  /** The edges of finished nodes were all followed, and those of collapsed
      components lead to collapsed components. */
  ghost predicate Thorough(st: State, t: Tarjan.Search, roots: set<nat>, when: map<nat, nat>) {
    && |st.nodes| == |st.root| == |t.num| == |t.low| && Tarjan.InOrder(roots, when)
    && (forall r :: r in roots ==> r < |st.nodes| && AllSooner(st.root, when, r, st.nodes[r].copyTo))
    && (forall v :: v in t.stack ==> v < |st.nodes| && AllSeen(st.root, t, v, st.nodes[v].copyTo))
  }

  // What the steps of the search keep.

  lemma ThoroughStart(sys: System, st: State, t: Tarjan.Search)
    requires |st.nodes| == |st.root| == |t.num| == |t.low| && t.stack == []
    ensures Thorough(st, t, {}, map[])
  {
  }

  lemma ThoroughEnter(sys: System, st: State, t: Tarjan.Search, roots: set<nat>, when: map<nat, nat>, n: nat)
    requires Thorough(st, t, roots, when) && LcdOk(sys, st.root, t, roots) && n < |t.num| && t.num[n] == 0
    ensures Thorough(st, Tarjan.Enter(t, n), roots, when)
  {
    hide Tarjan.PairOk, Tarjan.Settled, AllSooner;
    assert Tarjan.NodeOk(BelowRel(sys), t, n);
    forall v | v in t.stack
      ensures v < |st.nodes| && AllSeen(st.root, Tarjan.Enter(t, n), v, st.nodes[v].copyTo)
    {
      forall e | e in st.nodes[v].copyTo
        ensures EdgeSeen(st.root, Tarjan.Enter(t, n), v, e)
      {
        assert EdgeSeen(st.root, t, v, e);
      }
    }
  }

  lemma ThoroughSee(sys: System, st: State, t: Tarjan.Search, roots: set<nat>, when: map<nat, nat>, n: nat, w: nat)
    requires Thorough(st, t, roots, when) && n < |t.low| && w < |t.low|
    ensures Thorough(st, Tarjan.See(t, n, w), roots, when)
  {
    hide AllSooner;
    forall v | v in t.stack
      ensures v < |st.nodes| && AllSeen(st.root, Tarjan.See(t, n, w), v, st.nodes[v].copyTo)
    {
      SeenSee(st.root, t, n, w, v, st.nodes[v].copyTo);
    }
  }

  lemma SeenSee(root: seq<nat>, t: Tarjan.Search, n: nat, w: nat, v: nat, es: set<nat>)
    requires AllSeen(root, t, v, es) && n < |t.low| == |t.num| && w < |t.low|
    ensures AllSeen(root, Tarjan.See(t, n, w), v, es)
  {
    forall e | e in es
      ensures EdgeSeen(root, Tarjan.See(t, n, w), v, e)
    {
      assert EdgeSeen(root, t, v, e);
    }
  }

  /** Only the edges of the node being left change. */
  lemma ThoroughRewired(sys: System, st: State, st': State, t: Tarjan.Search, roots: set<nat>, when: map<nat, nat>, n: nat)
    requires Thorough(st, t, roots, when) && LcdOk(sys, st.root, t, roots) && n in t.path
    requires st'.root == st.root && |st'.nodes| == |st.nodes| && forall q :: 0 <= q < |st.nodes| && q != n ==> st'.nodes[q] == st.nodes[q]
    ensures Thorough(st', t, roots, when)
  {
    assert Tarjan.NodeOk(BelowRel(sys), t, n) && Tarjan.Settled(st.root, t, roots, n);
    hide AllSooner, AllSeen, Tarjan.Inv, Tarjan.Collapsing;
  }

  lemma ThoroughFinish(st: State, t: Tarjan.Search, roots: set<nat>, when: map<nat, nat>, n: nat)
    requires Thorough(st, t, roots, when) && n in t.path && n < |st.nodes| && AllSeen(st.root, t, n, st.nodes[n].copyTo)
    ensures Thorough(st, Tarjan.Finish(t, n), roots, when)
  {
    hide AllSooner;
    var t' := Tarjan.Finish(t, n);
    forall v | v in t'.stack
      ensures v < |st.nodes| && AllSeen(st.root, t', v, st.nodes[v].copyTo)
    {
      forall e | e in st.nodes[v].copyTo
        ensures EdgeSeen(st.root, t', v, e)
      {
        assert EdgeSeen(st.root, t, v, e);
      }
    }
  }

  // Closing a component.

  /** Where the edges of a member lead after the component was joined. */
  lemma MemberEdge(sys: System, root0: seq<nat>, root: seq<nat>, t: Tarjan.Search, roots: set<nat>, n: nat, base: nat, m: nat,
                   v: nat, e: nat)
    requires AtRoot(sys, root0, t, roots, n, base) && m in Tarjan.Component(t, n, base)
    requires Tarjan.Joined(root0, root, Tarjan.Component(t, n, base), m)
    requires v in Tarjan.Component(t, n, base) && EdgeSeen(root0, t, v, e) && LegalPartition(root0)
    ensures e < |root| && (root[e] == m || root[e] in roots)
  {
    var w := root0[e];
    assert Tarjan.Settled(root0, t, roots, e) && Tarjan.Settled(root0, t, roots, w);
    Tarjan.MemberNums(BelowRel(sys), t, n, base, w);
    MemberLow(sys, t, n, base, v);
  }

  lemma MemberLow(sys: System, t: Tarjan.Search, n: nat, base: nat, v: nat)
    requires Tarjan.Inv(BelowRel(sys), t) && Tarjan.Frame(t, n, base) && t.low[n] == t.num[n] && v in Tarjan.Component(t, n, base)
    ensures v < |t.low| && t.num[n] <= t.low[v]
  {
    if v != n {
      var i :| base <= i < |t.stack| && t.stack[i] == v;
    }
  }

  /** A component that was closed before stays as it is. */
  lemma RootApart(sys: System, root0: seq<nat>, t: Tarjan.Search, roots: set<nat>, n: nat, base: nat, r: nat)
    requires AtRoot(sys, root0, t, roots, n, base) && r in roots
    ensures r < |root0| && root0[r] == r && r !in Tarjan.Component(t, n, base) && !Tarjan.Open(t, r)
  {
    assert Tarjan.Settled(root0, t, roots, r);
    Tarjan.MemberNums(BelowRel(sys), t, n, base, r);
  }

  lemma ThoroughClosed(sys: System, st0: State, st: State, t: Tarjan.Search, roots: set<nat>, when: map<nat, nat>, n: nat, base: nat,
                       m: nat, chg: bool)
    requires AtRoot(sys, st0.root, t, roots, n, base) && Popped(st0, st, t, n, base, base, m, chg) && Thorough(st0, t, roots, when)
    requires n < |st0.nodes| && AllSeen(st0.root, t, n, st0.nodes[n].copyTo) && LegalPartition(st0.root)
    ensures Thorough(st, Tarjan.Close(t, n, base), roots + {m}, when[m := |when|])
  {
    hide AtRoot, Popped, LegalPartition, AllSeen, AllSooner;
    ClosedSizes(sys, st0, st, t, roots, n, base, m, chg);
    Tarjan.InOrderMore(roots, when, m);
    forall r | r in roots + {m}
      ensures r < |st.nodes| && AllSooner(st.root, when[m := |when|], r, st.nodes[r].copyTo)
    {
      ClosedInRange(sys, st0, st, t, roots, n, base, m, chg, r);
      ClosedAllSooner(sys, st0, st, t, roots, when, n, base, m, chg, r);
    }
    forall v | v in Tarjan.Close(t, n, base).stack
      ensures v < |st.nodes| && AllSeen(st.root, Tarjan.Close(t, n, base), v, st.nodes[v].copyTo)
    {
      StackSeen(sys, st0, st, t, roots, when, n, base, m, chg, v);
    }
  }

  lemma ClosedSizes(sys: System, st0: State, st: State, t: Tarjan.Search, roots: set<nat>, n: nat, base: nat, m: nat, chg: bool)
    requires AtRoot(sys, st0.root, t, roots, n, base) && Popped(st0, st, t, n, base, base, m, chg)
    ensures base <= |t.stack| && m !in roots && |st.nodes| == |st.root| == |st0.nodes|
  {
    if m in roots {
      RootApart(sys, st0.root, t, roots, n, base, m);
    }
  }

  lemma ClosedAllSooner(sys: System, st0: State, st: State, t: Tarjan.Search, roots: set<nat>, when: map<nat, nat>, n: nat, base: nat,
                        m: nat, chg: bool, r: nat)
    requires AtRoot(sys, st0.root, t, roots, n, base) && Popped(st0, st, t, n, base, base, m, chg) && Thorough(st0, t, roots, when)
    requires n < |st0.nodes| && AllSeen(st0.root, t, n, st0.nodes[n].copyTo) && LegalPartition(st0.root)
    requires r in roots + {m} && r < |st.nodes|
    ensures AllSooner(st.root, when[m := |when|], r, st.nodes[r].copyTo)
  {
    hide AtRoot, Popped, Thorough, LegalPartition, AllSeen, Sooner;
    forall e | e in st.nodes[r].copyTo
      ensures Sooner(st.root, when[m := |when|], r, e)
    {
      ClosedSooner(sys, st0, st, t, roots, when, n, base, m, chg, r, e);
    }
  }

  lemma ClosedInRange(sys: System, st0: State, st: State, t: Tarjan.Search, roots: set<nat>, n: nat, base: nat, m: nat, chg: bool, r: nat)
    requires AtRoot(sys, st0.root, t, roots, n, base) && Popped(st0, st, t, n, base, base, m, chg) && r in roots + {m}
    ensures r < |st.nodes|
  {
    if r == m {
      MemberLow(sys, t, n, base, m);
    } else {
      RootApart(sys, st0.root, t, roots, n, base, r);
    }
  }

  lemma ClosedSooner(sys: System, st0: State, st: State, t: Tarjan.Search, roots: set<nat>, when: map<nat, nat>, n: nat, base: nat,
                     m: nat, chg: bool, r: nat, e: nat)
    requires AtRoot(sys, st0.root, t, roots, n, base) && Popped(st0, st, t, n, base, base, m, chg) && Thorough(st0, t, roots, when)
    requires n < |st0.nodes| && AllSeen(st0.root, t, n, st0.nodes[n].copyTo) && LegalPartition(st0.root)
    requires r in roots + {m} && r < |st.nodes| && e in st.nodes[r].copyTo
    ensures Sooner(st.root, when[m := |when|], r, e)
  {
    hide Tarjan.Inv, Tarjan.Collapsing, Tarjan.Settled, LegalPartition, EdgeSeen;
    if r == m {
      assert EdgeOfMember(st0, t, n, base, e);
      var v :| v in Tarjan.Component(t, n, base) && v < |st0.nodes| && e in st0.nodes[v].copyTo;
      assert EdgeSeen(st0.root, t, v, e) by { MemberSeen(st0, t, roots, when, n, base, v); }
      MemberEdge(sys, st0.root, st.root, t, roots, n, base, m, v, e);
    } else {
      RootApart(sys, st0.root, t, roots, n, base, r);
      assert Sooner(st0.root, when, r, e);
      RootApart(sys, st0.root, t, roots, n, base, st0.root[e]);
    }
  }

  lemma MemberSeen(st: State, t: Tarjan.Search, roots: set<nat>, when: map<nat, nat>, n: nat, base: nat, v: nat)
    requires Thorough(st, t, roots, when) && base <= |t.stack| && v in Tarjan.Component(t, n, base) && v < |st.nodes|
    requires v == n ==> AllSeen(st.root, t, n, st.nodes[n].copyTo)
    ensures AllSeen(st.root, t, v, st.nodes[v].copyTo)
  {
    if v != n {
      var i :| base <= i < |t.stack| && t.stack[i] == v;
      assert v in t.stack;
    }
  }

  lemma StackSeen(sys: System, st0: State, st: State, t: Tarjan.Search, roots: set<nat>, when: map<nat, nat>, n: nat, base: nat,
                  m: nat, chg: bool, v: nat)
    requires AtRoot(sys, st0.root, t, roots, n, base) && Popped(st0, st, t, n, base, base, m, chg) && Thorough(st0, t, roots, when)
    requires v in t.stack[..base]
    ensures v < |st.nodes| && AllSeen(st.root, Tarjan.Close(t, n, base), v, st.nodes[v].copyTo)
  {
    var i :| 0 <= i < base && t.stack[i] == v;
    assert v in t.stack;
    KeptApart(sys, t, n, base, v);
    MemberLow(sys, t, n, base, m);
    forall e | e in st.nodes[v].copyTo
      ensures EdgeSeen(st.root, Tarjan.Close(t, n, base), v, e)
    {
      assert EdgeSeen(st0.root, t, v, e);
      Tarjan.ClosedOpen(BelowRel(sys), t, n, base, st0.root[e]);
      Tarjan.ClosedOpen(BelowRel(sys), t, n, base, m);
      Tarjan.MemberNums(BelowRel(sys), t, n, base, m);
      assert Tarjan.NodeOk(BelowRel(sys), t, m);
    }
  }

  lemma ThoroughPushed(st: State, m: nat, t: Tarjan.Search, roots: set<nat>, when: map<nat, nat>)
    requires Thorough(st, t, roots, when) && m < |st.nodes|
    ensures Thorough(Pushed(st, m), t, roots, when)
  {
    hide AllSeen, AllSooner;
  }

  // Edges of the node being explored.

  lemma SeenNone(root: seq<nat>, t: Tarjan.Search, n: nat)
    ensures AllSeen(root, t, n, {})
  {
  }

  lemma SeenFewer(root: seq<nat>, t: Tarjan.Search, n: nat, es: set<nat>, es': set<nat>)
    requires AllSeen(root, t, n, es) && es' <= es
    ensures AllSeen(root, t, n, es')
  {
  }

  lemma SeenMore(root: seq<nat>, t: Tarjan.Search, n: nat, es: set<nat>, e: nat)
    requires AllSeen(root, t, n, es) && EdgeSeen(root, t, n, e)
    ensures AllSeen(root, t, n, es + {e})
  {
  }

  /** An edge to another edge's target. */
  lemma SeenSame(root: seq<nat>, t: Tarjan.Search, n: nat, e: nat, d: nat)
    requires EdgeSeen(root, t, n, e) && d < |root| && root[d] == root[e]
    ensures EdgeSeen(root, t, n, d)
  {
  }

  /** An edge to an open node whose number was taken into account. */
  lemma SeenOpen(sys: System, root: seq<nat>, t: Tarjan.Search, roots: set<nat>, n: nat, w: nat, e: nat)
    requires LcdOk(sys, root, t, roots) && n < |t.low| && w < |t.low| && Tarjan.Open(t, w) && e < |root| && root[e] == w
    ensures EdgeSeen(root, Tarjan.See(t, n, w), n, e)
  {
    assert Tarjan.NodeOk(BelowRel(sys), t, w) && Tarjan.NodeOk(BelowRel(sys), t, n);
  }

  /** An edge to a collapsed component. */
  lemma SeenRoot(sys: System, root: seq<nat>, t: Tarjan.Search, roots: set<nat>, n: nat, e: nat)
    requires LcdOk(sys, root, t, roots) && n < |t.low| && e < |root| && root[e] in roots
    ensures EdgeSeen(root, t, n, e)
  {
    assert Tarjan.Settled(root, t, roots, root[e]);
  }

  /** A recursive call leaves the followed edges followed. */
  lemma SeenStays(sys: System, st: State, t: Tarjan.Search, roots: set<nat>, st': State, t': Tarjan.Search, roots': set<nat>,
                  d: nat, n: nat, es: set<nat>)
    requires LcdOk(sys, st.root, t, roots) && Visited(sys, st, t, roots, st', t', roots', d)
    requires n in t.path && AllSeen(st.root, t, n, es) && LegalPartition(st.root)
    ensures AllSeen(st'.root, t', n, es)
  {
    hide Tarjan.PairOk, Shrunk;
    assert Tarjan.NodeOk(BelowRel(sys), t, n);
    forall e | e in es
      ensures EdgeSeen(st'.root, t', n, e)
    {
      assert EdgeSeen(st.root, t, n, e);
      SeenStaysAt(sys, st, t, roots, st', t', roots', d, n, e);
    }
  }

  lemma SeenStaysAt(sys: System, st: State, t: Tarjan.Search, roots: set<nat>, st': State, t': Tarjan.Search, roots': set<nat>,
                    d: nat, n: nat, e: nat)
    requires LcdOk(sys, st.root, t, roots) && Visited(sys, st, t, roots, st', t', roots', d)
    requires n in t.path && EdgeSeen(st.root, t, n, e) && LegalPartition(st.root) && n < |t.num| && t.num[n] > 0
    ensures EdgeSeen(st'.root, t', n, e)
  {
    hide Tarjan.PairOk, Tarjan.NodeOk, Tarjan.LeftBehind, Shrunk;
    var w := st.root[e];
    assert Tarjan.Settled(st.root, t, roots, e) && Tarjan.Settled(st.root, t, roots, w);
    assert Tarjan.CoarserAt(st.root, st'.root, Outside(t), e);
    if !Tarjan.Open(t, w) {
      assert w in roots && w in roots' && Tarjan.Settled(st'.root, t', roots', w);
    }
  }

  // The cases of following an edge `e` of `n` when `es` were followed.

  lemma SeenCollapsed(sys: System, root: seq<nat>, t: Tarjan.Search, roots: set<nat>, n: nat, es: set<nat>, e: nat)
    requires LcdOk(sys, root, t, roots) && n < |t.low| && e < |root| && root[e] in roots && AllSeen(root, t, n, es)
    ensures AllSeen(root, t, n, es + {e})
  {
    SeenRoot(sys, root, t, roots, n, e);
  }

  /** The edge leads to where one of them leads, or back to `n`. */
  lemma SeenAgain(sys: System, root: seq<nat>, t: Tarjan.Search, roots: set<nat>, n: nat, es: set<nat>, e: nat)
    requires LcdOk(sys, root, t, roots) && n in t.path && AllSeen(root, t, n, es)
    requires e < |root| && root[e] < |root| && root[root[e]] == root[e] && (root[e] in es || root[e] == n)
    ensures AllSeen(root, t, n, es + {e})
  {
    if root[e] in es {
      SeenSame(root, t, n, root[e], e);
    } else {
      assert Tarjan.NodeOk(BelowRel(sys), t, n) && Tarjan.Settled(root, t, roots, n);
    }
  }

  lemma SeenTarget(root: seq<nat>, t: Tarjan.Search, n: nat, es: set<nat>, e: nat)
    requires AllSeen(root, t, n, es + {e}) && e < |root| && root[e] < |root| && root[root[e]] == root[e]
    ensures AllSeen(root, t, n, es + {e} + {root[e]})
  {
    SeenSame(root, t, n, e, root[e]);
  }

  lemma FollowedOpen(sys: System, st: State, t: Tarjan.Search, roots: set<nat>, when: map<nat, nat>, n: nat, w: nat, es: set<nat>, e: nat)
    requires LcdOk(sys, st.root, t, roots) && Thorough(st, t, roots, when) && AllSeen(st.root, t, n, es)
    requires n < |t.low| && w < |t.low| && Tarjan.Open(t, w) && e < |st.root| && st.root[e] == w
    ensures Thorough(st, Tarjan.See(t, n, w), roots, when) && AllSeen(st.root, Tarjan.See(t, n, w), n, es + {e})
  {
    hide Tarjan.Inv, Tarjan.Collapsing, EdgeSeen;
    ThoroughSee(sys, st, t, roots, when, n, w);
    hide Thorough;
    SeenSee(st.root, t, n, w, n, es) by { LcdOkFacts(sys, st.root, t, roots); }
    SeenOpen(sys, st.root, t, roots, n, w, e);
  }

  /** Node `n` is being explored and its edges `es` were followed. */
  ghost predicate FollowedTo(sys: System, st0: State, t0: Tarjan.Search, roots0: set<nat>, st: State, t: Tarjan.Search, roots: set<nat>,
                             when: map<nat, nat>, n: nat, es: set<nat>) {
    Exploring(sys, st0, t0, roots0, st, t, roots, n) && Thorough(st, t, roots, when) && AllSeen(st.root, t, n, es)
  }

  /** Returning from a child: its outcome is taken into account. */
  lemma FollowedChild(sys: System, st0: State, t0: Tarjan.Search, roots0: set<nat>, st: State, t: Tarjan.Search, roots: set<nat>,
                      st': State, t': Tarjan.Search, roots': set<nat>, when': map<nat, nat>, d: nat, n: nat, es: set<nat>, e: nat)
    requires Exploring(sys, st0, t0, roots0, st, t, roots, n) && Below(sys, n, d) && Visited(sys, st, t, roots, st', t', roots', d)
    requires Thorough(st', t', roots', when')
    requires AllSeen(st.root, t, n, es) && LegalPartition(st.root) && e < |st.root| && st.root[e] == d
    ensures n < |t'.low| && d < |st'.root| && st'.root[d] < |t'.low|
    ensures FollowedTo(sys, st0, t0, roots0, st', Tarjan.See(t', n, st'.root[d]), roots', when', n, es + {e})
  {
    hide Thorough, AllSeen, Visited, LegalPartition, LcdOk;
    ExploreChild(sys, st0, t0, roots0, st, t, roots, n, st', t', roots', d);
    ChildSeen(sys, st0, t0, roots0, st, t, roots, st', t', roots', when', d, n, es, e);
    hide Exploring;
  }

  lemma ChildSeen(sys: System, st0: State, t0: Tarjan.Search, roots0: set<nat>, st: State, t: Tarjan.Search, roots: set<nat>,
                  st': State, t': Tarjan.Search, roots': set<nat>, when': map<nat, nat>, d: nat, n: nat, es: set<nat>, e: nat)
    requires Exploring(sys, st0, t0, roots0, st, t, roots, n) && Visited(sys, st, t, roots, st', t', roots', d)
    requires Thorough(st', t', roots', when')
    requires AllSeen(st.root, t, n, es) && LegalPartition(st.root) && e < |st.root| && st.root[e] == d
    ensures n < |t'.low| && d < |t'.low|
    ensures d in t'.stack ==> Thorough(st', Tarjan.See(t', n, d), roots', when') && AllSeen(st'.root, Tarjan.See(t', n, d), n, es + {e})
    ensures d !in t'.stack ==> AllSeen(st'.root, t', n, es + {e})
  {
    hide Thorough, AllSeen, LegalPartition, Shrunk;
    SeenStays(sys, st, t, roots, st', t', roots', d, n, es);
    assert Tarjan.NodeOk(BelowRel(sys), t, n);
    assert e < |st'.root| && st'.root[e] == st'.root[d] by { assert Tarjan.CoarserAt(st.root, st'.root, Outside(t), e); }
    if d in t'.stack {
      OpenIsRep(sys, st'.root, t', roots', d);
      FollowedOpen(sys, st', t', roots', when', n, d, es, e);
    } else {
      SeenCollapsed(sys, st'.root, t', roots', n, es, e);
    }
  }

  // The result.

  /** A copy edge leads from representative `a` to one of `b`'s class. */
  ghost predicate IsCopyEdge(st: State, a: nat, b: nat) {
    a < |st.nodes| && exists e :: e in st.nodes[a].copyTo && e < |st.root| && st.root[e] == b
  }

  ghost predicate IsCopyPath(st: State, p: seq<nat>) {
    p != [] && forall i :: 0 <= i < |p| - 1 ==> IsCopyEdge(st, p[i], p[i + 1])
  }

  ghost predicate CopyReaches(st: State, a: nat, b: nat) {
    exists p :: IsCopyPath(st, p) && p[0] == a && p[|p| - 1] == b
  }

  lemma {:induction false} PathSooner(st: State, t: Tarjan.Search, roots: set<nat>, when: map<nat, nat>, p: seq<nat>)
    requires Thorough(st, t, roots, when) && IsCopyPath(st, p) && p[0] in roots
    ensures p[|p| - 1] in roots && when[p[|p| - 1]] <= when[p[0]]
    decreases |p|
  {
    if |p| > 1 {
      assert IsCopyEdge(st, p[0], p[0 + 1]);
      var e :| e in st.nodes[p[0]].copyTo && e < |st.root| && st.root[e] == p[1];
      assert Sooner(st.root, when, p[0], e);
      var q := p[1..];
      assert forall i :: 0 <= i < |q| ==> q[i] == p[i + 1];
      PathSooner(st, t, roots, when, q);
    }
  }

  /** Whatever can be reached over copy edges from a visited representative
      was visited too, and is not on a cycle with any other. */
  lemma NoCycles(st: State, t: Tarjan.Search, roots: set<nat>, when: map<nat, nat>, a: nat, b: nat)
    requires Thorough(st, t, roots, when) && a in roots && CopyReaches(st, a, b)
    ensures b in roots && (CopyReaches(st, b, a) ==> a == b)
  {
    var p :| IsCopyPath(st, p) && p[0] == a && p[|p| - 1] == b;
    PathSooner(st, t, roots, when, p);
    if CopyReaches(st, b, a) {
      var q :| IsCopyPath(st, q) && q[0] == b && q[|q| - 1] == a;
      PathSooner(st, t, roots, when, q);
    }
  }

  /** Nothing that `n` leads to over copy edges lies on a cycle with another
      node. */
  ghost predicate LeadsToNoCycle(st: State, n: nat) {
    forall a, b :: CopyReaches(st, n, a) && CopyReaches(st, a, b) && CopyReaches(st, b, a) ==> a == b
  }

  /** Candidate `s` was searched from, unless it has been merged away. */
  ghost predicate Searched(st: State, roots: set<nat>, s: nat) {
    s in Reps(st.root) ==> s in roots
  }

  lemma StillSearched(st: State, st': State, roots: set<nat>, roots': set<nat>, ss: set<nat>)
    requires Shrunk(st, st') && roots <= roots' && forall s :: s in ss ==> Searched(st, roots, s)
    ensures forall s :: s in ss ==> Searched(st', roots', s)
  {
  }

  /** A visited node is in a collapsed component when nothing is open. */
  lemma WasSearched(sys: System, st: State, t: Tarjan.Search, roots: set<nat>, n: nat)
    requires LcdOk(sys, st.root, t, roots) && t.path == {} && t.stack == []
    requires n < |t.num| && (st.root[n] == n ==> t.num[n] > 0)
    ensures Searched(st, roots, n)
  {
    assert Tarjan.Settled(st.root, t, roots, n);
  }

  lemma AllSearched(st: State, t: Tarjan.Search, roots: set<nat>, when: map<nat, nat>, starts: set<nat>)
    requires Thorough(st, t, roots, when) && forall s :: s in starts ==> Searched(st, roots, s)
    ensures forall n :: n in starts && n < |st.root| && st.root[n] == n ==> LeadsToNoCycle(st, n)
  {
    hide Thorough;
    forall n, a, b | n in starts && n < |st.root| && st.root[n] == n && CopyReaches(st, n, a) && CopyReaches(st, a, b) && CopyReaches(st, b, a)
      ensures a == b
    {
      NoCycles(st, t, roots, when, n, a);
      NoCycles(st, t, roots, when, a, b);
    }
  }
}
