/** The depth-first search over an offline graph, one step at a time. */
module OfflineSearch {
  import opened Tarjan
  import opened OfflineGraph

  /** Node `n` is being visited by a search that started from `t0`; the edges
      `done` were followed. */
  ghost predicate Exploring(g: Graph, val: seq<set<nat>>, s: Off, t0: Search, t: Search, n: nat, done: set<nat>) {
    && OffOk(g, val, s, t)
    && t.path == t0.path + {n} && n !in t0.path && 0 < n
    && Begun(t0, t, n) && Frame(t, n, |t0.stack|)
    && AllFollowed(t, n, done)
  }

  /** The search from `n` is over. */
  ghost predicate Visited(g: Graph, val: seq<set<nat>>, s: Off, t0: Search, t: Search, n: nat) {
    && OffOk(g, val, s, t) && t.path == t0.path
    && |t0.num| == |t0.low| && n < |t0.num| && Descended(t0, t, n)
    && (n !in t.stack ==> n < |s.root| && s.root[n] in s.roots && t.low[n] == t.num[n])
  }

  // Entering a node and following an edge.

  lemma ExploreStart(g: Graph, val: seq<set<nat>>, s: Off, t: Search, n: nat, from: nat)
    requires OffOk(g, val, s, t) && 0 < n < |t.num| && t.num[n] == 0
    requires t.path != {} ==> IsTop(t, from) && (from, n) in Leads(g)
    ensures Exploring(g, val, s, t, Enter(t, n), n, {})
  {
    hide Labelled, Placed, Reach, FitsAt, EdgesFormed, TableOk, Settled, PairOk;
    var rel, t' := Leads(g), Enter(t, n);
    assert NodeState(g, val, s, t, n) && NodeOk(rel, t, n);
    assert Settled(s.root, t, s.roots, n);
    ReachSelf(g, n);
    EnterKeeps(rel, t, n, from);
    EnterCollapsing(rel, s.root, t, s.roots, n);
    forall v | 0 <= v < |val|
      ensures NodeState(g, val, s, t', v)
    {
      assert NodeState(g, val, s, t, v);
    }
    assert n !in t.path && n !in t.stack;
    forall v | v in t'.stack
      ensures AllFollowed(t', v, Succ(g, v))
    {
      hide Inv;
      assert AllFollowed(t, v, Succ(g, v));
      forall w | w in Succ(g, v)
        ensures Followed(t', v, w)
      {
        assert Followed(t, v, w);
      }
    }
  }

  /** Following an edge to an open node. */
  lemma ExploreSee(g: Graph, val: seq<set<nat>>, s: Off, t0: Search, t: Search, n: nat, done: set<nat>, w: nat)
    requires Exploring(g, val, s, t0, t, n, done) && w < |t.num| && Open(t, w) && (n, w) in Leads(g)
    ensures Exploring(g, val, s, t0, See(t, n, w), n, done + {w})
  {
    hide Labelled, Placed, Reach, FitsAt, EdgesFormed, TableOk;
    SeeKeeps(Leads(g), t, n, |t0.stack|, w);
    SeeCollapsing(Leads(g), s.root, t, s.roots, n, w);
    SeeOff(g, val, s, t, n, w);
    hide Inv, Collapsing, NodeState, OffOk;
    forall e | e in done + {w}
      ensures Followed(See(t, n, w), n, e)
    {
      if e != w {
        assert Followed(t, n, e);
      } else {
        OpenNum(g, val, s, t, w);
      }
    }
  }

  lemma OpenNum(g: Graph, val: seq<set<nat>>, s: Off, t: Search, w: nat)
    requires OffOk(g, val, s, t) && w < |t.num| && Open(t, w)
    ensures 0 < t.num[w] && t.low[w] <= t.num[w] && w < |s.root| && s.root[w] == w && w !in s.roots
  {
    assert NodeOk(Leads(g), t, w) && Settled(s.root, t, s.roots, w);
  }

  lemma SeeOff(g: Graph, val: seq<set<nat>>, s: Off, t: Search, n: nat, w: nat)
    requires OffOk(g, val, s, t) && n in t.path && n !in t.stack && w < |t.num|
    requires Inv(Leads(g), See(t, n, w)) && Collapsing(s.root, See(t, n, w), s.roots)
    ensures OffOk(g, val, s, See(t, n, w))
  {
    hide Labelled, Placed, Reach, FitsAt, EdgesFormed, TableOk, NodeOk, PairOk, Settled;
    var t' := See(t, n, w);
    forall v | 0 <= v < |val|
      ensures NodeState(g, val, s, t', v)
    {
      assert NodeState(g, val, s, t, v);
    }
    forall v | v in t'.stack
      ensures AllFollowed(t', v, Succ(g, v))
    {
      assert AllFollowed(t, v, Succ(g, v));
      forall e | e in Succ(g, v)
        ensures Followed(t', v, e)
      {
        assert Followed(t, v, e);
      }
    }
  }

  /** An edge to a node that is merged into `n` or belongs to a collapsed
      component needs no following. */
  lemma ExploreSkip(g: Graph, val: seq<set<nat>>, s: Off, t0: Search, t: Search, n: nat, done: set<nat>, w: nat)
    requires Exploring(g, val, s, t0, t, n, done) && w < |s.root| && (s.root[w] == n || s.root[w] in s.roots)
    ensures Exploring(g, val, s, t0, t, n, done + {w})
  {
    hide Labelled, Placed, Reach, FitsAt, EdgesFormed, TableOk, PairOk;
    assert NodeState(g, val, s, t, w) && Settled(s.root, t, s.roots, w) && Settled(s.root, t, s.roots, n);
    assert NodeOk(Leads(g), t, n);
    hide Inv, Collapsing, NodeState, OffOk;
    forall e | e in done + {w}
      ensures Followed(t, n, e)
    {
      if e != w {
        assert Followed(t, n, e);
      }
    }
  }

  /** Returning from a child keeps the edges that were followed. */
  lemma FollowedDescend(rel: Relation, t: Search, t': Search, d: nat, v: nat, w: nat)
    requires Inv(rel, t) && d < |t.num| && Descended(t, t', d) && t'.path == t.path
    requires Followed(t, v, w) && t.num[v] > 0
    ensures Followed(t', v, w)
  {
    assert NodeOk(rel, t, w);
    hide Inv;
    if w in t'.stack {
      var i :| 0 <= i < |t'.stack| && t'.stack[i] == w;
      if i < |t.stack| {
        assert t.stack[i] == w;
      }
    }
  }

  lemma ExploreChild(g: Graph, val: seq<set<nat>>, t0: Search, s: Off, t: Search, n: nat, done: set<nat>, s': Off, t': Search, d: nat)
    requires Exploring(g, val, s, t0, t, n, done) && (n, d) in Leads(g) && Visited(g, val, s', t, t', d)
    ensures n < |t'.low| && d < |t'.low|
    ensures d in t'.stack ==> Exploring(g, val, s', t0, See(t', n, d), n, done + {d})
    ensures d !in t'.stack ==> Exploring(g, val, s', t0, t', n, done + {d}) && t'.low[n] <= t'.low[d]
  {
    ChildReturned(g, val, t0, s, t, n, done, s', t', d);
    hide OffOk, Inv, Collapsing, Descended, Fits;
    if d in t'.stack {
      ChildOpen(g, val, t0, s', t', n, done, d);
    } else {
      assert s'.root[d] < |s'.root| by { RootInRange(g, val, s', t', d); }
      ExploreSkip(g, val, s', t0, t', n, done, d);
    }
  }

  lemma RootInRange(g: Graph, val: seq<set<nat>>, s: Off, t: Search, v: nat)
    requires OffOk(g, val, s, t) && v < |s.root|
    ensures s.root[v] < |s.root| == |t.num| == |t.low| && (t.num[v] == 0 <==> t.low[v] == 0)
  {
    assert Settled(s.root, t, s.roots, v);
  }

  /** What is known when a child has returned, but for the frame of `n`. */
  ghost predicate Returned(g: Graph, val: seq<set<nat>>, s: Off, t0: Search, t: Search, n: nat, done: set<nat>, d: nat) {
    && OffOk(g, val, s, t)
    && t.path == t0.path + {n} && n !in t0.path && 0 < n
    && Begun(t0, t, n) && AllFollowed(t, n, done)
    && IsTop(t, n) && |t0.stack| <= |t.stack| && d < |t.num|
    && (forall i :: 0 <= i < |t0.stack| ==> t.stack[i] in t.stack && t.num[t.stack[i]] < t.num[n])
    && (forall i :: |t0.stack| <= i < |t.stack| ==>
          t.stack[i] in t.stack && t.num[n] < t.num[t.stack[i]] &&
          (t.low[n] <= t.low[t.stack[i]] || t.low[d] <= t.low[t.stack[i]]))
  }

  lemma ChildReturned(g: Graph, val: seq<set<nat>>, t0: Search, s: Off, t: Search, n: nat, done: set<nat>, s': Off, t': Search, d: nat)
    requires Exploring(g, val, s, t0, t, n, done) && Visited(g, val, s', t, t', d)
    ensures Returned(g, val, s', t0, t', n, done, d)
    ensures d !in t'.stack ==> Exploring(g, val, s', t0, t', n, done) && t'.low[n] <= t'.low[d]
  {
    hide NodeState, FitsAt, EdgesFormed, TableOk, PairOk, Settled;
    ChildFrame(Leads(g), t0, t, t', n, d);
    assert NodeOk(Leads(g), t, n);
    forall w | w in done
      ensures Followed(t', n, w)
    {
      assert Followed(t, n, w);
      FollowedDescend(Leads(g), t, t', d, n, w);
    }
  }

  lemma ChildOpen(g: Graph, val: seq<set<nat>>, t0: Search, s: Off, t: Search, n: nat, done: set<nat>, d: nat)
    requires Returned(g, val, s, t0, t, n, done, d) && d in t.stack && (n, d) in Leads(g)
    ensures Exploring(g, val, s, t0, See(t, n, d), n, done + {d})
  {
    hide Labelled, Placed, Reach, FitsAt, EdgesFormed, TableOk;
    SeeKeeps(Leads(g), t, n, |t0.stack|, d);
    assert NodeOk(Leads(g), t, n);
    SeeCollapsing(Leads(g), s.root, t, s.roots, n, d);
    SeeOff(g, val, s, t, n, d);
    OpenNum(g, val, s, t, d);
    hide Inv, Collapsing, NodeState, OffOk;
    forall e | e in done + {d}
      ensures Followed(See(t, n, d), n, e)
    {
      if e != d {
        assert Followed(t, n, e);
      }
    }
  }

  /** Leaving `n` on the stack. */
  lemma ExplorePushed(g: Graph, val: seq<set<nat>>, s: Off, t0: Search, t: Search, n: nat)
    requires Exploring(g, val, s, t0, t, n, SuccOf(g, n)) && t.low[n] != t.num[n]
    ensures Visited(g, val, s, t0, Finish(t, n), n)
  {
    hide Labelled, Placed, Reach, FitsAt, EdgesFormed, TableOk, PairOk;
    var t', rel := Finish(t, n), Leads(g);
    assert NodeOk(rel, t, n);
    FinishKeeps(rel, t, n, |t0.stack|);
    FinishCollapsing(s.root, t, s.roots, n);
    assert t.path - {n} == t0.path;
    assert t'.stack[|t'.stack| - 1] == n;
    StackLeft(rel, t0, t, t', n);
    hide Inv, Collapsing, Descended, Begun;
    forall v | 0 <= v < |val|
      ensures NodeState(g, val, s, t', v)
    {
      assert NodeState(g, val, s, t, v);
    }
    forall v | v in t'.stack
      ensures AllFollowed(t', v, Succ(g, v))
    {
      assert AllFollowed(t, v, Succ(g, v));
      forall w | w in Succ(g, v)
        ensures Followed(t', v, w)
      {
        assert Followed(t, v, w);
      }
    }
  }

  ghost function SuccOf(g: Graph, n: nat): set<nat> {
    if n < |g.direct| == |g.implied| then Succ(g, n) else {}
  }

  /** The first node of a search always closes its component. */
  lemma RootCloses(g: Graph, val: seq<set<nat>>, s: Off, t0: Search, t: Search, n: nat)
    requires Visited(g, val, s, t0, t, n) && t0.path == {} && t0.stack == [] && 0 < t0.clock
    ensures t.stack == [] && OffOk(g, val, s, t)
    ensures n < |t.num| && t.num[n] > 0 && forall v :: 0 <= v < |t0.num| && t0.num[v] > 0 ==> v < |t.num| && t.num[v] > 0
  {
    if n in t.stack {
      var i := StackLeads(Leads(g), t, n);
    }
    hide Inv, Collapsing, NodeState;
  }

  /** A representative that is visited but not labelled is open. */
  lemma EdgeTarget(g: Graph, val: seq<set<nat>>, s: Off, t0: Search, t: Search, n: nat, done: set<nat>, w: nat)
    requires Exploring(g, val, s, t0, t, n, done) && w in SuccOf(g, n)
    ensures 0 < w < |s.root| == |t.num| == |t.low| && s.root[w] < |s.root| && (n, w) in Leads(g)
    ensures s.root[w] != n && s.root[w] !in s.roots ==> s.root[w] == w && (t.num[w] > 0 ==> Open(t, w))
    ensures t.num[w] == 0 <==> t.low[w] == 0
    ensures n in t.path && IsTop(t, n) && n < |t.low|
  {
    ReachEdge(g, n, w) by { assert EdgesFormed(g, n); }
    hide PairOk, NodeOk, Labelled, TableOk;
    assert FitsAt(g, val, s.mean, n) && EdgesFormed(g, n);
    assert NodeState(g, val, s, t, w) && Settled(s.root, t, s.roots, w);
  }

  /** While `n` is visited it is as it was. */
  lemma ExploringFacts(g: Graph, val: seq<set<nat>>, s: Off, t0: Search, t: Search, n: nat, done: set<nat>)
    requires Exploring(g, val, s, t0, t, n, done)
    ensures n < |s.root| == |t.num| == |t.low| == |g.direct| == |g.implied| == |s.direct| == |s.implied|
    ensures s.direct[n] == g.direct[n] && s.implied[n] == g.implied[n]
    ensures t.num[n] == t0.clock && (0 < t0.clock ==> Unvisited(t.num) < Unvisited(t0.num))
  {
    hide PairOk, NodeOk, Labelled, TableOk, FitsAt, EdgesFormed;
    assert Settled(s.root, t, s.roots, n) && NodeState(g, val, s, t, n);
    if 0 < t0.clock {
      UnvisitedShrinks(t0, t, n);
    }
  }

  lemma ExploringOk(g: Graph, val: seq<set<nat>>, s: Off, t0: Search, t: Search, n: nat, done: set<nat>)
    requires Exploring(g, val, s, t0, t, n, done)
    ensures OffOk(g, val, s, t)
  {
  }

  lemma OkSizes(g: Graph, val: seq<set<nat>>, s: Off, t: Search)
    requires OffOk(g, val, s, t)
    ensures |t.num| == |t.low| == |g.direct| == |s.root| == |val|
  {
  }

  lemma VisitedNum(g: Graph, val: seq<set<nat>>, s: Off, t: Search, v: nat)
    requires OffOk(g, val, s, t) && v < |t.num|
    ensures v < |t.low| && (t.num[v] == 0 <==> t.low[v] == 0)
  {
    assert Settled(s.root, t, s.roots, v);
  }

  /** Every node but 0 has its labels and its place. */
  ghost predicate AllLabelled(g: Graph, val: seq<set<nat>>, s: Off) {
    && Fits(g, val, s.mean) && Sizes(g, s) && TableOk(s) && WhenOk(s)
    && forall v :: 0 < v < |val| ==> s.root[v] in s.roots && Labelled(g, val, s, v) && Placed(g, s, v)
  }

  lemma RunEnd(g: Graph, val: seq<set<nat>>, s: Off, t: Search)
    requires OffOk(g, val, s, t) && t.path == {} && t.stack == []
    requires forall v :: 0 < v < |t.num| ==> t.num[v] > 0
    ensures AllLabelled(g, val, s)
  {
    hide Labelled, Placed, FitsAt, EdgesFormed, TableOk, NodeOk, PairOk, Leads;
    forall v | 0 < v < |val|
      ensures s.root[v] in s.roots && Labelled(g, val, s, v) && Placed(g, s, v)
    {
      assert NodeState(g, val, s, t, v) && Settled(s.root, t, s.roots, v);
    }
  }

  /** Components are closed in the order in which they lead to each other. */
  lemma {:induction false} PathSooner(g: Graph, val: seq<set<nat>>, s: Off, p: seq<nat>)
    requires AllLabelled(g, val, s) && IsPath(g, p) && 0 < p[0]
    ensures 0 < p[|p| - 1] && Sooner(s, p[|p| - 1], p[0])
    decreases |p|
  {
    hide Labelled, FitsAt, TableOk, Reach;
    assert Placed(g, s, p[0]);
    if |p| > 1 {
      assert IsEdge(g, p[0], p[0 + 1]) && EdgesFormed(g, p[0]) && Sooner(s, p[1], p[0]);
      var q := p[1..];
      assert forall i :: 0 <= i < |q| ==> q[i] == p[i + 1];
      PathSooner(g, val, s, q);
    }
  }

  /** Nodes share a representative exactly if they lead to each other. */
  lemma ComponentsExact(g: Graph, val: seq<set<nat>>, s: Off, u: nat, v: nat)
    requires AllLabelled(g, val, s) && 0 < u < |val| && 0 < v < |val|
    ensures s.root[u] == s.root[v] <==> Reach(g, u, v) && Reach(g, v, u)
  {
    hide Labelled, FitsAt, TableOk, IsEdge, EdgesFormed;
    assert Placed(g, s, u) && Placed(g, s, v);
    if s.root[u] == s.root[v] {
      ReachTransitive(g, u, s.root[u], v);
      ReachTransitive(g, v, s.root[u], u);
    }
    if Reach(g, u, v) && Reach(g, v, u) {
      var p :| IsPath(g, p) && p[0] == u && p[|p| - 1] == v;
      var q :| IsPath(g, q) && q[0] == v && q[|q| - 1] == u;
      PathSooner(g, val, s, p);
      PathSooner(g, val, s, q);
    }
  }
}
