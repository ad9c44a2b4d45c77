/** Lazy cycle detection on the solver's state: which merges it may make, and
    why they leave the invariant intact. */
module LcdState {
  import opened Constraints
  import opened ConstraintGraph
  import opened GraphSteps
  import opened GraphMerge
  import opened SolverState
  import UnionFind
  import Tarjan

  /** Node `a` points to no more than `b` in any solution. Copy edges are part
      of this relation, so nodes on a common cycle are equal in all of them. */
  ghost function BelowRel(sys: System): Tarjan.Relation {
    iset q: (nat, nat) | Below(sys, q.0, q.1)
  }

  /** The search and the partition fit together, and only nodes that may be
      merged are open. */
  ghost predicate LcdOk(sys: System, root: seq<nat>, t: Tarjan.Search, roots: set<nat>) {
    && |root| == sys.n
    && Tarjan.Inv(BelowRel(sys), t)
    && Tarjan.Collapsing(root, t, roots)
    && (forall v :: Tarjan.Open(t, v) ==> 0 < v && v != I2P)
  }

  ghost function Reps(root: seq<nat>): set<nat> {
    set i | 0 <= i < |root| && root[i] == i
  }

  /** Either some nodes were merged, or nothing happened that would need
      another visit. */
  ghost predicate Shrunk(st: State, st': State) {
    || Reps(st'.root) < Reps(st.root)
    || (Reps(st'.root) == Reps(st.root) && st'.now == st.now && st'.later == st.later && Unseen(st'.nodes) == Unseen(st.nodes))
  }

  /** Node `n` was the first of its component to be visited, and everything
      it leads to was explored. */
  ghost predicate AtRoot(sys: System, root: seq<nat>, t: Tarjan.Search, roots: set<nat>, n: nat, base: nat) {
    LcdOk(sys, root, t, roots) && Tarjan.Frame(t, n, base) && t.low[n] == t.num[n]
  }

  // Merging.

  ghost function MergedState(st: State, parent: nat, child: nat): State
    requires parent < |st.nodes| && child < |st.nodes|
  {
    st.(root := UnionFind.Relabel(st.root, child, parent), nodes := MergeNodes(st.nodes, parent, child))
  }

  lemma MergeOk(sys: System, st: State, pending: set<nat>, p: nat, c: nat)
    requires Ok(sys, st, 0, {}, pending) && pending <= {p, c} && Mergeable(sys, View(st, 0, {}), p, c)
    requires p < |st.nodes| && c < |st.nodes|
    ensures Ok(sys, MergedState(st, p, c), 0, {}, {p})
    ensures Reps(MergedState(st, p, c).root) < Reps(st.root)
  {
    var st' := MergedState(st, p, c);
    var g := View(st, 0, {});
    assert forall j :: 0 <= j < |st.nodes| && Timely(st, j) ==> Timely(st', j);
    UnifyKeeps(sys, g, Queued(st) + pending + {0}, p, c);
    MoreLive(sys, Unify(g, p, c), Queued(st) + pending + {0} - {c} + {p}, Queued(st') + {p} + {0});
    assert c in Reps(st.root) && c !in Reps(st'.root);
  }

  /** The stack holds the component down to `base`, and nothing below it. */
  lemma PopGuard(sys: System, root: seq<nat>, t: Tarjan.Search, roots: set<nat>, n: nat, base: nat, j: nat)
    requires AtRoot(sys, root, t, roots, n, base)
    requires base <= j <= |t.stack| && 0 < j
    ensures t.stack[j - 1] < |t.low| && (t.low[t.stack[j - 1]] >= t.num[n] <==> base < j)
  {
    var s := t.stack[j - 1];
    assert s in t.stack && Tarjan.NodeOk(BelowRel(sys), t, s);
  }

  /** A member of the component is its own representative so far, and equal in
      every solution to the node that was visited first. */
  lemma MemberTied(sys: System, root: seq<nat>, t: Tarjan.Search, roots: set<nat>, n: nat, base: nat, j: nat, m: nat)
    requires AtRoot(sys, root, t, roots, n, base)
    requires base <= j <= |t.stack| && m in Tarjan.Component(t, n, j)
    ensures 0 < m < |root| && m != I2P && root[m] == m && Below(sys, n, m) && Below(sys, m, n)
  {
    if m != n {
      var i :| j <= i < |t.stack| && t.stack[i] == m;
      TiedToFirst(sys, t, n, base, i);
    } else {
      assert Tarjan.PairOk(BelowRel(sys), t, n, n);
    }
    assert Tarjan.Settled(root, t, roots, m);
  }

  /** The next node on the stack is a representative outside what was merged
      so far, and equal to it in every solution. */
  lemma PopStep(sys: System, root0: seq<nat>, root: seq<nat>, t: Tarjan.Search, roots: set<nat>, n: nat, base: nat, j: nat, m: nat)
    requires AtRoot(sys, root0, t, roots, n, base)
    requires base < j <= |t.stack| && m in Tarjan.Component(t, n, j)
    requires Tarjan.Joined(root0, root, Tarjan.Component(t, n, j), m)
    ensures var s := t.stack[j - 1];
            && s !in Tarjan.Component(t, n, j) && Tarjan.Component(t, n, j - 1) == Tarjan.Component(t, n, j) + {s}
            && 0 < m < |root| && 0 < s < |root| && root[m] == m && root[s] == s
            && m != I2P && s != I2P && m != s && Below(sys, m, s) && Below(sys, s, m)
  {
    var s := t.stack[j - 1];
    assert t.stack[j - 1..] == [s] + t.stack[j..];
    assert s in t.stack && Tarjan.NodeOk(BelowRel(sys), t, s);
    hide Tarjan.NodeOk, Tarjan.PairOk, Tarjan.Settled;
    MemberTied(sys, root0, t, roots, n, base, j, m);
    MemberTied(sys, root0, t, roots, n, base, j - 1, s);
    BelowTransitive(sys, m, n, s);
    BelowTransitive(sys, s, n, m);
  }

  lemma TiedToFirst(sys: System, t: Tarjan.Search, n: nat, base: nat, i: nat)
    requires Tarjan.Inv(BelowRel(sys), t) && Tarjan.Frame(t, n, base) && t.low[n] == t.num[n]
    requires base <= i < |t.stack|
    ensures Below(sys, n, t.stack[i]) && Below(sys, t.stack[i], n)
  {
    Tarjan.ComponentTied(BelowRel(sys), t, n, base, i);
  }

  /** Merging a component down to height `j` of the stack: its members so far
      form the class of `m`, and no other node changed. */
  ghost predicate Popped(st0: State, st: State, t: Tarjan.Search, n: nat, base: nat, j: nat, m: nat, chg: bool) {
    && base <= j <= |t.stack| && |st.nodes| == |st0.nodes| == |st.root|
    && m in Tarjan.Component(t, n, j)
    && Tarjan.Joined(st0.root, st.root, Tarjan.Component(t, n, j), m)
    && (if chg then Reps(st.root) < Reps(st0.root) else st == st0)
    && (forall q :: 0 <= q < |st.nodes| && q !in Tarjan.Component(t, n, j) ==> st.nodes[q] == st0.nodes[q])
    && (forall e :: m < |st.nodes| && e in st.nodes[m].copyTo ==> EdgeOfMember(st0, t, n, j, e))
  }

  /** Some node merged so far has copy edge `e`. */
  ghost predicate EdgeOfMember(st0: State, t: Tarjan.Search, n: nat, j: nat, e: nat)
    requires j <= |t.stack|
  {
    exists v :: v in Tarjan.Component(t, n, j) && v < |st0.nodes| && e in st0.nodes[v].copyTo
  }

  /** The next merge is allowed. */
  lemma PopReady(sys: System, st0: State, st: State, t: Tarjan.Search, roots: set<nat>, n: nat, base: nat, j: nat, m: nat, chg: bool)
    requires AtRoot(sys, st0.root, t, roots, n, base)
    requires Popped(st0, st, t, n, base, j, m, chg) && base < j
    ensures t.stack[j - 1] < |st.root| == |st.nodes| && st.root[t.stack[j - 1]] == t.stack[j - 1] != m
    ensures m < |st.nodes| && Mergeable(sys, View(st, 0, {}), m, t.stack[j - 1])
  {
    PopStep(sys, st0.root, st.root, t, roots, n, base, j, m);
  }

  lemma PopMerge(sys: System, st0: State, st: State, t: Tarjan.Search, roots: set<nat>, n: nat, base: nat, j: nat, m: nat, chg: bool, p: nat, c: nat)
    requires AtRoot(sys, st0.root, t, roots, n, base)
    requires Popped(st0, st, t, n, base, j, m, chg) && base < j
    requires (p == m && c == t.stack[j - 1]) || (p == t.stack[j - 1] && c == m)
    requires p < |st.nodes| && c < |st.nodes| && Reps(MergedState(st, p, c).root) < Reps(st.root)
    ensures Popped(st0, MergedState(st, p, c), t, n, base, j - 1, p, true)
  {
    hide AtRoot, Reps, EdgeOfMember, Tarjan.Joined, Tarjan.Component;
    PopStep(sys, st0.root, st.root, t, roots, n, base, j, m);
    Tarjan.JoinStep(st0.root, st.root, Tarjan.Component(t, n, j), m, t.stack[j - 1], p, c);
    forall e | e in MergedState(st, p, c).nodes[p].copyTo
      ensures EdgeOfMember(st0, t, n, j - 1, e)
    {
      PopEdge(st0, st, t, n, base, j, m, chg, p, c, e);
    }
  }

  /** Whose edge it was before the merge. */
  lemma PopEdge(st0: State, st: State, t: Tarjan.Search, n: nat, base: nat, j: nat, m: nat, chg: bool, p: nat, c: nat, e: nat)
    requires Popped(st0, st, t, n, base, j, m, chg) && base < j <= |t.stack| && p < |st.nodes| && c < |st.nodes|
    requires (p == m && c == t.stack[j - 1]) || (p == t.stack[j - 1] && c == m)
    requires t.stack[j - 1] !in Tarjan.Component(t, n, j)
    requires Tarjan.Component(t, n, j - 1) == Tarjan.Component(t, n, j) + {t.stack[j - 1]}
    requires e in MergedState(st, p, c).nodes[p].copyTo
    ensures EdgeOfMember(st0, t, n, j - 1, e)
  {
    var s := t.stack[j - 1];
    hide Tarjan.Component, Tarjan.Joined;
    assert st.nodes[s] == st0.nodes[s];
    if e in st.nodes[m].copyTo {
      assert EdgeOfMember(st0, t, n, j, e);
      var v :| v in Tarjan.Component(t, n, j) && v < |st0.nodes| && e in st0.nodes[v].copyTo;
      assert v in Tarjan.Component(t, n, j - 1);
    } else {
      assert s in Tarjan.Component(t, n, j - 1);
    }
  }

  lemma CollapseStart(sys: System, st: State, t: Tarjan.Search, roots: set<nat>, n: nat, base: nat)
    requires AtRoot(sys, st.root, t, roots, n, base) && |st.nodes| == |st.root|
    ensures n < |t.low| == |t.num| && t.low[n] == t.num[n] && base <= |t.stack|
    ensures forall i :: 0 <= i < |t.stack| ==> t.stack[i] < |t.low|
    ensures Popped(st, st, t, n, base, |t.stack|, n, false)
  {
  }

  /** A component joined in one class leaves all other classes alone. */
  lemma JoinedCoarser(root: seq<nat>, root': seq<nat>, members: set<nat>, m: nat, keep: set<nat>)
    requires LegalPartition(root) && Tarjan.Joined(root, root', members, m) && m in members && members !! keep
    ensures Tarjan.Coarser(root, root', keep)
  {
  }

  /** A stretch of cycle detection: classes of `keep` and nodes on `path` are
      untouched. */
  ghost predicate Advanced(st: State, st': State, path: set<nat>, keep: set<nat>) {
    && |st'.nodes| == |st.nodes|
    && Tarjan.Coarser(st.root, st'.root, keep)
    && (forall q :: q in path && q < |st.nodes| ==> st'.nodes[q] == st.nodes[q])
    && Shrunk(st, st')
  }

  /** What is outside a search: its path and the stack it started with. */
  ghost function Outside(t: Tarjan.Search): set<nat> {
    t.path + set s | s in t.stack
  }

  /** The component of `n` is closed and collapsed. */
  ghost predicate Closed(sys: System, st0: State, t0: Tarjan.Search, roots0: set<nat>, st: State, t: Tarjan.Search, roots: set<nat>, n: nat) {
    && LcdOk(sys, st.root, t, roots) && roots0 <= roots
    && n < |st.root| && st.root[n] in roots && st.root[n] < |t.low| && n < |t.num| && t.num[n] <= t.low[st.root[n]]
    && Advanced(st0, st, t.path, Outside(t))
  }

  lemma CollapseEnd(sys: System, st0: State, st: State, t: Tarjan.Search, roots: set<nat>, n: nat, base: nat, m: nat, chg: bool)
    requires AtRoot(sys, st0.root, t, roots, n, base) && LegalPartition(st0.root)
    requires Popped(st0, st, t, n, base, base, m, chg)
    ensures m < |st.nodes|
    ensures Closed(sys, st0, t, roots, if chg then Pushed(st, m) else st, Tarjan.Close(t, n, base), roots + {m}, n)
  {
    hide Tarjan.NodeOk, Tarjan.PairOk, Tarjan.Settled, Reps, EdgeOfMember, Tarjan.Coarser, LegalPartition;
    var c, t', keep := Tarjan.Component(t, n, base), Tarjan.Close(t, n, base), Outside(Tarjan.Close(t, n, base));
    CollapseSearch(sys, st0.root, st.root, t, roots, n, base, m);
    forall v | v in keep
      ensures v !in c
    {
      KeptApart(sys, t, n, base, v);
    }
    JoinedCoarser(st0.root, st.root, c, m, keep);
  }

  lemma CollapseSearch(sys: System, root0: seq<nat>, root: seq<nat>, t: Tarjan.Search, roots: set<nat>, n: nat, base: nat, m: nat)
    requires AtRoot(sys, root0, t, roots, n, base) && m in Tarjan.Component(t, n, base)
    requires Tarjan.Joined(root0, root, Tarjan.Component(t, n, base), m)
    ensures LcdOk(sys, root, Tarjan.Close(t, n, base), roots + {m})
    ensures n < |root| && root[n] == m < |t.low| && m < |root| && t.num[n] <= t.low[m]
  {
    Tarjan.CloseKeeps(BelowRel(sys), t, n, base);
    Tarjan.CloseCollapsing(BelowRel(sys), root0, root, t, roots, n, base, m);
    hide Tarjan.NodeOk, Tarjan.PairOk, Tarjan.Settled;
    MemberTied(sys, root0, t, roots, n, base, base, n);
    if m != n {
      var i :| base <= i < |t.stack| && t.stack[i] == m;
    }
    assert forall v :: Tarjan.Open(Tarjan.Close(t, n, base), v) ==> Tarjan.Open(t, v);
  }

  lemma KeptApart(sys: System, t: Tarjan.Search, n: nat, base: nat, v: nat)
    requires Tarjan.Inv(BelowRel(sys), t) && Tarjan.Frame(t, n, base)
    requires v in t.path - {n} || v in t.stack[..base]
    ensures v !in Tarjan.Component(t, n, base)
  {
  }

  // Cleaning up copy edges.

  /** The edges of `n` outside `todo` are kept, lead to `n` itself, or are
      replaced; every replacement has the target of some edge of `n`. */
  ghost predicate EdgesDone(root: seq<nat>, n: nat, copyTo: set<nat>, todo: set<nat>, del: set<nat>, add: set<nat>) {
    && (forall e :: e in add ==> e != n && Replaces(root, copyTo, e))
    && (forall e :: e in copyTo - todo ==> e < |root| && (e !in del || root[e] == n || Replaced(root, add, e)))
  }

  ghost predicate Replaces(root: seq<nat>, copyTo: set<nat>, e: nat) {
    0 < e < |root| && e != I2P && exists f :: f in copyTo && f < |root| && root[f] == root[e]
  }

  ghost predicate Replaced(root: seq<nat>, add: set<nat>, e: nat) {
    e < |root| && exists f :: f in add && f < |root| && root[f] == root[e]
  }

  lemma CoarserSame(root: seq<nat>, root': seq<nat>, keep: set<nat>, i: nat, j: nat)
    requires Tarjan.Coarser(root, root', keep) && i < |root| && j < |root| && root[i] == root[j]
    ensures root'[i] == root'[j]
  {
    assert Tarjan.CoarserAt(root, root', keep, i) && Tarjan.CoarserAt(root, root', keep, j);
  }

  lemma EdgesDoneCoarser(root: seq<nat>, root': seq<nat>, keep: set<nat>, n: nat, copyTo: set<nat>, todo: set<nat>, del: set<nat>, add: set<nat>)
    requires EdgesDone(root, n, copyTo, todo, del, add) && Tarjan.Coarser(root, root', keep) && n in keep
    ensures EdgesDone(root', n, copyTo, todo, del, add)
  {
    forall e | e in add
      ensures Replaces(root', copyTo, e)
    {
      var f :| f in copyTo && f < |root| && root[f] == root[e];
      CoarserSame(root, root', keep, f, e);
    }
    forall e | e in copyTo - todo
      ensures e < |root'| && (e !in del || root'[e] == n || Replaced(root', add, e))
    {
      assert Tarjan.CoarserAt(root, root', keep, e);
      if e in del && root[e] != n {
        var f :| f in add && f < |root| && root[f] == root[e];
        CoarserSame(root, root', keep, f, e);
      }
    }
  }

  /** One edge `e` dealt with: kept, dropped, or replaced by `d`. */
  lemma EdgesDoneMore(root: seq<nat>, n: nat, copyTo: set<nat>, todo: set<nat>, del: set<nat>, add: set<nat>, e: nat, d: nat)
    requires EdgesDone(root, n, copyTo, todo, del, add) && e in todo && e in copyTo && e < |root|
    requires 0 < d < |root| && d != I2P && root[d] == root[e]
    ensures EdgesDone(root, n, copyTo, todo - {e}, del, add)  || e in del
    ensures root[e] == n ==> EdgesDone(root, n, copyTo, todo - {e}, del + {e}, add)
    ensures d != n ==> EdgesDone(root, n, copyTo, todo - {e}, del + {e}, add + {d})
    ensures d in add ==> EdgesDone(root, n, copyTo, todo - {e}, del + {e}, add)
  {
    assert forall f :: f in copyTo - (todo - {e}) ==> f == e || f in copyTo - todo;
    assert d in add ==> Replaced(root, add, e);
    assert d in add + {d} && Replaced(root, add + {d}, e);
    assert Replaces(root, copyTo, d);
    assert forall f :: Replaced(root, add, f) ==> Replaced(root, add + {d}, f);
  }

  lemma RewireOk(sys: System, st: State, n: nat, del: set<nat>, add: set<nat>)
    requires Ok(sys, st, 0, {}, {}) && Usable(View(st, 0, {}), n) && n < |st.nodes|
    requires EdgesDone(st.root, n, st.nodes[n].copyTo, {}, del, add)
    ensures var st' := st.(nodes := st.nodes[n := st.nodes[n].(copyTo := st.nodes[n].copyTo - del + add)]);
            Ok(sys, st', 0, {}, {}) && Shrunk(st, st')
  {
    var es := st.nodes[n].copyTo - del + add;
    var st' := st.(nodes := st.nodes[n := st.nodes[n].(copyTo := es)]);
    var g := View(st, 0, {});
    assert NodeShape(g, n);
    CleanTargets(g, n, del, add);
    RewireKeeps(sys, g, Queued(st) + {} + {0}, n, es);
    assert Queued(st') == Queued(st) by {
      assert forall j :: 0 <= j < |st.nodes| ==> (Timely(st, j) <==> Timely(st', j));
    }
    assert Unseen(st'.nodes) == Unseen(st.nodes) by {
      assert forall i :: 0 <= i < |st.nodes| ==> st'.nodes[i].prev == st.nodes[i].prev;
    }
  }

  lemma CleanTargets(g: Graph, n: nat, del: set<nat>, add: set<nat>)
    requires |g.root| == |g.nodes| && n < |g.nodes| && NodeShape(g, n)
    requires EdgesDone(g.root, n, g.nodes[n].copyTo, {}, del, add)
    ensures SameTargets(g, n, g.nodes[n].copyTo - del + add)
  {
  }
}
