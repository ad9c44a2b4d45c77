/** When two nodes get the same labels, in terms of the graph alone. */
module OfflineSources {
  import opened Tarjan
  import opened OfflineGraph
  import opened OfflineSearch
  import opened OfflineRules

  /** Node `a` draws on `b`: over a direct edge, or because they lead to each
      other. */
  ghost predicate IsDraw(g: Graph, a: nat, b: nat) {
    && a < |g.direct| && b < |g.direct| && 0 < b
    && (b in g.direct[a] || (Reach(g, a, b) && Reach(g, b, a)))
  }

  ghost predicate IsDrawPath(g: Graph, p: seq<nat>) {
    p != [] && forall i :: 0 <= i < |p| - 1 ==> IsDraw(g, p[i], p[i + 1])
  }

  ghost predicate Draws(g: Graph, a: nat, b: nat) {
    exists p :: IsDrawPath(g, p) && p[0] == a && p[|p| - 1] == b
  }

  /** Node `v` draws on a node that starts with label `l`. */
  ghost predicate DrawsStart(g: Graph, v: nat, l: nat) {
    exists u: nat :: u < |g.pre| && Draws(g, v, u) && l in g.pre[u]
  }

  /** Node `v` draws on indirect node `u`. */
  ghost predicate DrawsIndirect(g: Graph, v: nat, u: nat) {
    u < |g.indirect| && Draws(g, v, u) && g.indirect[u]
  }

  ghost predicate HasSource(g: Graph, v: nat) {
    (exists l: nat :: DrawsStart(g, v, l)) || exists u: nat :: DrawsIndirect(g, v, u)
  }

  ghost predicate SameSources(g: Graph, v: nat, w: nat) {
    && (forall l: nat :: DrawsStart(g, v, l) <==> DrawsStart(g, w, l))
    && (forall u: nat :: DrawsIndirect(g, v, u) <==> DrawsIndirect(g, w, u))
  }

  lemma DrawsSelf(g: Graph, a: nat)
    ensures Draws(g, a, a)
  {
    assert IsDrawPath(g, [a]);
  }

  lemma DrawStep(g: Graph, a: nat, b: nat, c: nat)
    requires IsDraw(g, a, b) && Draws(g, b, c)
    ensures Draws(g, a, c)
  {
    var p :| IsDrawPath(g, p) && p[0] == b && p[|p| - 1] == c;
    var q := [a] + p;
    forall i | 0 <= i < |q| - 1
      ensures IsDraw(g, q[i], q[i + 1])
    {
      if i > 0 {
        assert IsDraw(g, p[i - 1], p[i - 1 + 1]);
      }
    }
    assert IsDrawPath(g, q) && q[0] == a && q[|q| - 1] == c;
  }

  lemma DrawsLast(g: Graph, a: nat, b: nat, c: nat)
    requires Draws(g, a, b) && IsDraw(g, b, c)
    ensures Draws(g, a, c)
  {
    var p :| IsDrawPath(g, p) && p[0] == a && p[|p| - 1] == b;
    var q := p + [c];
    forall i | 0 <= i < |q| - 1
      ensures IsDraw(g, q[i], q[i + 1])
    {
      if i < |p| - 1 {
        assert IsDraw(g, p[i], p[i + 1]);
      }
    }
    assert IsDrawPath(g, q) && q[0] == a && q[|q| - 1] == c;
  }

  // Where labels come from when they are kept as sets.

  /** Node `u` contributes label `l`. */
  ghost predicate Gives(g: Graph, s: Off, own: map<nat, nat>, u: nat, l: nat) {
    && u < |g.pre| == |g.indirect| == |s.root|
    && (l in g.pre[u] || (g.indirect[u] && s.root[u] in own && l == own[s.root[u]]))
  }

  ghost predicate Given(g: Graph, s: Off, own: map<nat, nat>, v: nat, l: nat) {
    exists u: nat :: Draws(g, v, u) && Gives(g, s, own, u, l)
  }

  ghost predicate Done(g: Graph, val: seq<set<nat>>, s: Off, own: map<nat, nat>) {
    AllLabelled(g, val, s) && AllRuled(g, s, true, own)
  }

  lemma LabelsOf(g: Graph, val: seq<set<nat>>, s: Off, keep: bool, own: map<nat, nat>, v: nat)
    requires AllLabelled(g, val, s) && AllRuled(g, s, keep, own) && 0 < v < |val|
    ensures |val| == |g.direct| == |g.pre| == |g.indirect| == |s.root| == |s.labels|
    ensures s.root[v] in s.roots && s.root[v] < |s.labels| && RuleAt(g, s, keep, own, s.root[v])
    ensures s.labels[s.root[v]] != {} && (0 in s.labels[s.root[v]] ==> s.labels[s.root[v]] == {0})
  {
    hide Worth, TableOk, Reach, LabelsInto, IsIndirect, NewLabels;
    assert Labelled(g, val, s, v);
  }

  /** A direct edge leads to a component that was closed before, or back. */
  lemma EdgeBefore(g: Graph, val: seq<set<nat>>, s: Off, v: nat, w: nat)
    requires AllLabelled(g, val, s) && 0 < v < |val| && w in g.direct[v]
    ensures 0 < w < |val| && s.root[v] in s.when && s.root[w] in s.when && IsDraw(g, v, w)
    ensures s.root[w] != s.root[v] ==> s.when[s.root[w]] < s.when[s.root[v]]
  {
    hide Worth, TableOk, Reach, Labelled;
    assert FitsAt(g, val, s.mean, v) && EdgesFormed(g, v) && w in Succ(g, v);
    assert Placed(g, s, v) && OfflineGraph.Sooner(s, w, v);
  }

  lemma SameComponent(g: Graph, val: seq<set<nat>>, s: Off, u: nat, v: nat)
    requires AllLabelled(g, val, s) && 0 < u < |val| && 0 < v < |val| && s.root[u] == s.root[v]
    ensures IsDraw(g, v, u)
  {
    ComponentsExact(g, val, s, v, u);
  }

  /** Every label other than 0 was given by a node that is drawn on. */
  lemma {:induction false} LabelGiven(g: Graph, val: seq<set<nat>>, s: Off, own: map<nat, nat>, v: nat, l: nat)
    requires Done(g, val, s, own) && 0 < v < |val| && s.root[v] in s.when && s.root[v] < |s.labels|
    requires l in s.labels[s.root[v]] && l != 0
    ensures Given(g, s, own, v, l)
    decreases s.when[s.root[v]]
  {
    hide AllLabelled, AllRuled, IsDraw;
    LabelsOf(g, val, s, true, own, v);
    var c := s.root[v];
    if l in StartsIn(g, s, c) {
      var u :| 0 < u < |s.root| && s.root[u] == c && u < |g.pre| && l in g.pre[u];
      SameComponent(g, val, s, u, v);
      DrawsSelf(g, u);
      DrawStep(g, v, u, u);
      assert Gives(g, s, own, u, l);
    } else if l in ComesIn(g, s, c) {
      var u, w :| 0 < u < |s.root| && s.root[u] == c && u < |g.direct| && w in g.direct[u] && l in SentBy(s, c, w);
      SameComponent(g, val, s, u, v);
      EdgeBefore(g, val, s, u, w);
      LabelGiven(g, val, s, own, w, l);
      var x: nat :| Draws(g, w, x) && Gives(g, s, own, x, l);
      DrawStep(g, u, w, x);
      DrawStep(g, v, u, x);
    } else {
      var u :| 0 < u < |s.root| && u < |g.indirect| && s.root[u] == c && g.indirect[u];
      SameComponent(g, val, s, u, v);
      DrawsSelf(g, u);
      DrawStep(g, v, u, u);
      assert Gives(g, s, own, u, l);
    }
  }

  /** What a node draws on gives it its labels. */
  lemma {:induction false} PathGives(g: Graph, val: seq<set<nat>>, s: Off, own: map<nat, nat>, p: seq<nat>, l: nat)
    requires Done(g, val, s, own) && IsDrawPath(g, p) && 0 < p[0] < |val| && Gives(g, s, own, p[|p| - 1], l)
    ensures s.root[p[0]] < |s.labels| && l in s.labels[s.root[p[0]]] && l != 0
    decreases |p|
  {
    hide AllLabelled, AllRuled, IsDraw;
    var v := p[0];
    LabelsOf(g, val, s, true, own, v);
    if |p| == 1 {
      GivesOwn(g, val, s, own, v, l);
    } else {
      var q := p[1..];
      assert IsDraw(g, p[0], p[0 + 1]);
      assert forall i :: 0 <= i < |q| ==> q[i] == p[i + 1];
      DrawInRange(g, val, s, v, p[1]);
      PathGives(g, val, s, own, q, l);
      LabelsOf(g, val, s, true, own, p[1]);
      DrawGives(g, val, s, own, v, p[1], l);
    }
  }

  lemma DrawInRange(g: Graph, val: seq<set<nat>>, s: Off, v: nat, w: nat)
    requires AllLabelled(g, val, s) && IsDraw(g, v, w)
    ensures 0 < w < |val|
  {
  }

  lemma GivesOwn(g: Graph, val: seq<set<nat>>, s: Off, own: map<nat, nat>, v: nat, l: nat)
    requires Done(g, val, s, own) && 0 < v < |val| && Gives(g, s, own, v, l)
    ensures s.root[v] < |s.labels| && l in s.labels[s.root[v]] && l != 0
  {
    LabelsOf(g, val, s, true, own, v);
    assert FitsAt(g, val, s.mean, v) && EdgesFormed(g, v) && TableOk(s);
    hide AllLabelled, ComesIn;
    assert l in g.pre[v] ==> l in StartsIn(g, s, s.root[v]);
  }

  lemma DrawGives(g: Graph, val: seq<set<nat>>, s: Off, own: map<nat, nat>, v: nat, w: nat, l: nat)
    requires Done(g, val, s, own) && 0 < v < |val| && 0 < w < |val| && IsDraw(g, v, w)
    requires s.root[w] < |s.labels| && l in s.labels[s.root[w]] && l != 0
    ensures s.root[v] < |s.labels| && l in s.labels[s.root[v]]
  {
    LabelsOf(g, val, s, true, own, v);
    LabelsOf(g, val, s, true, own, w);
    if s.root[v] != s.root[w] {
      ComponentsExact(g, val, s, v, w);
      hide AllLabelled, StartsIn, Reach;
      assert l in SentBy(s, s.root[v], w);
      assert l in ComesIn(g, s, s.root[v]);
    }
  }

  /** The labels of a node are exactly those of the nodes it draws on. */
  lemma LabelSets(g: Graph, val: seq<set<nat>>, s: Off, own: map<nat, nat>, v: nat, l: nat)
    requires Done(g, val, s, own) && 0 < v < |val|
    ensures s.root[v] < |s.labels| && (l != 0 && l in s.labels[s.root[v]] <==> Given(g, s, own, v, l))
  {
    hide AllRuled;
    LabelsOf(g, val, s, true, own, v);
    if l != 0 && l in s.labels[s.root[v]] {
      WhenClosed(g, val, s, v);
      LabelGiven(g, val, s, own, v, l);
    }
    if Given(g, s, own, v, l) {
      var u: nat :| Draws(g, v, u) && Gives(g, s, own, u, l);
      var p :| IsDrawPath(g, p) && p[0] == v && p[|p| - 1] == u;
      PathGives(g, val, s, own, p, l);
    }
  }

  lemma WhenClosed(g: Graph, val: seq<set<nat>>, s: Off, v: nat)
    requires AllLabelled(g, val, s) && 0 < v < |val|
    ensures s.root[v] in s.when
  {
    assert Placed(g, s, v);
  }

  // The same in terms of the graph.

  lemma DrawsInRange(g: Graph, val: seq<set<nat>>, s: Off, v: nat, u: nat)
    requires AllLabelled(g, val, s) && 0 < v < |val| && Draws(g, v, u)
    ensures 0 < u < |val|
  {
    var p :| IsDrawPath(g, p) && p[0] == v && p[|p| - 1] == u;
    if |p| > 1 {
      assert IsDraw(g, p[|p| - 2], p[|p| - 2 + 1]);
    }
  }

  lemma IndirectGives(g: Graph, val: seq<set<nat>>, s: Off, own: map<nat, nat>, v: nat, u: nat)
    requires Done(g, val, s, own) && 0 < v < |val| && DrawsIndirect(g, v, u)
    ensures 0 < u < |s.root| && s.root[u] in own && Given(g, s, own, v, own[s.root[u]])
  {
    DrawsInRange(g, val, s, v, u);
    LabelsOf(g, val, s, true, own, u);
    hide AllLabelled, Draws;
    assert IsIndirect(g, s, s.root[u]);
    assert Gives(g, s, own, u, own[s.root[u]]);
  }

  lemma StartGives(g: Graph, val: seq<set<nat>>, s: Off, own: map<nat, nat>, v: nat, l: nat)
    requires Done(g, val, s, own) && 0 < v < |val| && DrawsStart(g, v, l)
    ensures Given(g, s, own, v, l)
  {
    LabelsOf(g, val, s, true, own, v);
    hide AllLabelled, AllRuled, Draws;
    var u: nat :| u < |g.pre| && Draws(g, v, u) && l in g.pre[u];
    assert Gives(g, s, own, u, l);
  }

  /** What a label says about the sources of a node. */
  lemma GivenBy(g: Graph, val: seq<set<nat>>, s: Off, own: map<nat, nat>, v: nat, l: nat)
    requires Done(g, val, s, own) && 0 < v < |val| && Given(g, s, own, v, l)
    ensures DrawsStart(g, v, l) || exists u: nat :: DrawsIndirect(g, v, u) && u < |s.root| && s.root[u] in own && own[s.root[u]] == l
  {
    hide AllLabelled, AllRuled, Draws;
    var u: nat :| Draws(g, v, u) && Gives(g, s, own, u, l);
    assert l !in g.pre[u] ==> DrawsIndirect(g, v, u);
  }

  /** A node is labelled 0 exactly if it has no source. */
  lemma ZeroMeansNoSource(g: Graph, val: seq<set<nat>>, s: Off, own: map<nat, nat>, v: nat)
    requires Done(g, val, s, own) && 0 < v < |val|
    ensures s.root[v] < |s.labels| && (0 in s.labels[s.root[v]] <==> !HasSource(g, v))
  {
    hide AllLabelled, AllRuled, DrawsStart, DrawsIndirect, Given, RuleAt;
    LabelsOf(g, val, s, true, own, v);
    var c := s.root[v];
    if l: nat :| DrawsStart(g, v, l) {
      StartGives(g, val, s, own, v, l);
      LabelSets(g, val, s, own, v, l);
    }
    if u: nat :| DrawsIndirect(g, v, u) {
      IndirectGives(g, val, s, own, v, u);
      LabelSets(g, val, s, own, v, own[s.root[u]]);
    }
    if 0 !in s.labels[c] {
      var l :| l in s.labels[c];
      LabelSets(g, val, s, own, v, l);
      GivenBy(g, val, s, own, v, l);
    }
  }

  /** Equal labels mean the same sources. */
  lemma StartShared(g: Graph, val: seq<set<nat>>, s: Off, own: map<nat, nat>, v: nat, w: nat, l: nat)
    requires Done(g, val, s, own) && 0 < v < |val| && 0 < w < |val| && DrawsStart(g, v, l)
    requires s.root[v] < |s.labels| && s.root[w] < |s.labels| && s.labels[s.root[v]] == s.labels[s.root[w]]
    ensures DrawsStart(g, w, l)
  {
    StartGives(g, val, s, own, v, l);
    LabelSets(g, val, s, own, v, l);
    LabelSets(g, val, s, own, w, l);
    GivenBy(g, val, s, own, w, l);
    hide AllLabelled, DrawsIndirect, Given, Draws;
    var u: nat :| u < |g.pre| && Draws(g, v, u) && l in g.pre[u];
    assert forall c :: c in own ==> NoStart(g, own[c]);
  }

  lemma IndirectShared(g: Graph, val: seq<set<nat>>, s: Off, own: map<nat, nat>, v: nat, w: nat, u: nat)
    requires Done(g, val, s, own) && 0 < v < |val| && 0 < w < |val| && DrawsIndirect(g, v, u)
    requires s.root[v] < |s.labels| && s.root[w] < |s.labels| && s.labels[s.root[v]] == s.labels[s.root[w]]
    ensures DrawsIndirect(g, w, u)
  {
    IndirectGives(g, val, s, own, v, u);
    var l := own[s.root[u]];
    LabelSets(g, val, s, own, v, l);
    LabelSets(g, val, s, own, w, l);
    GivenBy(g, val, s, own, w, l);
    hide AllLabelled, Given, Draws;
    assert NoStart(g, l);
    assert !DrawsStart(g, w, l);
    var x: nat :| DrawsIndirect(g, w, x) && x < |s.root| && s.root[x] in own && own[s.root[x]] == l;
    DrawsInRange(g, val, s, w, x);
    OneComponent(g, val, s, own, w, u, x);
  }

  lemma OneComponent(g: Graph, val: seq<set<nat>>, s: Off, own: map<nat, nat>, w: nat, u: nat, x: nat)
    requires Done(g, val, s, own) && 0 < u < |s.root| && 0 < x < |s.root| && s.root[u] in own && s.root[x] in own
    requires own[s.root[u]] == own[s.root[x]] && Draws(g, w, x)
    ensures Draws(g, w, u)
  {
    hide Draws;
    assert s.root[u] == s.root[x];
    SameComponent(g, val, s, u, x);
    DrawsLast(g, w, x, u);
  }

  /** The same sources mean equal labels. */
  lemma LabelShared(g: Graph, val: seq<set<nat>>, s: Off, own: map<nat, nat>, v: nat, w: nat, l: nat)
    requires Done(g, val, s, own) && 0 < v < |val| && 0 < w < |val| && SameSources(g, v, w)
    requires s.root[v] < |s.labels| && l != 0 && l in s.labels[s.root[v]]
    ensures s.root[w] < |s.labels| && l in s.labels[s.root[w]]
  {
    hide Done, DrawsStart, DrawsIndirect, Given;
    LabelSets(g, val, s, own, v, l);
    LabelSets(g, val, s, own, w, l);
    GivenBy(g, val, s, own, v, l);
    if DrawsStart(g, v, l) {
      StartGives(g, val, s, own, w, l);
    } else {
      var x: nat :| DrawsIndirect(g, v, x) && x < |s.root| && s.root[x] in own && own[s.root[x]] == l;
      IndirectGives(g, val, s, own, w, x);
    }
  }

  /** Nodes have equal label sets exactly if they have the same sources. */
  lemma EqualSets(g: Graph, val: seq<set<nat>>, s: Off, own: map<nat, nat>, v: nat, w: nat)
    requires Done(g, val, s, own) && 0 < v < |val| && 0 < w < |val|
    ensures s.root[v] < |s.labels| && s.root[w] < |s.labels|
    ensures s.labels[s.root[v]] == s.labels[s.root[w]] <==> SameSources(g, v, w)
  {
    hide AllLabelled, AllRuled, DrawsStart, DrawsIndirect, RuleAt;
    LabelsOf(g, val, s, true, own, v);
    LabelsOf(g, val, s, true, own, w);
    var a, b := s.labels[s.root[v]], s.labels[s.root[w]];
    if a == b {
      forall l: nat
        ensures DrawsStart(g, v, l) <==> DrawsStart(g, w, l)
      {
        if DrawsStart(g, v, l) {
          StartShared(g, val, s, own, v, w, l);
        }
        if DrawsStart(g, w, l) {
          StartShared(g, val, s, own, w, v, l);
        }
      }
      forall u: nat
        ensures DrawsIndirect(g, v, u) <==> DrawsIndirect(g, w, u)
      {
        if DrawsIndirect(g, v, u) {
          IndirectShared(g, val, s, own, v, w, u);
        }
        if DrawsIndirect(g, w, u) {
          IndirectShared(g, val, s, own, w, v, u);
        }
      }
    }
    if SameSources(g, v, w) {
      forall l | l != 0
        ensures l in a <==> l in b
      {
        if l in a {
          LabelShared(g, val, s, own, v, w, l);
        }
        if l in b {
          LabelShared(g, val, s, own, w, v, l);
        }
      }
      SameButZero(a, b);
    }
  }

  lemma SameButZero(a: set<nat>, b: set<nat>)
    requires a != {} && b != {} && (0 in a ==> a == {0}) && (0 in b ==> b == {0})
    requires forall l :: l != 0 ==> (l in a <==> l in b)
    ensures a == b
  {
    var x, y :| x in a && y in b;
    assert 0 in a <==> 0 in b;
  }

  /** Nodes have equal labels exactly if they have the same sources, and label
      0 exactly if they have none. */
  ghost predicate SetsExact(g: Graph, s: Off, v: nat, w: nat) {
    && v < |s.root| && w < |s.root| && s.root[v] < |s.labels| && s.root[w] < |s.labels|
    && (s.labels[s.root[v]] == s.labels[s.root[w]] <==> SameSources(g, v, w))
    && (0 in s.labels[s.root[v]] <==> !HasSource(g, v))
  }

  // When one label is kept for each node.

  /** Direct components that the same labels reach get the same label; an
      indirect one has a label that only direct ones share which nothing else
      reaches. */
  lemma SameNumber(g: Graph, val: seq<set<nat>>, s: Off, own: map<nat, nat>, c: nat, d: nat)
    requires AllLabelled(g, val, s) && AllRuled(g, s, false, own) && c in s.roots && d in s.roots
    ensures c < |s.labels| && d < |s.labels|
    ensures c !in own && d !in own && LabelsInto(g, s, c) == LabelsInto(g, s, d) ==> s.labels[c] == s.labels[d]
    ensures c in own && d in own && s.labels[c] == s.labels[d] ==> c == d
    ensures c in own && d !in own ==> (s.labels[c] == s.labels[d] <==> LabelsInto(g, s, d) == s.labels[c])
    ensures c !in own && d !in own && |LabelsInto(g, s, c)| > 1 && |LabelsInto(g, s, d)| > 1 && s.labels[c] == s.labels[d] ==>
      LabelsInto(g, s, c) == LabelsInto(g, s, d)
  {
    assert RuleAt(g, s, false, own, c) && RuleAt(g, s, false, own, d);
    hide AllLabelled, LabelsInto, IsIndirect;
  }
}
