/** Pointer equivalence without dereference nodes: which nodes may be merged
    before a flow-sensitive analysis because they point to the same things. */
module HuLabels {
  import opened Constraints
  import O = OfflineGraph
  import Q = OfflineSearch
  import UnionFind
  import OfflineLabels
  import opened LabelMerging
  import S = OfflineSources
  import OfflineRules

  /** What the pass starts from: no node is merged yet, and only object nodes,
      which come first, have their address taken. */
  ghost predicate Prepared(sys: System, lastObj: nat) {
    && Legal(sys) && lastObj < sys.n
    && (forall i :: 0 <= i < sys.n ==> sys.root[i] == i)
    && (forall c :: c in sys.cons && c.AddrOf? ==> c.src <= lastObj)
  }

  // The graph.

  /** Something other than a copy flows into node `v`. */
  ghost predicate HasInflow(cons: seq<Constraint>, v: nat) {
    exists c :: c in cons && (c.AddrOf? || c.Load?) && c.dest == v
  }

  ghost predicate NodeOf(cons: seq<Constraint>, lastObj: nat, g: O.Graph, v: nat)
    requires v < |g.direct| == |g.implied| == |g.pre| == |g.indirect|
  {
    && (forall o :: o in g.direct[v] <==> Copy(v, o) in cons)
    && g.implied[v] == {} && g.pre[v] == {}
    && (g.indirect[v] <==> 0 < v <= lastObj || HasInflow(cons, v))
  }

  /** Copies are edges; objects and the targets of addresses and loads are
      indirect; stores are ignored. */
  ghost predicate GraphOf(cons: seq<Constraint>, n: nat, lastObj: nat, g: O.Graph) {
    && |g.direct| == |g.implied| == |g.pre| == |g.indirect| == n
    && forall v :: 0 <= v < n ==> NodeOf(cons, lastObj, g, v)
  }

  /** One more constraint. */
  lemma GraphMore(cons: seq<Constraint>, c: Constraint, n: nat, lastObj: nat, g: O.Graph, g': O.Graph)
    requires GraphOf(cons, n, lastObj, g) && c.dest < n
    requires g' == match c
                   case AddrOf(d, _) => g.(indirect := g.indirect[d := true])
                   case Load(d, _) => g.(indirect := g.indirect[d := true])
                   case Copy(d, o) => g.(direct := g.direct[d := g.direct[d] + {o}])
                   case Store(_, _) => g
    ensures GraphOf(cons + [c], n, lastObj, g')
  {
    forall v | 0 <= v < n
      ensures NodeOf(cons + [c], lastObj, g', v)
    {
      assert NodeOf(cons, lastObj, g, v);
      assert HasInflow(cons + [c], v) <==> HasInflow(cons, v) || ((c.AddrOf? || c.Load?) && c.dest == v) by {
        if HasInflow(cons, v) {
          var b :| b in cons && (b.AddrOf? || b.Load?) && b.dest == v;
          assert b in cons + [c];
        }
        assert c in cons + [c];
      }
    }
  }

  method MakeOffGraph(cons: seq<Constraint>, n: nat, lastObj: nat) returns (g: O.Graph)
    requires lastObj < n && forall c :: c in cons ==> c.dest < n
    ensures GraphOf(cons, n, lastObj, g)
  {
    hide GraphOf;
    var direct: seq<set<nat>>, none: seq<set<nat>> := seq(n, i => {}), seq(n, i => {});
    var indirect := seq(n, i => 0 < i <= lastObj);
    g := O.Graph(direct, none, none, indirect);
    GraphStart(n, lastObj, g);
    var i := 0;
    while i < |cons|
      invariant 0 <= i <= |cons| && |g.direct| == |g.indirect| == n && GraphOf(cons[..i], n, lastObj, g)
    {
      var c := cons[i];
      ghost var g0 := g;
      match c {
        case AddrOf(d, _) => g := g.(indirect := g.indirect[d := true]);
        case Load(d, _) => g := g.(indirect := g.indirect[d := true]);
        case Copy(d, o) => g := g.(direct := g.direct[d := g.direct[d] + {o}]);
        case Store(_, _) =>
      }
      GraphMore(cons[..i], c, n, lastObj, g0, g);
      assert cons[..i + 1] == cons[..i] + [c];
      i := i + 1;
    }
    assert cons[..i] == cons;
  }

  lemma GraphStart(n: nat, lastObj: nat, g: O.Graph)
    requires |g.direct| == |g.implied| == |g.pre| == |g.indirect| == n
    requires forall v :: 0 <= v < n ==> g.direct[v] == {} && g.implied[v] == {} && g.pre[v] == {}
    requires forall v :: 0 <= v < n ==> (g.indirect[v] <==> 0 < v <= lastObj)
    ensures GraphOf([], n, lastObj, g)
  {
  }

  // What equal labels mean.

  /** The least solution puts a value on the graph under which every edge is an
      inclusion. */
  lemma SolutionFits(sys: System, lastObj: nat, g: O.Graph, s: Assignment)
    requires Prepared(sys, lastObj) && GraphOf(sys.cons, sys.n, lastObj, g) && Solution(sys, s)
    ensures O.Fits(g, s, map[])
  {
    forall v | 0 <= v < sys.n
      ensures O.EdgesFormed(g, v) && forall w :: w in O.Succ(g, v) && w < |s| ==> s[w] <= s[v]
    {
      assert NodeOf(sys.cons, lastObj, g, v);
      forall w | w in O.Succ(g, v)
        ensures 0 < w < sys.n && s[w] <= s[v]
      {
        assert Copy(v, w) in sys.cons;
      }
    }
    forall v | 0 <= v < sys.n
      ensures O.FitsAt(g, s, map[], v)
    {
      assert NodeOf(sys.cons, lastObj, g, v);
    }
  }

  /** Only objects are pointed to. */
  lemma OnlyObjects(sys: System, lastObj: nat, s: Assignment)
    requires Prepared(sys, lastObj) && LeastSolution(sys, s)
    ensures forall i, x :: 0 <= i < sys.n && x in s[i] ==> 0 < x <= lastObj
  {
    var t := seq(sys.n, i requires 0 <= i < sys.n => set x | x in s[i] && 0 < x <= lastObj);
    forall c | c in sys.cons
      ensures c.dest < |t| && c.src < |t| && Satisfied(c, t)
    {
      assert Satisfied(c, s);
      assert LegalConstraint(c, sys.n);
    }
    assert Solution(sys, t);
    assert Included(s, t);
  }

  /** Node `v` is worth its labels. */
  ghost function LabelValue(s: O.Off, v: nat): set<nat>
  {
    if 0 < v < |s.root| && s.root[v] < |s.labels| then O.Worth(s.mean, s.labels[s.root[v]]) else {}
  }

  /** Those values are included in the least solution, equal to it on indirect
      nodes, and closed under copies. */
  lemma LabelValueAt(sys: System, lastObj: nat, g: O.Graph, val: Assignment, s: O.Off, v: nat)
    requires GraphOf(sys.cons, sys.n, lastObj, g) && |val| == sys.n && Q.AllLabelled(g, val, s) && 0 < v < sys.n
    ensures s.root[v] < |s.labels| && LabelValue(s, v) <= val[v]
    ensures 0 < v <= lastObj || HasInflow(sys.cons, v) ==> LabelValue(s, v) == val[v]
    ensures forall o :: 0 < o < sys.n && Copy(v, o) in sys.cons ==> LabelValue(s, o) <= LabelValue(s, v)
  {
    hide O.Worth;
    assert NodeOf(sys.cons, lastObj, g, v) && O.Labelled(g, val, s, v);
    forall o | 0 < o < sys.n && Copy(v, o) in sys.cons
      ensures LabelValue(s, o) <= LabelValue(s, v)
    {
      assert O.EdgeLabelled(s, v, o);
    }
  }

  /** An assignment that is included in a solution, agrees with it where
      something but a copy flows in, and is closed under copies, is a solution
      itself. */
  lemma ValuesSolve(sys: System, lastObj: nat, s: Assignment, t: Assignment)
    requires Prepared(sys, lastObj) && Solution(sys, s) && |t| == sys.n
    requires forall i, x :: 0 <= i < sys.n && x in s[i] ==> 0 < x <= lastObj
    requires forall v :: 0 <= v < sys.n ==> t[v] <= s[v]
    requires forall v :: 0 < v < sys.n && (v <= lastObj || HasInflow(sys.cons, v)) ==> t[v] == s[v]
    requires forall v, o :: 0 < v < sys.n && 0 < o < sys.n && Copy(v, o) in sys.cons ==> t[o] <= t[v]
    ensures Solution(sys, t)
  {
    forall c | c in sys.cons
      ensures c.dest < |t| && c.src < |t| && Satisfied(c, t)
    {
      assert Satisfied(c, s) && LegalConstraint(c, sys.n);
      assert c.AddrOf? || c.Load? ==> HasInflow(sys.cons, c.dest);
      match c
      case AddrOf(_, _) =>
      case Copy(_, _) =>
      case Load(d, o) =>
        forall x | x in t[o] && x != I2P
          ensures t[x] <= t[d]
        {
          assert x in s[o];
        }
      case Store(d, o) =>
        forall x | x in t[d] && x != I2P
          ensures t[o] <= t[x]
        {
          assert x in s[d];
        }
    }
  }

  /** The labels of a node are worth what it points to in the least solution. */
  lemma LabelsAreExact(sys: System, lastObj: nat, g: O.Graph, val: Assignment, s: O.Off)
    requires Prepared(sys, lastObj) && GraphOf(sys.cons, sys.n, lastObj, g)
    requires LeastSolution(sys, val) && Q.AllLabelled(g, val, s)
    ensures forall v :: 0 < v < sys.n ==> val[v] == LabelValue(s, v)
  {
    hide GraphOf, LabelValue, HasInflow;
    var t := seq(sys.n, (v: nat) => LabelValue(s, v));
    OnlyObjects(sys, lastObj, val);
    assert t[0] == {} by { ZeroIsEmpty(s); }
    forall v | 0 < v < sys.n
      ensures t[v] <= val[v]
      ensures v <= lastObj || HasInflow(sys.cons, v) ==> t[v] == val[v]
      ensures forall o :: 0 < o < sys.n && Copy(v, o) in sys.cons ==> t[o] <= t[v]
    {
      LabelValueAt(sys, lastObj, g, val, s, v);
    }
    hide Q.AllLabelled, Prepared;
    ValuesSolve(sys, lastObj, val, t);
    assert Included(val, t);
  }

  lemma ZeroIsEmpty(s: O.Off)
    ensures LabelValue(s, 0) == {}
  {
  }

  /** Nodes with equal labels point to the same things, and a node labelled 0
      points to nothing. */
  lemma EqualLabelsEqualSets(sys: System, lastObj: nat, g: O.Graph, val: Assignment, s: O.Off, i: nat, j: nat)
    requires Prepared(sys, lastObj) && GraphOf(sys.cons, sys.n, lastObj, g)
    requires LeastSolution(sys, val) && Q.AllLabelled(g, val, s)
    requires 0 < i < sys.n && 0 < j < sys.n
    ensures s.root[i] < |s.labels| && s.root[j] < |s.labels|
    ensures s.labels[s.root[i]] == s.labels[s.root[j]] ==> val[i] == val[j]
    ensures 0 in s.labels[s.root[i]] ==> val[i] == {}
  {
    LabelsAreExact(sys, lastObj, g, val, s);
    assert O.Labelled(g, val, s, i) && O.Labelled(g, val, s, j);
    assert 0 !in s.mean;
  }

  // Which nodes get equal labels.

  /** Something other than a copy may flow into node `u`. */
  ghost predicate IsSource(cons: seq<Constraint>, lastObj: nat, u: nat) {
    u <= lastObj || HasInflow(cons, u)
  }

  /** The objects and the targets of addresses and loads from which copies lead
      to node `i`. */
  ghost function Sources(cons: seq<Constraint>, n: nat, lastObj: nat, i: nat): set<nat> {
    set u | 0 < u < n && IsSource(cons, lastObj, u) && CopyLeads(cons, u, i)
  }

  lemma LeadsOn(cons: seq<Constraint>, a: nat, b: nat, c: nat)
    requires CopyLeads(cons, a, b) && CopyStep(cons, b, c)
    ensures CopyLeads(cons, a, c)
  {
    var p :| IsCopyChain(cons, p) && p[0] == a && p[|p| - 1] == b;
    var q := p + [c];
    forall i | 0 <= i < |q| - 1
      ensures CopyStep(cons, q[i], q[i + 1])
    {
      if i < |p| - 1 {
        assert CopyStep(cons, p[i], p[i + 1]);
      }
    }
    assert IsCopyChain(cons, q) && q[0] == a && q[|q| - 1] == c;
  }

  /** Edges lead against copies. */
  lemma {:induction false} PathLeads(cons: seq<Constraint>, n: nat, lastObj: nat, g: O.Graph, p: seq<nat>, a: nat)
    requires GraphOf(cons, n, lastObj, g) && O.IsPath(g, p) && CopyLeads(cons, a, p[|p| - 1])
    ensures CopyLeads(cons, a, p[0])
    decreases |p|
  {
    if |p| > 1 {
      var q := p[..|p| - 1];
      assert O.IsEdge(g, p[|p| - 2], p[|p| - 2 + 1]) && NodeOf(cons, lastObj, g, p[|p| - 2]);
      LeadsOn(cons, a, p[|p| - 1], p[|p| - 2]);
      assert forall i :: 0 <= i < |q| - 1 ==> O.IsEdge(g, p[i], p[i + 1]);
      PathLeads(cons, n, lastObj, g, q, a);
    }
  }

  lemma {:induction false} DrawLeads(cons: seq<Constraint>, n: nat, lastObj: nat, g: O.Graph, p: seq<nat>, a: nat)
    requires GraphOf(cons, n, lastObj, g) && S.IsDrawPath(g, p) && CopyLeads(cons, a, p[|p| - 1])
    ensures CopyLeads(cons, a, p[0])
    decreases |p|
  {
    if |p| > 1 {
      var q, v, w := p[..|p| - 1], p[|p| - 2], p[|p| - 1];
      assert S.IsDraw(g, p[|p| - 2], p[|p| - 2 + 1]) && NodeOf(cons, lastObj, g, v);
      if w in g.direct[v] {
        LeadsOn(cons, a, w, v);
      } else {
        var r :| O.IsPath(g, r) && r[0] == v && r[|r| - 1] == w;
        PathLeads(cons, n, lastObj, g, r, a);
      }
      assert forall i :: 0 <= i < |q| - 1 ==> S.IsDraw(g, p[i], p[i + 1]);
      DrawLeads(cons, n, lastObj, g, q, a);
    }
  }

  lemma {:induction false} LeadDraws(sys: System, lastObj: nat, g: O.Graph, p: seq<nat>)
    requires Prepared(sys, lastObj) && GraphOf(sys.cons, sys.n, lastObj, g) && IsCopyChain(sys.cons, p) && 0 < p[0] < sys.n
    ensures S.Draws(g, p[|p| - 1], p[0])
    decreases |p|
  {
    if |p| == 1 {
      S.DrawsSelf(g, p[0]);
    } else {
      var q := p[..|p| - 1];
      assert forall i :: 0 <= i < |q| - 1 ==> CopyStep(sys.cons, p[i], p[i + 1]);
      LeadDraws(sys, lastObj, g, q);
      var a, b := p[|p| - 2], p[|p| - 1];
      assert CopyStep(sys.cons, p[|p| - 2], p[|p| - 2 + 1]);
      assert LegalConstraint(Copy(b, a), sys.n) && NodeOf(sys.cons, lastObj, g, b);
      assert S.IsDraw(g, b, a);
      S.DrawStep(g, b, a, p[0]);
    }
  }

  /** Drawing on a node is being led to from it. */
  lemma DrawsIsLead(sys: System, lastObj: nat, g: O.Graph, v: nat, u: nat)
    requires Prepared(sys, lastObj) && GraphOf(sys.cons, sys.n, lastObj, g) && 0 < v < sys.n && 0 < u < sys.n
    ensures S.Draws(g, v, u) <==> CopyLeads(sys.cons, u, v)
  {
    hide GraphOf, Prepared;
    if S.Draws(g, v, u) {
      var p :| S.IsDrawPath(g, p) && p[0] == v && p[|p| - 1] == u;
      assert IsCopyChain(sys.cons, [u]);
      DrawLeads(sys.cons, sys.n, lastObj, g, p, u);
    }
    if CopyLeads(sys.cons, u, v) {
      var p :| IsCopyChain(sys.cons, p) && p[0] == u && p[|p| - 1] == v;
      LeadDraws(sys, lastObj, g, p);
    }
  }

  /** The sources of a node in the graph are those in the list. */
  lemma SourceIsSource(sys: System, lastObj: nat, g: O.Graph, val: Assignment, s: O.Off, v: nat, u: nat)
    requires Prepared(sys, lastObj) && GraphOf(sys.cons, sys.n, lastObj, g) && Q.AllLabelled(g, val, s) && 0 < v < sys.n
    ensures S.DrawsIndirect(g, v, u) <==> u in Sources(sys.cons, sys.n, lastObj, v)
    ensures !S.DrawsStart(g, v, u)
  {
    hide S.Draws, CopyLeads, Q.AllLabelled, O.Labelled;
    assert |val| == sys.n by { LabelledSize(g, val, s); }
    if S.Draws(g, v, u) {
      S.DrawsInRange(g, val, s, v, u);
    }
    if 0 < u < sys.n {
      DrawsIsLead(sys, lastObj, g, v, u);
      assert NodeOf(sys.cons, lastObj, g, u);
    }
    forall x: nat | x < |g.pre|
      ensures g.pre[x] == {}
    {
      assert NodeOf(sys.cons, lastObj, g, x);
    }
  }

  lemma LabelledSize(g: O.Graph, val: seq<set<nat>>, s: O.Off)
    requires Q.AllLabelled(g, val, s)
    ensures |val| == |g.direct| == |s.root|
  {
  }

  lemma SameSourceSets(sys: System, lastObj: nat, g: O.Graph, val: Assignment, s: O.Off, v: nat, w: nat)
    requires Prepared(sys, lastObj) && GraphOf(sys.cons, sys.n, lastObj, g) && Q.AllLabelled(g, val, s)
    requires 0 < v < sys.n && 0 < w < sys.n
    ensures S.SameSources(g, v, w) <==> Sources(sys.cons, sys.n, lastObj, v) == Sources(sys.cons, sys.n, lastObj, w)
    ensures S.HasSource(g, v) <==> Sources(sys.cons, sys.n, lastObj, v) != {}
  {
    hide Prepared, GraphOf, Q.AllLabelled, Sources, S.DrawsIndirect, S.DrawsStart;
    forall u: nat
      ensures S.DrawsIndirect(g, v, u) <==> u in Sources(sys.cons, sys.n, lastObj, v)
      ensures S.DrawsIndirect(g, w, u) <==> u in Sources(sys.cons, sys.n, lastObj, w)
      ensures !S.DrawsStart(g, v, u) && !S.DrawsStart(g, w, u)
    {
      SourceIsSource(sys, lastObj, g, val, s, v, u);
      SourceIsSource(sys, lastObj, g, val, s, w, u);
    }
  }

  // Merging.

  /** The labels of every node, read through its representative. */
  ghost function LabelsOf(s: O.Off): (lab: seq<set<nat>>)
    ensures |lab| == |s.root|
  {
    seq(|s.root|, i requires 0 <= i < |s.root| => if 0 < i && s.root[i] < |s.labels| then s.labels[s.root[i]] else {})
  }

  /** Reads the labels of every node. */
  method ReadLabels(l: OfflineLabels.Labeller) returns (lab: seq<set<nat>>)
    requires l.Valid() && 0 < |l.uf.root|
    requires forall i :: 0 < i < |l.uf.root| ==> l.uf.root[i] < |l.labels|
    modifies l.uf`rep
    ensures lab == LabelsOf(l.S()) && l.Valid() && l.S() == old(l.S())
  {
    hide UnionFind.Encodes;
    lab := [{}];
    var i := 1;
    while i < |l.uf.rep|
      invariant 0 < i <= |l.uf.rep| == |l.uf.root| && l.Valid() && l.S() == old(l.S())
      invariant lab == LabelsOf(l.S())[..i]
    {
      var r := l.uf.GetRep(i);
      lab := lab + [l.labels[r]];
      i := i + 1;
    }
  }

  /** Merges the nodes that have equal labels and marks those labelled 0. */
  method MergeEqual(lab: seq<set<nat>>) returns (uf: UnionFind.Partition, nonptr: seq<bool>)
    requires 0 < |lab| <= UnionFind.NODE_RANK_MIN && lab[0] == {} && forall i :: 0 < i < |lab| ==> lab[i] != {}
    ensures fresh(uf) && uf.Valid() && MergedByLabel(seq(|lab|, i => i), lab, uf.root) && Marked(lab, nonptr)
  {
    hide UnionFind.Encodes, Merging, MergedByLabel;
    var n := |lab|;
    uf := new UnionFind.Partition(n);
    nonptr := seq(n, i => false);
    ghost var root0 := uf.root;
    assert root0 == seq(n, i => i);
    var eq: map<set<nat>, nat> := map[];
    ghost var reps: map<set<nat>, nat> := map[];
    MergeStart(root0, lab);
    MergeSkip(root0, lab, root0, reps, eq, 0);
    var i := 1;
    while i < n
      invariant 0 < i <= n == |nonptr| && uf.Valid() && |uf.rep| == |uf.root| == n
      invariant Merging(root0, lab, uf.root, reps, eq, i) && reps.Keys == eq.Keys
      invariant forall j :: 0 <= j < n ==> (nonptr[j] <==> j < i && 0 in lab[j])
    {
      if lab[i] == {} || 0 in lab[i] {
        MergeMark(root0, lab, uf.root, reps, eq, i);
        nonptr := nonptr[i := true];
      } else {
        eq, reps := MergeNode(lab, uf, i, eq, root0, reps);
      }
      i := i + 1;
    }
    MergeEnd(root0, lab, uf.root, reps, eq);
  }

  /** Node `i` is the first with its labels, or is merged with those that have
      them too. */
  method MergeNode(lab: seq<set<nat>>, uf: UnionFind.Partition, i: nat, eq: map<set<nat>, nat>,
                   ghost root0: seq<nat>, ghost reps: map<set<nat>, nat>)
      returns (eq': map<set<nat>, nat>, ghost reps': map<set<nat>, nat>)
    requires uf.Valid() && |uf.rep| == |uf.root| == |lab| && i < |lab| && lab[i] != {} && 0 !in lab[i]
    requires Merging(root0, lab, uf.root, reps, eq, i) && reps.Keys == eq.Keys
    modifies uf
    ensures uf.Valid() && |uf.rep| == |uf.root| == |lab| && Merging(root0, lab, uf.root, reps', eq', i + 1) && reps'.Keys == eq'.Keys
  {
    hide UnionFind.Encodes, Merging;
    ghost var root := uf.root;
    if lab[i] in eq {
      MergeReady(root0, lab, root, reps, eq, i);
      FirstInRange(root0, lab, root, reps, eq, i, lab[i]);
      var rep := uf.GetRep(eq[lab[i]]);
      var p, c := uf.Merge(i, rep);
      MergeTwo(root0, lab, root, reps, eq, i, p, c);
      eq', reps' := eq, reps[lab[i] := p];
    } else {
      MergeNew(root0, lab, root, reps, eq, i);
      eq', reps' := eq[lab[i] := i], reps[lab[i] := i];
    }
  }

  /** Merged nodes point to the same things, and marked nodes to nothing. */
  ghost predicate Exact(s: Assignment, root: seq<nat>, nonptr: seq<bool>) {
    && |root| == |nonptr| == |s|
    && (forall i, j :: 0 < i < |s| && 0 < j < |s| && root[i] == root[j] ==> s[i] == s[j])
    && (forall i :: 0 < i < |s| && nonptr[i] ==> s[i] == {})
  }

  /** Nodes are merged exactly if they have the same sources, and some, and
      marked exactly if they have none. */
  ghost predicate BySources(sys: System, lastObj: nat, root: seq<nat>, nonptr: seq<bool>, i: nat, j: nat)
    requires i < |root| == |nonptr| && j < |root|
  {
    var a, b := Sources(sys.cons, sys.n, lastObj, i), Sources(sys.cons, sys.n, lastObj, j);
    (root[i] == root[j] <==> i == j || (a == b && a != {})) && (nonptr[i] <==> a == {})
  }

  /** The equivalences found for a constraint list hold in its least solution,
      and are all that the sources of its nodes tell. */
  method FindEquivalences(n: nat, lastObj: nat, cons: seq<Constraint>, ghost sys: System)
      returns (uf: UnionFind.Partition, nonptr: seq<bool>)
    requires Prepared(sys, lastObj) && sys.n == n <= UnionFind.NODE_RANK_MIN && sys.cons == cons
    ensures fresh(uf) && uf.Valid()
    ensures forall s :: LeastSolution(sys, s) ==> Exact(s, uf.root, nonptr)
    ensures |uf.root| == |nonptr| == n && uf.root[0] == 0 && !nonptr[0]
    ensures forall i, j :: 0 < i < n && 0 < j < n ==> BySources(sys, lastObj, uf.root, nonptr, i, j)
  {
    hide UnionFind.Encodes, GraphOf, O.OffOk, O.Fits, OfflineRules.AllRuled, Q.AllLabelled, O.Reach, S.SetsExact, BySources, Exact, LeastSolution,
      MergedByLabel, Marked;
    ghost var s := LeastExists(sys);
    var g := MakeOffGraph(cons, n, lastObj);
    SolutionFits(sys, lastObj, g, s) by { LeastSolves(sys, s); }
    var l := new OfflineLabels.Labeller(true, g, 1, s, map[]);
    l.Run();
    LabelsNotEmpty(g, s, l.S());
    assert 0 < n == |g.direct| by { GraphNodes(cons, n, lastObj, g); }
    var lab := ReadLabels(l);
    uf, nonptr := MergeEqual(lab);
    EquivalencesExact(sys, lastObj, g, s, l.S(), uf.root, nonptr);
    MergedBySources(sys, lastObj, g, s, l.S(), uf.root, nonptr);
    forall t | LeastSolution(sys, t)
      ensures Exact(t, uf.root, nonptr)
    {
      LeastIsUnique(sys, s, t);
    }
  }

  lemma MergedBySources(sys: System, lastObj: nat, g: O.Graph, val: Assignment, s: O.Off, root: seq<nat>, nonptr: seq<bool>)
    requires Prepared(sys, lastObj) && GraphOf(sys.cons, sys.n, lastObj, g) && Q.AllLabelled(g, val, s)
    requires |s.root| == sys.n && MergedByLabel(seq(sys.n, i => i), LabelsOf(s), root) && Marked(LabelsOf(s), nonptr)
    requires forall u, v :: 0 < u < |s.root| && 0 < v < |s.root| ==> S.SetsExact(g, s, u, v)
    ensures |root| == |nonptr| == sys.n && root[0] == 0 && !nonptr[0]
    ensures forall i, j :: 0 < i < sys.n && 0 < j < sys.n ==> BySources(sys, lastObj, root, nonptr, i, j)
  {
    NoneIsAlone(sys, s, root, nonptr);
    hide Prepared, GraphOf, Q.AllLabelled, Sources, S.SameSources, S.HasSource, BySources, MergedByLabel, Marked, S.SetsExact;
    forall i, j | 0 < i < sys.n && 0 < j < sys.n
      ensures BySources(sys, lastObj, root, nonptr, i, j)
    {
      assert S.SetsExact(g, s, i, j);
      SameSourceSets(sys, lastObj, g, val, s, i, j);
      KnownSets(g, val, s, i);
      KnownSets(g, val, s, j);
      PairBySources(sys, lastObj, g, s, root, nonptr, i, j);
    }
  }

  /** Node 0 has no labels. */
  lemma NoneIsAlone(sys: System, s: O.Off, root: seq<nat>, nonptr: seq<bool>)
    requires |s.root| == sys.n > 0 && MergedByLabel(seq(sys.n, i => i), LabelsOf(s), root) && Marked(LabelsOf(s), nonptr)
    ensures |root| == |nonptr| == sys.n && root[0] == 0 && !nonptr[0]
  {
    var id := seq(sys.n, i => i);
    assert LabelsOf(s)[0] == {} && root[root[0]] == root[0] && id[0] == 0 && id[root[0]] == root[0];
  }

  lemma PairBySources(sys: System, lastObj: nat, g: O.Graph, s: O.Off, root: seq<nat>, nonptr: seq<bool>, i: nat, j: nat)
    requires |s.root| == sys.n && MergedByLabel(seq(sys.n, i => i), LabelsOf(s), root) && Marked(LabelsOf(s), nonptr)
    requires 0 < i < sys.n && 0 < j < sys.n && S.SetsExact(g, s, i, j)
    requires s.root[i] < |s.labels| && s.root[j] < |s.labels| && s.labels[s.root[i]] != {}
    requires S.SameSources(g, i, j) <==> Sources(sys.cons, sys.n, lastObj, i) == Sources(sys.cons, sys.n, lastObj, j)
    requires S.HasSource(g, i) <==> Sources(sys.cons, sys.n, lastObj, i) != {}
    ensures |root| == |nonptr| == sys.n && BySources(sys, lastObj, root, nonptr, i, j)
  {
    hide Sources, S.SameSources, S.HasSource;
    var lab, id := LabelsOf(s), seq(sys.n, i => i);
    assert id[i] == i && id[j] == j && lab[i] == s.labels[s.root[i]] && lab[j] == s.labels[s.root[j]];
    assert root[i] == root[j] <==> i == j || (lab[i] == lab[j] && lab[i] != {} && 0 !in lab[i]);
  }

  lemma KnownSets(g: O.Graph, val: Assignment, s: O.Off, i: nat)
    requires Q.AllLabelled(g, val, s) && 0 < i < |s.root|
    ensures s.root[i] < |s.labels| && s.labels[s.root[i]] != {}
  {
    assert O.Labelled(g, val, s, i);
  }

  lemma LeastSolves(sys: System, s: Assignment)
    requires LeastSolution(sys, s)
    ensures Solution(sys, s) && |s| == sys.n
  {
  }

  lemma GraphNodes(cons: seq<Constraint>, n: nat, lastObj: nat, g: O.Graph)
    requires GraphOf(cons, n, lastObj, g)
    ensures |g.direct| == n
  {
  }

  lemma LabelsNotEmpty(g: O.Graph, val: Assignment, s: O.Off)
    requires Q.AllLabelled(g, val, s)
    ensures forall i :: 0 < i < |val| ==> s.root[i] < |s.labels| && s.labels[s.root[i]] != {}
  {
    forall i | 0 < i < |val|
      ensures s.root[i] < |s.labels| && s.labels[s.root[i]] != {}
    {
      assert O.Labelled(g, val, s, i);
    }
  }

  lemma EquivalencesExact(sys: System, lastObj: nat, g: O.Graph, val: Assignment, s: O.Off, root: seq<nat>, nonptr: seq<bool>)
    requires Prepared(sys, lastObj) && GraphOf(sys.cons, sys.n, lastObj, g)
    requires LeastSolution(sys, val) && Q.AllLabelled(g, val, s)
    requires |s.root| == sys.n && MergedByLabel(seq(sys.n, i => i), LabelsOf(s), root) && Marked(LabelsOf(s), nonptr)
    ensures Exact(val, root, nonptr)
  {
    hide Prepared, GraphOf, Q.AllLabelled;
    forall i, j | 0 < i < sys.n && 0 < j < sys.n
      ensures root[i] == root[j] ==> val[i] == val[j]
      ensures nonptr[i] ==> val[i] == {}
    {
      EqualLabelsEqualSets(sys, lastObj, g, val, s, i, j);
    }
  }
}
