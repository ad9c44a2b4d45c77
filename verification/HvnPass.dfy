/** Hash-based value numbering of a constraint list: build the offline graph,
    label it, merge nodes with equal labels, rewrite the constraints. */
module HvnPass {
  import opened Constraints
  import opened HvnGraph
  import opened HvnMeaning
  import opened HvnReading
  import opened LabelMerging
  import O = OfflineGraph
  import Q = OfflineSearch
  import R = OfflineRules
  import S = OfflineSources
  import UnionFind
  import OfflineLabels
  import Worklists

  // Numbering.

  /** Whether node `i` has been numbered: parameters in the first pass, values
      in the second. */
  ghost predicate Reached(root: seq<nat>, kind: seq<Kind>, params: nat, vals: nat, i: nat)
    requires i < |root| == |kind|
  {
    root[i] == i && ((kind[i] == Param && i < params) || (kind[i] == Val && i < vals))
  }

  ghost predicate NumberedTo(root: seq<nat>, kind: seq<Kind>, m2o: seq<nat>, back: seq<nat>, firstVal: nat, params: nat, vals: nat) {
    && |root| == |kind| == |m2o| && 1 <= firstVal <= |back|
    && (forall i :: 0 <= i < |root| ==> NumberedAt(root, kind, m2o, back, firstVal, params, vals, i))
    && (forall p :: 0 < p < |back| ==> back[p] < |m2o| && m2o[back[p]] == p)
  }

  ghost predicate NumberedAt(root: seq<nat>, kind: seq<Kind>, m2o: seq<nat>, back: seq<nat>, firstVal: nat, params: nat, vals: nat, i: nat)
    requires i < |root| == |kind| == |m2o|
  {
    && m2o[i] < |back|
    && (m2o[i] != 0 <==> Reached(root, kind, params, vals, i))
    && (m2o[i] != 0 ==> (m2o[i] < firstVal <==> kind[i] == Param) && back[m2o[i]] == i)
  }

  lemma NumberMore(root: seq<nat>, kind: seq<Kind>, m2o: seq<nat>, back: seq<nat>, firstVal: nat, i: nat, vals: nat, val: bool)
    requires i < |root|
    requires if val then vals == i && NumberedTo(root, kind, m2o, back, firstVal, |root|, i)
             else vals == 0 && firstVal == |back| && NumberedTo(root, kind, m2o, back, firstVal, i, 0)
    ensures var hit := root[i] == i && kind[i] == (if val then Val else Param);
      var m', b' := if hit then m2o[i := |back|] else m2o, if hit then back + [i] else back;
      if val then NumberedTo(root, kind, m', b', firstVal, |root|, i + 1)
      else NumberedTo(root, kind, m', b', |b'|, i + 1, 0)
  {
    var hit := root[i] == i && kind[i] == (if val then Val else Param);
    var m', b' := if hit then m2o[i := |back|] else m2o, if hit then back + [i] else back;
    var fv, ps, vs := if val then firstVal else |b'|, if val then |root| else i + 1, if val then i + 1 else 0;
    forall j | 0 <= j < |root|
      ensures NumberedAt(root, kind, m', b', fv, ps, vs, j)
    {
      assert NumberedAt(root, kind, m2o, back, firstVal, if val then |root| else i, vals, j);
    }
    assert NumberedAt(root, kind, m2o, back, firstVal, if val then |root| else i, vals, i);
  }

  /** Gives offline nodes to the parameters first, then to the values. */
  method MakeOffNodes(kind: seq<Kind>, uf: UnionFind.Partition) returns (nb: Numbering)
    requires uf.Valid() && |uf.rep| == |uf.root| == |kind|
    ensures Numbered(uf.root, kind, nb)
  {
    hide UnionFind.Encodes, NumberedTo, Reached;
    var n := |kind|;
    var m2o := seq(n, i => 0);
    var onn := 1;
    var back: seq<nat> := [0];
    NumberStart(uf.root, kind, m2o, back);
    for i := 0 to n
      invariant |m2o| == n && onn == |back| && NumberedTo(uf.root, kind, m2o, back, onn, i, 0)
    {
      NumberMore(uf.root, kind, m2o, back, onn, i, 0, false);
      if kind[i] == Param && uf.IsRep(i) {
        m2o, back := m2o[i := onn], back + [i];
        onn := onn + 1;
      }
    }
    var firstVal := onn;
    for i := 0 to n
      invariant |m2o| == n && onn == |back| && NumberedTo(uf.root, kind, m2o, back, firstVal, n, i)
    {
      NumberMore(uf.root, kind, m2o, back, firstVal, i, i, true);
      if kind[i] == Val && uf.IsRep(i) {
        m2o, back := m2o[i := onn], back + [i];
        onn := onn + 1;
      }
    }
    nb := Numbering(m2o, firstVal, onn - 1, back);
    NumberEnd(uf.root, kind, nb);
  }

  lemma NumberStart(root: seq<nat>, kind: seq<Kind>, m2o: seq<nat>, back: seq<nat>)
    requires |root| == |kind| == |m2o| && back == [0] && forall i :: 0 <= i < |m2o| ==> m2o[i] == 0
    ensures NumberedTo(root, kind, m2o, back, 1, 0, 0)
  {
  }

  lemma NumberEnd(root: seq<nat>, kind: seq<Kind>, nb: Numbering)
    requires |nb.back| == nb.k + 1 && NumberedTo(root, kind, nb.m2o, nb.back, nb.firstVal, |root|, |root|)
    ensures Numbered(root, kind, nb)
  {
    forall i | 0 <= i < |root|
      ensures NumberAt(root, kind, nb, i)
    {
      assert NumberedAt(root, kind, nb.m2o, nb.back, nb.firstVal, |root|, |root|, i);
    }
  }

  // Edges.

  /** Adds what one constraint contributes. */
  method AddConstraint(g: O.Graph, c: Constraint, m2o: seq<nat>, k: nat) returns (g': O.Graph)
    requires c.dest < |m2o| && c.src < |m2o| && m2o[c.dest] <= k && m2o[c.src] <= k
    requires |g.direct| == |g.implied| == |g.pre| == |g.indirect| == 2 * k + 1
    requires (c.Load? || c.Store?) && m2o[c.dest] != 0 ==> m2o[c.src] != 0
    ensures |g'.direct| == |g'.implied| == |g'.pre| == |g'.indirect| == 2 * k + 1
    ensures forall v :: 0 <= v < 2 * k + 1 ==> AddsPart(g, g', PartOf(c, m2o, k), v)
  {
    var od, os := m2o[c.dest], m2o[c.src];
    g' := g;
    if od == 0 {
      return;
    }
    match c
    case AddrOf(_, o) =>
      g' := g'.(pre := g.pre[od := g.pre[od] + {o}]);
      if os != 0 {
        g' := g'.(implied := g.implied[od + k := g.implied[od + k] + {os}]);
      }
    case Copy(_, _) =>
      if os != 0 {
        g' := g'.(direct := g.direct[od := g.direct[od] + {os}]);
        g' := g'.(implied := g.implied[od + k := g.implied[od + k] + {os + k}]);
      } else {
        g' := g'.(indirect := g.indirect[od := true]);
      }
    case Load(_, _) =>
      g' := g'.(direct := g.direct[od := g.direct[od] + {os + k}]);
    case Store(_, _) =>
      g' := g'.(direct := g.direct[od + k := g.direct[od + k] + {os}]);
  }

  /** The offline graph of a constraint list. */
  method AddOffEdges(cons: seq<Constraint>, nb: Numbering, ghost sys: System, ghost kind: seq<Kind>)
      returns (g: O.Graph)
    requires sys.cons == cons && Prepared(sys, kind) && Numbered(sys.root, kind, nb)
    ensures InNodes(cons, |nb.m2o|) && GraphFor(cons, nb, g)
  {
    var m2o, firstVal, k := nb.m2o, nb.firstVal, nb.k;
    hide GraphFor, Prepared, Numbered, AddsPart;
    ConstraintsInNodes(sys, kind, nb);
    var none: seq<set<nat>> := seq(2 * k + 1, i => {});
    g := O.Graph(none, none, none, seq(2 * k + 1, i => 0 < i < firstVal || k < i));
    GraphStart(nb, g);
    var i := 0;
    while i < |cons|
      invariant 0 <= i <= |cons| && InNodes(cons[..i], |m2o|) && GraphFor(cons[..i], nb, g)
      invariant |g.direct| == |g.implied| == |g.pre| == |g.indirect| == 2 * k + 1
    {
      var c := cons[i];
      PartShape(sys, kind, nb, c);
      NumbersInRange(sys, kind, nb, c);
      ghost var g0 := g;
      g := AddConstraint(g, c, m2o, k);
      GraphMore(cons[..i], c, nb, g0, g);
      assert cons[..i + 1] == cons[..i] + [c];
      i := i + 1;
    }
    assert cons[..i] == cons;
  }

  lemma NumbersInRange(sys: System, kind: seq<Kind>, nb: Numbering, c: Constraint)
    requires Numbered(sys.root, kind, nb) && c.dest < |nb.m2o| && c.src < |nb.m2o|
    ensures nb.m2o[c.dest] <= nb.k && nb.m2o[c.src] <= nb.k
  {
    assert NumberAt(sys.root, kind, nb, c.dest) && NumberAt(sys.root, kind, nb, c.src);
  }

  lemma ConstraintsInNodes(sys: System, kind: seq<Kind>, nb: Numbering)
    requires Prepared(sys, kind) && Numbered(sys.root, kind, nb)
    ensures InNodes(sys.cons, |nb.m2o|)
  {
    forall c | c in sys.cons
      ensures c.dest < |nb.m2o| && c.src < |nb.m2o|
    {
      PartShape(sys, kind, nb, c);
    }
  }

  lemma GraphStart(nb: Numbering, g: O.Graph)
    requires |g.direct| == |g.implied| == |g.pre| == |g.indirect| == 2 * nb.k + 1
    requires forall v :: 0 <= v < |g.direct| ==> g.direct[v] == {} && g.implied[v] == {} && g.pre[v] == {}
    requires forall v :: 0 <= v < |g.direct| ==> (g.indirect[v] <==> 0 < v < nb.firstVal || nb.k < v)
    ensures GraphFor([], nb, g)
  {
    hide PartOf;
  }

  // Merging.

  /** Merges the nodes with equal labels, and marks those labelled 0, of which
      some may be marked already. */
  method MergePtrEq(lab: seq<set<nat>>, uf: UnionFind.Partition, before: seq<bool>) returns (nonptr: seq<bool>)
    requires uf.Valid() && |uf.rep| == |uf.root| == |lab| == |before|
    requires forall i :: 0 <= i < |lab| ==> uf.root[i] < |lab| && uf.root[uf.root[i]] == uf.root[i] && (lab[i] != {} ==> uf.root[i] == i)
    requires forall i :: 0 <= i < |lab| && before[i] ==> 0 in lab[i]
    modifies uf
    ensures uf.Valid() && |uf.rep| == |uf.root| == |lab| && MergedByLabel(old(uf.root), lab, uf.root) && Marked(lab, nonptr)
  {
    hide UnionFind.Encodes, Merging;
    nonptr := before;
    var pe2node: map<set<nat>, nat> := map[];
    ghost var first: map<set<nat>, nat> := map[];
    MergeStart(uf.root, lab);
    var i := 0;
    while i < |lab|
      invariant 0 <= i <= |lab| == |nonptr| && uf.Valid() && |uf.rep| == |uf.root| == |lab|
      invariant Merging(old(uf.root), lab, uf.root, pe2node, first, i)
      invariant forall j :: 0 <= j < |lab| ==> if j < i then nonptr[j] <==> 0 in lab[j] else nonptr[j] == before[j]
    {
      if lab[i] != {} {
        if 0 in lab[i] {
          MergeMark(old(uf.root), lab, uf.root, pe2node, first, i);
          nonptr := nonptr[i := true];
        } else {
          pe2node, first := MergeNode(lab, uf, i, pe2node, old(uf.root), first);
        }
      } else {
        MergeSkip(old(uf.root), lab, uf.root, pe2node, first, i);
      }
      i := i + 1;
    }
    MergeEnd(old(uf.root), lab, uf.root, pe2node, first);
  }

  /** Node `i` is the first with its labels, or is merged with those that have
      them too. */
  method MergeNode(lab: seq<set<nat>>, uf: UnionFind.Partition, i: nat, pe2node: map<set<nat>, nat>,
                   ghost root0: seq<nat>, ghost first: map<set<nat>, nat>)
      returns (pe2node': map<set<nat>, nat>, ghost first': map<set<nat>, nat>)
    requires uf.Valid() && |uf.rep| == |uf.root| == |lab| && i < |lab| && lab[i] != {} && 0 !in lab[i]
    requires Merging(root0, lab, uf.root, pe2node, first, i)
    modifies uf
    ensures uf.Valid() && |uf.rep| == |uf.root| == |lab| && Merging(root0, lab, uf.root, pe2node', first', i + 1)
  {
    hide UnionFind.Encodes, Merging;
    ghost var root := uf.root;
    if lab[i] !in pe2node {
      MergeNew(root0, lab, root, pe2node, first, i);
      pe2node', first' := pe2node[lab[i] := i], first[lab[i] := i];
    } else {
      MergeReady(root0, lab, root, pe2node, first, i);
      var p, c := uf.Merge(pe2node[lab[i]], i);
      MergeTwo(root0, lab, root, pe2node, first, i, p, c);
      pe2node', first' := pe2node[lab[i] := p], first;
    }
  }

  // Rewriting.

  /** Rewrites the constraints through representatives, without those that
      mention a marked node, copies of a node to itself, and repetitions. */
  method RewriteConstraints(cons: seq<Constraint>, uf: UnionFind.Partition, nonptr: seq<bool>) returns (cons': seq<Constraint>)
    requires uf.Valid() && |uf.rep| == |uf.root| == |nonptr| && InNodes(cons, |nonptr|)
    modifies uf`rep
    ensures uf.Valid() && |uf.rep| == |uf.root| && RewrittenBy(cons, uf.root, nonptr, cons') && |cons'| <= |cons|
  {
    hide UnionFind.Encodes, RewrittenBy;
    cons' := [];
    var seen: set<Constraint> := {};
    var i := 0;
    RewriteStart(uf.root, nonptr);
    while i < |cons|
      invariant 0 <= i <= |cons| && uf.Valid() && |uf.rep| == |uf.root| == |nonptr|
      invariant |cons'| <= i && RewrittenBy(cons[..i], uf.root, nonptr, cons') && forall c :: c in seen <==> c in cons'
    {
      var c := cons[i];
      assert cons[..i + 1] == cons[..i] + [c];
      ghost var before := cons';
      if !nonptr[c.dest] && !nonptr[c.src] {
        var d := uf.GetRep(c.dest);
        var c' := c.(dest := d);
        if !c.AddrOf? {
          var o := uf.GetRep(c.src);
          c' := c'.(src := o);
        }
        if (!c'.Copy? || c'.dest != c'.src) && c' !in seen {
          seen, cons' := seen + {c'}, cons' + [c'];
        }
      }
      RewriteMore(cons[..i], uf.root, nonptr, before, c, cons');
      i := i + 1;
    }
    assert cons[..i] == cons;
  }

  lemma RewriteStart(root: seq<nat>, nonptr: seq<bool>)
    requires |root| == |nonptr|
    ensures RewrittenBy([], root, nonptr, [])
  {
  }

  lemma RewriteMore(cons: seq<Constraint>, root: seq<nat>, nonptr: seq<bool>, cons': seq<Constraint>, c: Constraint, cons'': seq<Constraint>)
    requires RewrittenBy(cons, root, nonptr, cons') && c.dest < |root| && c.src < |root|
    requires cons'' == if Kept(c, root, nonptr) && Rewrite(c, root) !in cons' then cons' + [Rewrite(c, root)] else cons'
    ensures RewrittenBy(cons + [c], root, nonptr, cons'')
  {
    var cs := cons + [c];
    assert c in cs && forall b :: b in cs <==> b in cons || b == c;
    forall c' | c' in cons''
      ensures exists b :: b in cs && Kept(b, root, nonptr) && Rewrite(b, root) == c'
    {
      if c' in cons' {
        var b :| b in cons && Kept(b, root, nonptr) && Rewrite(b, root) == c';
        assert b in cs;
      }
    }
  }

  // The pass.

  /** Reads the labels of the nodes of the main graph. */
  method ReadLabels(l: OfflineLabels.Labeller, nb: Numbering) returns (lab: seq<set<nat>>)
    requires l.Valid()
    requires forall i :: 0 <= i < |nb.m2o| && nb.m2o[i] != 0 ==>
      nb.m2o[i] < |l.uf.root| && l.uf.root[nb.m2o[i]] < |l.labels|
    modifies l.uf`rep
    ensures LabelsRead(nb, l.S(), lab) && l.S() == old(l.S())
  {
    hide UnionFind.Encodes;
    var m2o := nb.m2o;
    lab := [];
    var i := 0;
    while i < |m2o|
      invariant 0 <= i <= |m2o| && |lab| == i && l.Valid() && l.S() == old(l.S())
      invariant forall j :: 0 <= j < i ==> lab[j] == if m2o[j] == 0 then {} else l.labels[l.uf.root[m2o[j]]]
    {
      var ls: set<nat> := {};
      if m2o[i] != 0 {
        var r := l.uf.GetRep(m2o[i]);
        ls := l.labels[r];
      }
      lab := lab + [ls];
      i := i + 1;
    }
    forall j | 0 <= j < |lab|
      ensures LabelReadAt(nb, l.S(), lab, j)
    {
    }
  }

  /** What the pass has done, step by step. */
  ghost predicate Worked(sys: System, kind: seq<Kind>, nb: Numbering, g: O.Graph, val: seq<set<nat>>, s: O.Off, lab: seq<set<nat>>,
    sys': System, nonptr: seq<bool>, keep: bool, own: map<nat, nat>) {
    && Prepared(sys, kind) && Numbered(sys.root, kind, nb) && InNodes(sys.cons, |nb.m2o|) && GraphFor(sys.cons, nb, g)
    && Q.AllLabelled(g, val, s) && R.AllRuled(g, s, keep, own) && LabelsRead(nb, s, lab)
    && sys' == System(sys.n, sys'.root, sys'.cons)
    && MergedPtr(sys.root, lab, sys'.root, nonptr) && RewrittenBy(sys.cons, sys'.root, nonptr, sys'.cons)
  }

  /** The rewritten list can be solved instead: clean solutions, among them the
      least one, solve the original list as they are; any other one does once
      it is read without the targets whose address is never taken, and exactly
      if its stores miss the marked nodes when it is read with them. */
  ghost predicate ReadsBack(sys: System, sys': System, nonptr: seq<bool>) {
    && sys'.n == sys.n == |sys.root| == |nonptr| && (forall i :: 0 <= i < sys.n ==> sys.root[i] < sys.n)
    && InNodes(sys.cons, sys.n)
    && (forall t :: Solution(sys', t) ==> ReadAt(sys, sys', nonptr, t))
    && (forall t :: LeastSolution(sys', t) ==> Clean(sys', nonptr, t))
    && (forall x :: IsTaken(sys'.cons, x) ==> IsTaken(sys.cons, x))
  }

  ghost predicate ReadAt(sys: System, sys': System, nonptr: seq<bool>, t: Assignment)
    requires sys.n == |sys.root| == |nonptr| && (forall i :: 0 <= i < sys.n ==> sys.root[i] < sys.n) && InNodes(sys.cons, sys.n)
  {
    && |t| == sys.n && Solution(sys, TakenPullBack(sys, nonptr, t))
    && (Solution(sys, PullBack(sys, nonptr, t)) <==> StoresMissMarks(sys, nonptr, t))
    && (Clean(sys', nonptr, t) ==> PullBack(sys, nonptr, t) == t && Solution(sys, t))
  }

  /** The least solution stays the same exactly if it is equal on merged nodes
      and empty on marked ones, and that is so if its stores are grounded. */
  ghost predicate KeepsLeast(sys: System, sys': System, nonptr: seq<bool>) {
    && InNodes(sys.cons, sys.n) && InNodes(sys'.cons, sys'.n) && Coarser(sys.root, sys'.root)
    && forall s :: LeastSolution(sys, s) ==> LeastKept(sys, sys', nonptr, s)
  }

  ghost predicate LeastKept(sys: System, sys': System, nonptr: seq<bool>, s: Assignment)
    requires InNodes(sys.cons, sys.n) && InNodes(sys'.cons, sys'.n)
  {
    && |s| == sys.n == sys'.n
    && (LeastSolution(sys', s) <==> Exact(sys'.root, nonptr, s))
    && (Grounded(sys, s) ==> Exact(sys'.root, nonptr, s) && Grounded(sys', s))
  }

  /** Nodes in one class stay in one class. */
  ghost predicate Coarser(root: seq<nat>, root': seq<nat>) {
    && |root| == |root'|
    && forall i :: 0 <= i < |root| ==> root[i] < |root| && root'[i] == root'[root[i]]
  }

  /** The pass can run again exactly if no object whose address is taken was
      merged into another node, and none is if none has an offline node. */
  ghost predicate RunsAgain(sys: System, kind: seq<Kind>, sys': System, nonptr: seq<bool>) {
    && Unmentioned(sys', kind, nonptr)
    && (Prepared(sys', kind) <==> ObjectsStay(sys'))
    && (ObjectsApart(sys, kind) ==> ObjectsStay(sys') && ObjectsApart(sys', kind))
  }

  /** What the pass promises about the list it leaves. */
  ghost predicate Preserved(sys: System, kind: seq<Kind>, sys': System, nonptr: seq<bool>) {
    ReadsBack(sys, sys', nonptr) && KeepsLeast(sys, sys', nonptr) && RunsAgain(sys, kind, sys', nonptr)
  }

  /** The values to reason with: the least solution if its stores are grounded. */
  lemma PickValues(sys: System, kind: seq<Kind>, nb: Numbering, g: O.Graph) returns (s: Assignment, val: seq<set<nat>>)
    requires Prepared(sys, kind) && Numbered(sys.root, kind, nb) && InNodes(sys.cons, |nb.m2o|) && GraphFor(sys.cons, nb, g)
    ensures O.Fits(g, val, OwnMeaning(sys.n)) && LeastSolution(sys, s) && InNodes(sys.cons, sys.n) && |s| == sys.n
    ensures Grounded(sys, s) ==> val == ValuesFor(nb, s)
  {
    s := LeastExists(sys);
    if Grounded(sys, s) {
      val := ValuesFor(nb, s);
      SolutionFits(sys, kind, nb, g, s);
    } else {
      val := seq(2 * nb.k + 1, v => AllNodes(sys.n));
      EverythingFits(sys, kind, nb, g);
    }
  }

  lemma FewNumbers(root: seq<nat>, kind: seq<Kind>, nb: Numbering)
    requires Numbered(root, kind, nb)
    ensures nb.k <= |root|
  {
    var s := nb.back[1..];
    forall i, j | 0 <= i < j < |s|
      ensures s[i] != s[j]
    {
      assert s[i] == nb.back[i + 1] && s[j] == nb.back[j + 1];
    }
    Worklists.Pigeonhole(s, |root|);
  }

  lemma GraphSizes(sys: System, kind: seq<Kind>, nb: Numbering, g: O.Graph)
    requires Prepared(sys, kind) && Numbered(sys.root, kind, nb) && InNodes(sys.cons, |nb.m2o|) && GraphFor(sys.cons, nb, g)
    ensures |g.direct| == 2 * nb.k + 1 <= 2 * |kind| + 1 && |kind| == sys.n > 0
    ensures forall l :: l in OwnMeaning(sys.n) ==> 0 < l < sys.n
  {
    FewNumbers(sys.root, kind, nb);
  }

  lemma NumbersLabelled(sys: System, kind: seq<Kind>, nb: Numbering, g: O.Graph, val: seq<set<nat>>, s: O.Off)
    requires Numbered(sys.root, kind, nb) && InNodes(sys.cons, |nb.m2o|) && GraphFor(sys.cons, nb, g) && Q.AllLabelled(g, val, s)
    ensures forall i :: 0 <= i < |nb.m2o| && nb.m2o[i] != 0 ==> nb.m2o[i] < |s.root| && s.root[nb.m2o[i]] < |s.labels|
  {
    forall i | 0 <= i < |nb.m2o| && nb.m2o[i] != 0
      ensures nb.m2o[i] < |s.root| && s.root[nb.m2o[i]] < |s.labels|
    {
      assert NumberAt(sys.root, kind, nb, i) && O.Labelled(g, val, s, nb.m2o[i]);
    }
  }

  /** Only representatives with an offline node have labels, known ones, and
      only values are labelled 0. */
  lemma LabelledReps(sys: System, kind: seq<Kind>, nb: Numbering, g: O.Graph, val: seq<set<nat>>, s: O.Off, lab: seq<set<nat>>)
    requires Prepared(sys, kind) && Numbered(sys.root, kind, nb) && InNodes(sys.cons, |nb.m2o|) && GraphFor(sys.cons, nb, g)
    requires Q.AllLabelled(g, val, s) && LabelsRead(nb, s, lab)
    ensures |lab| == |nb.m2o| == sys.n == |sys.root| && 0 !in s.mean
    ensures forall i :: 0 <= i < sys.n ==> sys.root[i] < sys.n && sys.root[sys.root[i]] == sys.root[i]
    ensures forall i :: 0 <= i < sys.n ==> (lab[i] == {} <==> nb.m2o[i] == 0) && (0 in lab[i] ==> lab[i] == {0} && kind[i] == Val)
    ensures forall i :: 0 <= i < sys.n ==> (nb.m2o[i] == 0 <==> kind[i] == NoNode || sys.root[i] != i)
  {
    hide O.Worth, O.Reach;
    forall i | 0 <= i < sys.n
      ensures (lab[i] == {} <==> nb.m2o[i] == 0) && (0 in lab[i] ==> lab[i] == {0} && kind[i] == Val)
      ensures nb.m2o[i] == 0 <==> kind[i] == NoNode || sys.root[i] != i
    {
      assert NumberAt(sys.root, kind, nb, i) && LabelReadAt(nb, s, lab, i);
      if nb.m2o[i] != 0 {
        assert O.Labelled(g, val, s, nb.m2o[i]);
        if kind[i] != Val {
          ParamLabel(sys, kind, nb, g, val, s, i);
        }
      }
    }
  }

  /** A node that nothing mentions is labelled 0. */
  lemma UnmentionedZero(sys: System, kind: seq<Kind>, nb: Numbering, g: O.Graph, val: seq<set<nat>>, s: O.Off, lab: seq<set<nat>>,
    keep: bool, own: map<nat, nat>, i: nat)
    requires Prepared(sys, kind) && Numbered(sys.root, kind, nb) && InNodes(sys.cons, |nb.m2o|) && GraphFor(sys.cons, nb, g)
    requires Q.AllLabelled(g, val, s) && R.AllRuled(g, s, keep, own) && LabelsRead(nb, s, lab)
    requires i < sys.n && |sys.root| == |kind| && Isolated(sys, kind, i)
    ensures 0 in lab[i]
  {
    hide O.Worth, R.LabelsInto, R.IsIndirect;
    assert NumberAt(sys.root, kind, nb, i) && LabelReadAt(nb, s, lab, i);
    var p := nb.m2o[i];
    NoEdges(sys, kind, nb, g, i);
    hide Numbered, GraphFor, Isolated, LabelsRead, Prepared;
    S.LabelsOf(g, val, s, keep, own, p);
    AloneInto(g, val, s, p);
  }

  /** Its offline node has nothing that could give it a label. */
  lemma NoEdges(sys: System, kind: seq<Kind>, nb: Numbering, g: O.Graph, i: nat)
    requires Numbered(sys.root, kind, nb) && InNodes(sys.cons, |nb.m2o|) && GraphFor(sys.cons, nb, g)
    requires i < |sys.root| == |kind| && Isolated(sys, kind, i)
    ensures 0 < nb.m2o[i] < |g.direct| && |g.direct| == |g.pre| == |g.indirect| == |g.implied|
    ensures O.Succ(g, nb.m2o[i]) == {} && g.pre[nb.m2o[i]] == {} && !g.indirect[nb.m2o[i]]
  {
    assert NumberAt(sys.root, kind, nb, i);
    var p := nb.m2o[i];
    assert NodeFor(sys.cons, nb, g, p);
    forall c | c in sys.cons
      ensures nb.m2o[c.dest] != p
    {
      assert Without(sys.root, c, i) && NumberAt(sys.root, kind, nb, c.dest);
    }
  }

  lemma AloneInto(g: O.Graph, val: seq<set<nat>>, s: O.Off, p: nat)
    requires Q.AllLabelled(g, val, s) && 0 < p < |val| && O.Succ(g, p) == {} && g.pre[p] == {} && !g.indirect[p]
    ensures |s.root| == |val| && R.LabelsInto(g, s, s.root[p]) == {} && !R.IsIndirect(g, s, s.root[p])
  {
    hide O.Labelled, O.Placed, O.TableOk, O.WhenOk;
    forall u | 0 < u < |s.root| && s.root[u] == s.root[p]
      ensures u == p
    {
      Q.ComponentsExact(g, val, s, p, u);
      var q :| O.IsPath(g, q) && q[0] == p && q[|q| - 1] == u;
      assert !O.IsEdge(g, q[0], if |q| > 1 then q[0 + 1] else 0);
    }
  }

  /** What is needed of the labels. */
  lemma WorkedLabels(sys: System, kind: seq<Kind>, nb: Numbering, g: O.Graph, val: seq<set<nat>>, s: O.Off, lab: seq<set<nat>>,
    sys': System, nonptr: seq<bool>, keep: bool, own: map<nat, nat>)
    requires Worked(sys, kind, nb, g, val, s, lab, sys', nonptr, keep, own)
    ensures Consistent(sys, lab) && |lab| == |nb.m2o| == |nonptr| == |sys'.root| == sys.n == |sys.root| == |kind|
    ensures forall i :: 0 <= i < sys.n ==> (lab[i] == {} <==> kind[i] == NoNode || sys.root[i] != i)
    ensures forall i :: 0 <= i < sys.n && 0 in lab[i] ==> kind[i] == Val && sys.root[i] == i
  {
    hide Numbered, GraphFor, Q.AllLabelled, R.AllRuled, LabelsRead, RewrittenBy, MergedByLabel;
    LabelledReps(sys, kind, nb, g, val, s, lab);
    forall c | c in sys.cons
      ensures c.dest < |lab| && c.src < |lab|
      ensures 0 in lab[c.dest] ==> c.Store? || (c.Copy? && 0 in lab[c.src])
      ensures c.AddrOf? ==> 0 !in lab[c.src]
    {
      LabelZero(sys, kind, nb, g, val, s, lab, c);
    }
    assert |sys'.root| == |lab| by { MergedSizes(sys.root, lab, sys'.root, nonptr); }
  }

  lemma MergedSizes(root0: seq<nat>, lab: seq<set<nat>>, root: seq<nat>, nonptr: seq<bool>)
    requires MergedPtr(root0, lab, root, nonptr)
    ensures |root0| == |lab| == |root| == |nonptr| && Coarser(root0, root)
    ensures forall i :: 0 <= i < |root| ==> root[i] < |root| && root[root[i]] == root[i]
  {
  }

  lemma WorkedReadsBack(sys: System, kind: seq<Kind>, nb: Numbering, g: O.Graph, val: seq<set<nat>>, s: O.Off, lab: seq<set<nat>>,
    sys': System, nonptr: seq<bool>, keep: bool, own: map<nat, nat>)
    requires Worked(sys, kind, nb, g, val, s, lab, sys', nonptr, keep, own)
    ensures ReadsBack(sys, sys', nonptr) && RunsAgain(sys, kind, sys', nonptr)
  {
    WorkedLabels(sys, kind, nb, g, val, s, lab, sys', nonptr, keep, own);
    hide Numbered, GraphFor, Q.AllLabelled, R.AllRuled, LabelsRead, RewrittenBy, MergedPtr, Solution, Included, Consistent, Clean, Unmentioned,
      PullBack, TakenPullBack, StoresMissMarks, ObjectsStay, ObjectsApart, IsTaken, InNodes, Prepared;
    var root, cons' := sys'.root, sys'.cons;
    assert Legal(sys) && InNodes(sys.cons, sys.n) && LegalPartition(sys.root) by { LegalAll(sys, kind); }
    hide Legal, LegalPartition;
    hide ReadAt;
    forall t | Solution(sys', t)
      ensures ReadAt(sys, sys', nonptr, t)
    {
      WorkedReadAt(sys, lab, sys', nonptr, t);
    }
    MarksUnmentioned(sys, kind, lab, root, nonptr, cons');
    MergedSizes(sys.root, lab, root, nonptr);
    forall t | LeastSolution(sys', t)
      ensures Clean(sys', nonptr, t)
    {
      LeastIsClean(sys', kind, nonptr, t);
    }
    forall x | IsTaken(cons', x)
      ensures IsTaken(sys.cons, x)
    {
      TakenBefore(sys.cons, root, nonptr, cons', x);
    }
    StaysPrepared(sys, kind, lab, root, nonptr, cons');
  }

  lemma WorkedReadAt(sys: System, lab: seq<set<nat>>, sys': System, nonptr: seq<bool>, t: Assignment)
    requires Legal(sys) && Consistent(sys, lab) && InNodes(sys.cons, sys.n) && |nonptr| == sys.n == sys'.n
    requires MergedPtr(sys.root, lab, sys'.root, nonptr) && RewrittenBy(sys.cons, sys'.root, nonptr, sys'.cons)
    requires Solution(sys', t)
    ensures ReadAt(sys, sys', nonptr, t)
  {
    hide Solution, MergedPtr, RewrittenBy, Consistent, Clean, PullBack, TakenPullBack, StoresMissMarks, InNodes;
    SolutionSize(sys', t);
    RewritingIsSound(sys, lab, sys'.root, nonptr, sys'.cons, t);
    ReadingIsSound(sys, lab, sys'.root, nonptr, sys'.cons, t);
    if Clean(sys', nonptr, t) {
      CleanReadsBack(sys, lab, sys'.root, nonptr, sys'.cons, t);
    }
  }

  lemma LegalAll(sys: System, kind: seq<Kind>)
    requires Prepared(sys, kind)
    ensures Legal(sys) && InNodes(sys.cons, sys.n) && LegalPartition(sys.root)
  {
  }

  lemma WorkedKeepsLeast(sys: System, kind: seq<Kind>, nb: Numbering, g: O.Graph, val: seq<set<nat>>, s: O.Off, lab: seq<set<nat>>,
    sys': System, nonptr: seq<bool>, keep: bool, own: map<nat, nat>, sol: Assignment)
    requires Worked(sys, kind, nb, g, val, s, lab, sys', nonptr, keep, own)
    requires LeastSolution(sys, sol) && InNodes(sys.cons, sys.n) && |sol| == sys.n && (Grounded(sys, sol) ==> val == ValuesFor(nb, sol))
    ensures KeepsLeast(sys, sys', nonptr)
  {
    hide Numbered, GraphFor, Q.AllLabelled, R.AllRuled, LabelsRead, RewrittenBy, MergedPtr, Solution, Included, Consistent, ValuesFor, LeastKept,
      Prepared;
    WorkedLabels(sys, kind, nb, g, val, s, lab, sys', nonptr, keep, own);
    MergedSizes(sys.root, lab, sys'.root, nonptr);
    RewrittenInNodes(sys, sys'.root, nonptr, sys'.cons);
    WorkedKeepsOne(sys, kind, nb, g, val, s, lab, sys', nonptr, keep, own, sol);
    forall t | LeastSolution(sys, t)
      ensures t == sol
    {
      LeastIsUnique(sys, sol, t);
    }
  }

  lemma WorkedKeepsOne(sys: System, kind: seq<Kind>, nb: Numbering, g: O.Graph, val: seq<set<nat>>, s: O.Off, lab: seq<set<nat>>,
    sys': System, nonptr: seq<bool>, keep: bool, own: map<nat, nat>, sol: Assignment)
    requires Worked(sys, kind, nb, g, val, s, lab, sys', nonptr, keep, own)
    requires LeastSolution(sys, sol) && InNodes(sys.cons, sys.n) && InNodes(sys'.cons, sys'.n)
    requires |sol| == sys.n && (Grounded(sys, sol) ==> val == ValuesFor(nb, sol))
    ensures LeastKept(sys, sys', nonptr, sol)
  {
    hide Numbered, GraphFor, Q.AllLabelled, R.AllRuled, LabelsRead, RewrittenBy, MergedPtr, Solution, Included, Consistent, ValuesFor, Clean, Exact,
      Satisfied, LegalPartition, Grounded, InNodes;
    var root, cons' := sys'.root, sys'.cons;
    WorkedLabels(sys, kind, nb, g, val, s, lab, sys', nonptr, keep, own);
    if Grounded(sys, sol) {
      WorkedExact(sys, kind, nb, g, val, s, lab, sys', nonptr, keep, own, sol);
      GroundedKept(sys, root, nonptr, cons', sol);
    }
    if Exact(root, nonptr, sol) {
      RewritingIsExact(sys, lab, root, nonptr, cons', sol);
    }
    if LeastSolution(sys', sol) {
      WorkedReadsBack(sys, kind, nb, g, val, s, lab, sys', nonptr, keep, own);
      CleanIsExact(sys', nonptr, sol);
    }
  }

  lemma WorkedExact(sys: System, kind: seq<Kind>, nb: Numbering, g: O.Graph, val: seq<set<nat>>, s: O.Off, lab: seq<set<nat>>,
    sys': System, nonptr: seq<bool>, keep: bool, own: map<nat, nat>, sol: Assignment)
    requires Worked(sys, kind, nb, g, val, s, lab, sys', nonptr, keep, own) && LeastSolution(sys, sol) && val == ValuesFor(nb, sol)
    ensures Exact(sys'.root, nonptr, sol)
  {
    hide Numbered, GraphFor, Q.AllLabelled, R.AllRuled, LabelsRead, RewrittenBy, MergedPtr, Included, ValuesFor, Exact;
    LabelledReps(sys, kind, nb, g, val, s, lab);
    LabelsAreExact(sys, kind, nb, g, s, lab, sol);
    MergesAreExact(sys, nb, s.mean, lab, sys'.root, nonptr, sol);
  }

  lemma CleanIsExact(sys: System, nonptr: seq<bool>, s: Assignment)
    requires Solution(sys, s) && Clean(sys, nonptr, s)
    ensures Exact(sys.root, nonptr, s)
  {
    hide Satisfied;
  }

  lemma RewrittenInNodes(sys: System, root: seq<nat>, nonptr: seq<bool>, cons': seq<Constraint>)
    requires RewrittenBy(sys.cons, root, nonptr, cons') && |root| == sys.n && forall i :: 0 <= i < |root| ==> root[i] < |root|
    ensures InNodes(cons', sys.n)
  {
    forall c' | c' in cons'
      ensures c'.dest < sys.n && c'.src < sys.n
    {
      var c :| c in sys.cons && Kept(c, root, nonptr) && Rewrite(c, root) == c';
    }
  }

  /** Stores stay grounded. */
  lemma GroundedKept(sys: System, root: seq<nat>, nonptr: seq<bool>, cons': seq<Constraint>, s: Assignment)
    requires RewrittenBy(sys.cons, root, nonptr, cons') && |root| == sys.n && Exact(root, nonptr, s) && |s| == sys.n
    requires InNodes(sys.cons, sys.n) && InNodes(cons', sys.n) && Grounded(sys, s)
    ensures Grounded(System(sys.n, root, cons'), s)
  {
    forall c' | c' in cons' && c'.Store?
      ensures GroundedAt(s, c')
    {
      var c :| c in sys.cons && Kept(c, root, nonptr) && Rewrite(c, root) == c';
      assert GroundedAt(s, c);
      assert s[root[c.dest]] == s[c.dest];
    }
  }

  lemma SolutionSize(sys: System, s: Assignment)
    requires Solution(sys, s)
    ensures |s| == sys.n
  {
  }

  /** The offline graph of a constraint list. */
  ghost predicate OfflineFor(sys: System, kind: seq<Kind>, nb: Numbering, g: O.Graph) {
    Numbered(sys.root, kind, nb) && InNodes(sys.cons, |nb.m2o|) && GraphFor(sys.cons, nb, g)
  }

  /** Nodes with offline nodes are merged exactly if those have the same
      sources, and some, and marked exactly if they have none. */
  ghost predicate BySources(nb: Numbering, g: O.Graph, root: seq<nat>, nonptr: seq<bool>, i: nat, j: nat) {
    && i < |root| == |nonptr| == |nb.m2o| && j < |root|
    && (nb.m2o[i] != 0 && nb.m2o[j] != 0 ==>
          && (root[i] == root[j] <==> i == j || (S.SameSources(g, nb.m2o[i], nb.m2o[j]) && S.HasSource(g, nb.m2o[i])))
          && (nonptr[i] <==> !S.HasSource(g, nb.m2o[i])))
  }

  lemma WorkedBySources(sys: System, kind: seq<Kind>, nb: Numbering, g: O.Graph, val: seq<set<nat>>, s: O.Off, lab: seq<set<nat>>,
    sys': System, nonptr: seq<bool>, own: map<nat, nat>)
    requires Worked(sys, kind, nb, g, val, s, lab, sys', nonptr, true, own)
    ensures forall i, j :: 0 <= i < sys.n && 0 <= j < sys.n ==> BySources(nb, g, sys'.root, nonptr, i, j)
  {
    hide Numbered, GraphFor, Q.AllLabelled, R.AllRuled, LabelsRead, RewrittenBy, MergedByLabel, Marked, S.SameSources, S.HasSource;
    LabelledReps(sys, kind, nb, g, val, s, lab);
    MergedSizes(sys.root, lab, sys'.root, nonptr);
    forall i, j | 0 <= i < sys.n && 0 <= j < sys.n
      ensures BySources(nb, g, sys'.root, nonptr, i, j)
    {
      if nb.m2o[i] != 0 && nb.m2o[j] != 0 {
        OfflineLabel(sys, kind, nb, g, val, s, lab, i);
        OfflineLabel(sys, kind, nb, g, val, s, lab, j);
        S.EqualSets(g, val, s, own, nb.m2o[i], nb.m2o[j]);
        S.ZeroMeansNoSource(g, val, s, own, nb.m2o[i]);
        PairMerged(sys.root, lab, sys'.root, nonptr, i, j);
      }
    }
  }

  lemma OfflineLabel(sys: System, kind: seq<Kind>, nb: Numbering, g: O.Graph, val: seq<set<nat>>, s: O.Off, lab: seq<set<nat>>, i: nat)
    requires Numbered(sys.root, kind, nb) && InNodes(sys.cons, |nb.m2o|) && GraphFor(sys.cons, nb, g)
    requires Q.AllLabelled(g, val, s) && LabelsRead(nb, s, lab) && i < |nb.m2o| && nb.m2o[i] != 0
    ensures 0 < nb.m2o[i] < |val| == |s.root| && s.root[nb.m2o[i]] < |s.labels| && i < |lab| && lab[i] == s.labels[s.root[nb.m2o[i]]]
  {
    hide O.Labelled, O.Placed;
    assert NumberAt(sys.root, kind, nb, i) && LabelReadAt(nb, s, lab, i);
  }

  lemma PairMerged(root0: seq<nat>, lab: seq<set<nat>>, root: seq<nat>, nonptr: seq<bool>, i: nat, j: nat)
    requires MergedPtr(root0, lab, root, nonptr) && i < |lab| && j < |lab| && root0[i] == i && root0[j] == j
    ensures i < |root| == |nonptr| && j < |root|
    ensures root[i] == root[j] <==> i == j || (lab[i] == lab[j] && lab[i] != {} && 0 !in lab[i])
    ensures nonptr[i] <==> 0 in lab[i]
  {
  }

  /** With single labels, nodes are merged if the same labels reach their
      direct components. */
  lemma WorkedByNumbers(sys: System, kind: seq<Kind>, nb: Numbering, g: O.Graph, val: seq<set<nat>>, s: O.Off, lab: seq<set<nat>>,
    sys': System, nonptr: seq<bool>, own: map<nat, nat>, i: nat, j: nat)
    requires Worked(sys, kind, nb, g, val, s, lab, sys', nonptr, false, own)
    requires i < sys.n && j < sys.n && |nb.m2o| == sys.n && nb.m2o[i] != 0 && nb.m2o[j] != 0
    ensures |sys'.root| == |nonptr| == sys.n && nb.m2o[i] < |s.root| && nb.m2o[j] < |s.root|
    ensures var c, d := s.root[nb.m2o[i]], s.root[nb.m2o[j]];
      (!R.IsIndirect(g, s, c) && !R.IsIndirect(g, s, d) && R.LabelsInto(g, s, c) == R.LabelsInto(g, s, d) ==>
         if R.LabelsInto(g, s, c) == {} then nonptr[i] && nonptr[j] else sys'.root[i] == sys'.root[j])
  {
    hide Numbered, GraphFor, Q.AllLabelled, R.AllRuled, LabelsRead, RewrittenBy, MergedByLabel, Marked, R.LabelsInto, R.IsIndirect;
    LabelledReps(sys, kind, nb, g, val, s, lab);
    MergedSizes(sys.root, lab, sys'.root, nonptr);
    OfflineLabel(sys, kind, nb, g, val, s, lab, i);
    OfflineLabel(sys, kind, nb, g, val, s, lab, j);
    S.LabelsOf(g, val, s, false, own, nb.m2o[i]);
    S.LabelsOf(g, val, s, false, own, nb.m2o[j]);
    PairMerged(sys.root, lab, sys'.root, nonptr, i, j);
    PairMerged(sys.root, lab, sys'.root, nonptr, j, i);
    ReachedNotZero(g, val, s, own, nb.m2o[i]);
  }

  /** What pointers that are copied to each other point to is collapsed, and so
      is an object with what points to it if it is loaded through it. */
  lemma PointeesCollapsed(sys: System, kind: seq<Kind>, nb: Numbering, g: O.Graph, val: seq<set<nat>>, s: O.Off, lab: seq<set<nat>>,
    sys': System, nonptr: seq<bool>, keep: bool, own: map<nat, nat>, a: nat, b: nat)
    requires Worked(sys, kind, nb, g, val, s, lab, sys', nonptr, keep, own)
    requires a < |nb.m2o| && b < |nb.m2o| && nb.m2o[a] != 0 && nb.m2o[b] != 0
    ensures |s.root| == 2 * nb.k + 1 && nb.m2o[a] + nb.k < |s.root| && nb.m2o[b] + nb.k < |s.root|
    ensures Copy(a, b) in sys.cons && Copy(b, a) in sys.cons ==> s.root[nb.m2o[a] + nb.k] == s.root[nb.m2o[b] + nb.k]
    ensures AddrOf(a, b) in sys.cons && Load(b, a) in sys.cons ==> s.root[nb.m2o[a] + nb.k] == s.root[nb.m2o[b]]
  {
    hide Prepared, Q.AllLabelled, R.AllRuled, LabelsRead, RewrittenBy, MergedPtr, O.Reach;
    OfflineSizes(sys, kind, nb, g, val, s);
    assert NumberAt(sys.root, kind, nb, a) && NumberAt(sys.root, kind, nb, b);
    var pa, pb, ra, rb := nb.m2o[a], nb.m2o[b], nb.m2o[a] + nb.k, nb.m2o[b] + nb.k;
    hide Numbered;
    if Copy(a, b) in sys.cons && Copy(b, a) in sys.cons {
      OfflineEdge(sys.cons, nb, g, Copy(a, b), ra, rb);
      OfflineEdge(sys.cons, nb, g, Copy(b, a), rb, ra);
      Q.ComponentsExact(g, val, s, ra, rb);
    }
    if AddrOf(a, b) in sys.cons && Load(b, a) in sys.cons {
      OfflineEdge(sys.cons, nb, g, AddrOf(a, b), ra, pb);
      OfflineEdge(sys.cons, nb, g, Load(b, a), pb, ra);
      Q.ComponentsExact(g, val, s, ra, pb);
    }
  }

  lemma OfflineSizes(sys: System, kind: seq<Kind>, nb: Numbering, g: O.Graph, val: seq<set<nat>>, s: O.Off)
    requires InNodes(sys.cons, |nb.m2o|) && GraphFor(sys.cons, nb, g) && Q.AllLabelled(g, val, s)
    ensures |s.root| == |val| == 2 * nb.k + 1
  {
  }

  lemma OfflineEdge(cons: seq<Constraint>, nb: Numbering, g: O.Graph, c: Constraint, v: nat, e: nat)
    requires InNodes(cons, |nb.m2o|) && GraphFor(cons, nb, g) && c in cons
    requires v < 2 * nb.k + 1 && e < 2 * nb.k + 1
    requires (v, e) in PartOf(c, nb.m2o, nb.k).direct || (v, e) in PartOf(c, nb.m2o, nb.k).implied
    ensures O.Reach(g, v, e)
  {
    hide PartOf;
    assert NodeFor(cons, nb, g, v);
    assert HasDirect(cons, nb.m2o, nb.k, v, e) || HasImplied(cons, nb.m2o, nb.k, v, e);
    O.ReachEdge(g, v, e);
  }

  /** What reaches a component is never label 0. */
  lemma ReachedNotZero(g: O.Graph, val: seq<set<nat>>, s: O.Off, own: map<nat, nat>, p: nat)
    requires Q.AllLabelled(g, val, s) && R.AllRuled(g, s, false, own) && 0 < p < |val|
    ensures |s.root| == |val| && s.root[p] < |s.labels|
    ensures !R.IsIndirect(g, s, s.root[p]) && R.LabelsInto(g, s, s.root[p]) != {} ==> 0 !in s.labels[s.root[p]]
  {
    S.LabelsOf(g, val, s, false, own, p);
    var c, all := s.root[p], R.LabelsInto(g, s, s.root[p]);
    assert O.TableOk(s) && R.Distinct(g, s, own);
    assert 0 !in all by { NeverZero(g, val, s, c); }
    hide Q.AllLabelled, R.AllRuled, R.LabelsInto, R.IsIndirect, R.NoStart;
    if all != {} && c !in own {
      assert s.labels[c] == R.NewLabels(false, all, false, 0, s.memo);
    }
  }

  lemma NeverZero(g: O.Graph, val: seq<set<nat>>, s: O.Off, c: nat)
    requires Q.AllLabelled(g, val, s)
    ensures 0 !in R.LabelsInto(g, s, c)
  {
    hide O.Labelled, O.Placed, O.TableOk, O.WhenOk, O.FitsAt;
    forall u | 0 <= u < |g.pre|
      ensures 0 !in g.pre[u]
    {
      assert O.EdgesFormed(g, u);
    }
  }

  /** Value numbering. Nodes may have been marked before, if nothing mentions
      them; they are marked again. */
  method Hvn(kind: seq<Kind>, cons: seq<Constraint>, uf: UnionFind.Partition, before: seq<bool>, keepSets: bool, ghost sys: System)
      returns (nonptr: seq<bool>, cons': seq<Constraint>)
    requires uf.Valid() && |uf.rep| == |uf.root| == |kind| && 2 * |kind| < UnionFind.NODE_RANK_MIN
    requires sys == System(|kind|, uf.root, cons) && Prepared(sys, kind) && Unmentioned(sys, kind, before)
    modifies uf
    ensures uf.Valid() && |uf.rep| == |uf.root| == |kind|
    ensures Preserved(sys, kind, System(|kind|, uf.root, cons'), nonptr)
    ensures exists nb, g, val, s, lab, own :: Worked(sys, kind, nb, g, val, s, lab, System(|kind|, uf.root, cons'), nonptr, keepSets, own)
    ensures keepSets ==>
      exists nb, g :: OfflineFor(sys, kind, nb, g) && forall i, j :: 0 <= i < |kind| && 0 <= j < |kind| ==> BySources(nb, g, uf.root, nonptr, i, j)
    ensures |nonptr| == |before| && (forall i :: 0 <= i < |before| && before[i] ==> nonptr[i]) && |cons'| <= |cons|
  {
    hide UnionFind.Encodes, Prepared, Numbered, GraphFor, O.Fits, LabelsRead, Q.AllLabelled, R.AllRuled, S.SetsExact, BySources, ReadsBack, KeepsLeast, RunsAgain, O.Reach,
      Isolated, MergedByLabel, RewrittenBy;
    var nb := MakeOffNodes(kind, uf);
    var g := AddOffEdges(cons, nb, sys, kind);
    ghost var sol, val := PickValues(sys, kind, nb, g);
    GraphSizes(sys, kind, nb, g);
    var l := new OfflineLabels.Labeller(keepSets, g, |kind|, val, OwnMeaning(sys.n));
    l.Run();
    NumbersLabelled(sys, kind, nb, g, val, l.S());
    var lab := ReadLabels(l, nb);
    ghost var s := l.S();
    LabelledReps(sys, kind, nb, g, val, s, lab);
    forall i | 0 <= i < |before| && before[i]
      ensures 0 in lab[i]
    {
      UnmentionedZero(sys, kind, nb, g, val, s, lab, keepSets, l.own, i);
    }
    nonptr := MergePtrEq(lab, uf, before);
    cons' := RewriteConstraints(cons, uf, nonptr);
    ghost var sys' := System(|kind|, uf.root, cons');
    ghost var own := l.own;
    assert Worked(sys, kind, nb, g, val, s, lab, sys', nonptr, keepSets, own);
    WorkedReadsBack(sys, kind, nb, g, val, s, lab, sys', nonptr, keepSets, own);
    WorkedKeepsLeast(sys, kind, nb, g, val, s, lab, sys', nonptr, keepSets, own, sol);
    if keepSets {
      WorkedBySources(sys, kind, nb, g, val, s, lab, sys', nonptr, own);
      assert OfflineFor(sys, kind, nb, g);
    }
  }
}
