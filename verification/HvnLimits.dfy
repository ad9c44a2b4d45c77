/** Where value numbering loses something, and lists for which it does not. */
module HvnLimits {
  import opened Constraints
  import opened HvnGraph
  import opened HvnMeaning
  import opened HvnPass
  import opened LabelMerging
  import O = OfflineGraph
  import Q = OfflineSearch
  import R = OfflineRules
  import UnionFind

  /** Six nodes: none, i2p, an object and three values. */
  const KINDS: seq<Kind> := [NoNode, NoNode, NoNode, Val, Val, Val]
  const APART: seq<nat> := [0, 1, 2, 3, 4, 5]

  // A solution that cannot be read with all its targets.

  /** Nothing mentions node 4. */
  const LONE: System := System(6, APART, [AddrOf(3, 2), AddrOf(5, 2), Store(3, 5)])

  lemma EverythingFollows(sys: System)
    requires |sys.root| == sys.n && InNodes(sys.cons, sys.n) && forall i :: 0 <= i < sys.n ==> sys.root[i] < sys.n
    ensures Solution(sys, Everything(sys.n))
  {
  }

  /** When every node points to every node, a store writes to the marked one,
      which is read as empty. */
  lemma ReadingCanFail(nb: Numbering, g: O.Graph, val: seq<set<nat>>, s: O.Off, lab: seq<set<nat>>, sys': System, nonptr: seq<bool>,
    keep: bool, own: map<nat, nat>)
    requires Worked(LONE, KINDS, nb, g, val, s, lab, sys', nonptr, keep, own)
    ensures Solution(sys', Everything(6)) && |nonptr| == 6 && nonptr[4]
    ensures !Solution(LONE, PullBack(LONE, nonptr, Everything(6)))
  {
    hide Numbered, GraphFor, Q.AllLabelled, R.AllRuled, LabelsRead, RewrittenBy, MergedByLabel;
    WorkedLabels(LONE, KINDS, nb, g, val, s, lab, sys', nonptr, keep, own);
    MergedSizes(LONE.root, lab, sys'.root, nonptr);
    RewrittenInNodes(LONE, sys'.root, nonptr, sys'.cons);
    EverythingFollows(sys');
    UnmentionedZero(LONE, KINDS, nb, g, val, s, lab, keep, own, 4);
    assert LONE.cons[0] == AddrOf(3, 2) && LONE.cons[1] == AddrOf(5, 2) && LONE.cons[2] == Store(3, 5);
    var t := PullBack(LONE, nonptr, Everything(6));
    assert 4 in t[3] && 4 in t[5] && t[4] == {};
    assert !Satisfied(LONE.cons[2], t);
  }

  // A list that gets a larger least solution.

  /** Nodes 4 and 5 are stored through node 3 and loaded back; node 3 points
      nowhere. */
  const CYCLE: System := System(6, APART, [AddrOf(4, 2), Store(3, 4), Load(4, 3), Store(3, 5), Load(5, 3)])

  const CYCLE_LEAST: Assignment := [{}, {}, {}, {}, {2}, {}]

  lemma ApartLegal()
    ensures |APART| == 6 && LegalPartition(APART) && forall i :: 0 <= i < 6 ==> APART[i] == i
  {
  }

  lemma CyclePrepared()
    ensures Prepared(CYCLE, KINDS)
  {
    ApartLegal();
    hide LegalPartition;
    forall c | c in CYCLE.cons
      ensures LegalConstraint(c, 6) && APART[c.dest] == c.dest && APART[c.src] == c.src
      ensures (c.AddrOf? ==> KINDS[c.src] != Val) && (!c.AddrOf? ==> KINDS[c.src] != NoNode)
    {
      var k :| 0 <= k < 5 && CYCLE.cons[k] == c;
    }
  }

  lemma CycleLeast()
    ensures LeastSolution(CYCLE, CYCLE_LEAST)
  {
    var s := CYCLE_LEAST;
    assert InRange(s);
    forall c | c in CYCLE.cons
      ensures c.dest < |s| && c.src < |s| && Satisfied(c, s)
    {
    }
    forall t | Solution(CYCLE, t)
      ensures Included(s, t)
    {
      assert CYCLE.cons[0] == AddrOf(4, 2) && Satisfied(CYCLE.cons[0], t);
    }
  }

  /** Both lie on a cycle with what node 3 points to, so they are merged. */
  lemma CycleMerged(nb: Numbering, g: O.Graph, val: seq<set<nat>>, s: O.Off, lab: seq<set<nat>>, sys': System, nonptr: seq<bool>,
    keep: bool, own: map<nat, nat>)
    requires Worked(CYCLE, KINDS, nb, g, val, s, lab, sys', nonptr, keep, own)
    ensures |sys'.root| == 6 && sys'.root[4] == sys'.root[5]
  {
    WorkedLabels(CYCLE, KINDS, nb, g, val, s, lab, sys', nonptr, keep, own);
    hide RewrittenBy, O.Labelled, O.Placed, O.Reach;
    assert CYCLE.cons[0] == AddrOf(4, 2);
    assert 0 !in lab[4];
    CycleEdges(nb, g, 4);
    CycleEdges(nb, g, 5);
    var ref := nb.m2o[3] + nb.k;
    O.ReachTransitive(g, nb.m2o[4], ref, nb.m2o[5]);
    O.ReachTransitive(g, nb.m2o[5], ref, nb.m2o[4]);
    Q.ComponentsExact(g, val, s, nb.m2o[4], nb.m2o[5]);
    assert LabelReadAt(nb, s, lab, 4) && LabelReadAt(nb, s, lab, 5);
  }

  lemma CycleEdges(nb: Numbering, g: O.Graph, i: nat)
    requires (i == 4 || i == 5) && Numbered(CYCLE.root, KINDS, nb) && InNodes(CYCLE.cons, |nb.m2o|) && GraphFor(CYCLE.cons, nb, g)
    ensures 0 < nb.m2o[i] <= nb.k && 0 < nb.m2o[3] <= nb.k
    ensures O.Reach(g, nb.m2o[i], nb.m2o[3] + nb.k) && O.Reach(g, nb.m2o[3] + nb.k, nb.m2o[i])
  {
    assert NumberAt(CYCLE.root, KINDS, nb, i) && NumberAt(CYCLE.root, KINDS, nb, 3);
    var p, ref := nb.m2o[i], nb.m2o[3] + nb.k;
    var j := if i == 4 then 1 else 3;
    assert CYCLE.cons[j] == Store(3, i) && CYCLE.cons[j + 1] == Load(i, 3);
    hide Numbered, GraphFor, InNodes;
    OfflineEdge(CYCLE.cons, nb, g, Store(3, i), ref, p);
    OfflineEdge(CYCLE.cons, nb, g, Load(i, 3), p, ref);
  }

  /** Node 5, which points nowhere, does so no longer. */
  lemma MergingCanLose(nb: Numbering, g: O.Graph, val: seq<set<nat>>, s: O.Off, lab: seq<set<nat>>, sys': System, nonptr: seq<bool>,
    keep: bool, own: map<nat, nat>)
    requires Worked(CYCLE, KINDS, nb, g, val, s, lab, sys', nonptr, keep, own)
    ensures forall t :: Solution(sys', t) ==> |t| == 6 && 2 in t[5]
    ensures !LeastSolution(sys', CYCLE_LEAST)
  {
    hide Numbered, GraphFor, Q.AllLabelled, R.AllRuled, LabelsRead, MergedByLabel;
    CycleMerged(nb, g, val, s, lab, sys', nonptr, keep, own);
    WorkedLabels(CYCLE, KINDS, nb, g, val, s, lab, sys', nonptr, keep, own);
    MergedSizes(CYCLE.root, lab, sys'.root, nonptr);
    var c := CYCLE.cons[0];
    assert c == AddrOf(4, 2) && c in CYCLE.cons && Kept(c, sys'.root, nonptr);
    assert Rewrite(c, sys'.root) in sys'.cons;
    hide RewrittenBy;
    forall t | Solution(sys', t)
      ensures |t| == 6 && 2 in t[5]
    {
      assert Satisfied(Rewrite(c, sys'.root), t);
      assert t[5] == t[sys'.root[5]];
    }
    assert 2 !in CYCLE_LEAST[5];
  }

  /** The pass on that list. */
  method HvnOnCycle(keepSets: bool) returns (uf: UnionFind.Partition, cons': seq<Constraint>)
    ensures LeastSolution(CYCLE, CYCLE_LEAST)
    ensures |uf.root| == 6 && !LeastSolution(System(6, uf.root, cons'), CYCLE_LEAST)
    ensures forall t :: Solution(System(6, uf.root, cons'), t) ==> |t| == 6 && 2 in t[5]
  {
    hide UnionFind.Encodes, LeastSolution, Preserved, Worked;
    CycleLeast();
    CyclePrepared();
    uf := new UnionFind.Partition(6);
    assert uf.root == APART;
    var nonptr;
    nonptr, cons' := Hvn(KINDS, CYCLE.cons, uf, [false, false, false, false, false, false], keepSets, CYCLE);
    ghost var sys' := System(6, uf.root, cons');
    ghost var nb, g, val, s, lab, own :| Worked(CYCLE, KINDS, nb, g, val, s, lab, sys', nonptr, keepSets, own);
    MergingCanLose(nb, g, val, s, lab, sys', nonptr, keepSets, own);
  }

  // Lists that keep their least solution.

  /** The address of `x` is copied to node `d`. */
  ghost predicate Arrives(cons: seq<Constraint>, x: nat, d: nat) {
    exists a: nat :: AddrOf(a, x) in cons && CopyLeads(cons, a, d)
  }

  /** Every store goes through a pointer to which the address of an object
      other than i2p is copied. */
  ghost predicate Anchored(cons: seq<Constraint>) {
    forall c :: c in cons && c.Store? ==> exists x :: x != I2P && Arrives(cons, x, c.dest)
  }

  lemma {:induction false} PathCopies(sys: System, s: Assignment, p: seq<nat>)
    requires Solution(sys, s) && IsCopyChain(sys.cons, p) && p[0] < sys.n
    ensures p[|p| - 1] < sys.n && s[p[0]] <= s[p[|p| - 1]]
    decreases |p|
  {
    if |p| > 1 {
      var q := p[1..];
      assert forall i :: 0 <= i < |q| ==> q[i] == p[i + 1];
      assert CopyStep(sys.cons, p[0], p[0 + 1]) && Satisfied(Copy(p[1], p[0]), s);
      PathCopies(sys, s, q);
    }
  }

  /** The stores of such a list are grounded in every solution. */
  lemma AnchoredIsGrounded(sys: System, s: Assignment)
    requires Solution(sys, s) && InNodes(sys.cons, sys.n) && Anchored(sys.cons)
    ensures Grounded(sys, s)
  {
    forall c | c in sys.cons && c.Store?
      ensures GroundedAt(s, c)
    {
      var x :| x != I2P && Arrives(sys.cons, x, c.dest);
      var a: nat :| AddrOf(a, x) in sys.cons && CopyLeads(sys.cons, a, c.dest);
      var p :| IsCopyChain(sys.cons, p) && p[0] == a && p[|p| - 1] == c.dest;
      assert Satisfied(AddrOf(a, x), s);
      PathCopies(sys, s, p);
    }
  }
}
