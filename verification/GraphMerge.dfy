/** Unifying two representatives that are equal in every solution. */
module GraphMerge {
  import opened Constraints
  import opened ConstraintGraph
  import opened GraphSteps
  import UnionFind

  /** The surviving node takes over everything; nothing of the union counts as
      handled, and it should be visited as early as the less recent of the two. */
  function Combined(m: Node, m': Node, parent: nat, child: nat): (r: Node)
    ensures r.pts - r.prev == m.pts + m'.pts && parent !in r.copyTo && child !in r.copyTo
    ensures r.vtime <= m.vtime && r.vtime <= m'.vtime && (r.vtime == m.vtime || r.vtime == m'.vtime)
  {
    Node(
      m.pts + m'.pts, {},
      m.copyTo + m'.copyTo - {parent, child},
      m.loadTo + m'.loadTo, m.storeFrom + m'.storeFrom,
      if m.vtime > m'.vtime then m'.vtime else m.vtime)
  }

  function MergeNodes(nodes: seq<Node>, parent: nat, child: nat): (r: seq<Node>)
    requires parent < |nodes| && child < |nodes|
  {
    nodes[parent := Combined(nodes[parent], nodes[child], parent, child)][child := BLANK.(vtime := nodes[child].vtime)]
  }

  ghost function Unify(g: Graph, parent: nat, child: nat): Graph
    requires parent < |g.nodes| && child < |g.nodes|
  {
    Graph(UnionFind.Relabel(g.root, child, parent), MergeNodes(g.nodes, parent, child), g.cplx)
  }

  /** Where a representative goes. */
  ghost function Moved(i: nat, parent: nat, child: nat): nat {
    if i == child then parent else i
  }

  ghost predicate Mergeable(sys: System, g: Graph, p: nat, c: nat) {
    Usable(g, p) && Usable(g, c) && p != c && Below(sys, p, c) && Below(sys, c, p)
  }

  lemma UnifyPartition(sys: System, g: Graph, p: nat, c: nat)
    requires Shape(sys, g) && Usable(g, p) && Usable(g, c) && p != c
    ensures LegalPartition(Unify(g, p, c).root)
    ensures forall i :: 0 <= i < sys.n ==> Unify(g, p, c).root[i] == Moved(g.root[i], p, c)
  {
  }

  lemma UnifyShape(sys: System, g: Graph, p: nat, c: nat, j: nat)
    requires Shape(sys, g) && Usable(g, p) && Usable(g, c) && p != c && j < sys.n
    ensures NodeShape(Unify(g, p, c), j)
  {
    var h := Unify(g, p, c);
    assert NodeShape(g, j) && NodeShape(g, p) && NodeShape(g, c);
    assert forall k, i :: LoadShape(g, k, i) ==> LoadShape(h, k, Moved(i, p, c));
    assert forall k, i :: StoreShape(g, k, i) ==> StoreShape(h, k, Moved(i, p, c));
  }

  lemma UnifySound(sys: System, g: Graph, p: nat, c: nat, j: nat)
    requires Shape(sys, g) && Sound(sys, g) && Mergeable(sys, g, p, c) && j < sys.n
    ensures NodeSound(sys, Unify(g, p, c), j)
  {
    var h := Unify(g, p, c);
    assert NodeSound(sys, g, j) && NodeSound(sys, g, c) && NodeShape(g, c);
    if j == p {
      forall x | x in g.nodes[c].pts
        ensures PointsTo(sys, p, x)
      {
        PointsToBelow(sys, c, p, x);
      }
      forall e | e in g.nodes[c].copyTo
        ensures Below(sys, p, e)
      {
        BelowTransitive(sys, p, c, e);
      }
    }
    if g.root[j] == c {
      BelowTransitive(sys, j, c, p);
      BelowTransitive(sys, p, c, j);
    }
  }

  lemma UnifyLinked(sys: System, g: Graph, p: nat, c: nat, a: nat, b: nat)
    requires Shape(sys, g) && Usable(g, p) && Usable(g, c) && p != c && a < sys.n && Linked(g, a, b)
    ensures Linked(Unify(g, p, c), Moved(a, p, c), Moved(b, p, c))
  {
    var h := Unify(g, p, c);
    if a != b {
      var e :| e in g.nodes[a].copyTo && e < |g.root| && g.root[e] == b;
      if e == p || e == c {
        if a != p && a != c {
          assert e in h.nodes[a].copyTo;
        }
      } else {
        assert e in h.nodes[Moved(a, p, c)].copyTo;
      }
    }
  }

  lemma UnifyGiven(sys: System, g: Graph, p: nat, c: nat, b: Constraint)
    requires Shape(sys, g) && Usable(g, p) && Usable(g, c) && p != c && Shape(sys, Unify(g, p, c))
    requires Mentions(b, sys.n) && Given(g, b)
    ensures Given(Unify(g, p, c), b)
  {
    var h := Unify(g, p, c);
    var d, o := g.root[b.dest], g.root[b.src];
    assert NodeShape(g, d) && NodeShape(g, o);
    match b
    case AddrOf(_, _) =>
    case Copy(_, _) => UnifyLinked(sys, g, p, c, o, d);
    case Load(_, _) =>
      var k :| k in g.nodes[o].loadTo && g.root[g.cplx[k].dest] == d;
      assert LoadShape(g, k, o) && k in h.nodes[Moved(o, p, c)].loadTo;
    case Store(_, _) =>
      var k :| k in g.nodes[d].storeFrom && g.root[g.cplx[k].src] == o;
      assert StoreShape(g, k, d) && k in h.nodes[Moved(d, p, c)].storeFrom;
  }

  lemma UnifyDone(sys: System, g: Graph, p: nat, c: nat, j: nat)
    requires Shape(sys, g) && Usable(g, p) && Usable(g, c) && p != c && Shape(sys, Unify(g, p, c))
    requires j < sys.n && NodeDone(g, j)
    ensures NodeDone(Unify(g, p, c), j)
  {
    var h := Unify(g, p, c);
    var m := h.nodes[j];
    assert NodeShape(g, j) && NodeShape(h, j);
    if j != p && j != c {
      forall e | e in m.copyTo
        ensures m.prev <= h.nodes[h.root[e]].pts
      {
        assert h.root[e] == Moved(g.root[e], p, c);
      }
      forall k, x | k in m.loadTo && x in m.prev && x != I2P
        ensures Linked(h, h.root[x], h.root[h.cplx[k].dest])
      {
        UnifyLinked(sys, g, p, c, g.root[x], g.root[g.cplx[k].dest]);
      }
      forall k, x | k in m.storeFrom && x in m.prev && x != I2P
        ensures Linked(h, h.root[h.cplx[k].src], h.root[x])
      {
        UnifyLinked(sys, g, p, c, g.root[g.cplx[k].src], g.root[x]);
      }
    }
  }

  /** Merging keeps the invariant, with the merged node to be visited. */
  lemma UnifyKeeps(sys: System, g: Graph, live: set<nat>, p: nat, c: nat)
    requires Inv(sys, g, live) && Mergeable(sys, g, p, c)
    ensures Inv(sys, Unify(g, p, c), live - {c} + {p})
    ensures Refines(sys, g.root) ==> Refines(sys, Unify(g, p, c).root)
  {
    var h := Unify(g, p, c);
    UnifyPartition(sys, g, p, c);
    forall j | 0 <= j < sys.n
      ensures NodeShape(h, j) && NodeSound(sys, h, j)
    {
      UnifyShape(sys, g, p, c, j);
      UnifySound(sys, g, p, c, j);
    }
    if Refines(sys, g.root) {
      forall i | 0 <= i < |h.root|
        ensures RefinesAt(sys, h.root, i)
      {
        assert RefinesAt(sys, g.root, i);
      }
    }
    forall b | b in sys.cons
      ensures Given(h, b)
    {
      UnifyGiven(sys, g, p, c, b);
    }
    forall j | 0 <= j < sys.n
      ensures NodeDone(h, j) && (j !in live - {c} + {p} ==> NodeQuiet(h, j))
    {
      UnifyDone(sys, g, p, c, j);
      if j !in live - {c} + {p} {
        UnifyQuiet(sys, g, p, c, live, j);
      }
    }
  }

  lemma UnifyQuiet(sys: System, g: Graph, p: nat, c: nat, live: set<nat>, j: nat)
    requires Shape(sys, g) && Complete(sys, g, live) && Usable(g, p) && Usable(g, c) && p != c
    requires Shape(sys, Unify(g, p, c)) && j < sys.n && j !in live - {c} + {p}
    ensures NodeQuiet(Unify(g, p, c), j)
  {
    var h := Unify(g, p, c);
    assert NodeShape(g, j) && NodeShape(h, j);
    if j != c {
      assert NodeQuiet(g, j);
      forall e | e in h.nodes[j].copyTo
        ensures g.nodes[g.root[e]].pts <= h.nodes[h.root[e]].pts
      {
        assert h.root[e] == Moved(g.root[e], p, c);
      }
    }
  }
}
