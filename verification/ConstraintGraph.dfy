/** The graph the solver works on, what its state promises, and why each of the
    solver's small steps keeps the promises. */
module ConstraintGraph {
  import opened Constraints

  datatype Node = Node(
    /** What the node points to, and how much of it was already handled. */
    pts: set<nat>,
    prev: set<nat>,
    /** Targets of copy edges; loads from the node and stores through it. */
    copyTo: set<nat>,
    loadTo: set<nat>,
    storeFrom: set<nat>,
    /** When the node was last visited. */
    vtime: nat)

  const BLANK := Node({}, {}, {}, {}, {}, 0)

  /** A snapshot: the partition, the nodes, and the loads and stores that
      `loadTo` and `storeFrom` number. */
  datatype Graph = Graph(root: seq<nat>, nodes: seq<Node>, cplx: seq<Constraint>)

  // Shape.

  ghost predicate NodeShape(g: Graph, i: nat)
    requires |g.root| == |g.nodes| && i < |g.nodes|
  {
    var m := g.nodes[i];
    && m.prev <= m.pts
    && (forall x :: x in m.pts ==> 0 < x < |g.nodes|)
    && (forall e :: e in m.copyTo ==> 0 < e < |g.nodes| && e != I2P && e != i)
    && (forall k :: k in m.loadTo ==> LoadShape(g, k, i))
    && (forall k :: k in m.storeFrom ==> StoreShape(g, k, i))
    && (g.root[i] != i || i == 0 ==> m.pts == {} && m.copyTo == {} && m.loadTo == {} && m.storeFrom == {})
    && (i == I2P ==> m.copyTo == {} && m.loadTo == {} && m.storeFrom == {})
  }

  ghost predicate LoadShape(g: Graph, k: nat, i: nat)
    requires |g.root| == |g.nodes|
  {
    k < |g.cplx| && g.cplx[k].Load? && LegalConstraint(g.cplx[k], |g.nodes|) && g.root[g.cplx[k].src] == i
  }

  ghost predicate StoreShape(g: Graph, k: nat, i: nat)
    requires |g.root| == |g.nodes|
  {
    k < |g.cplx| && g.cplx[k].Store? && LegalConstraint(g.cplx[k], |g.nodes|) && g.root[g.cplx[k].dest] == i
  }

  ghost predicate Shape(sys: System, g: Graph) {
    && Legal(sys)
    && |g.root| == |g.nodes| == sys.n
    && LegalPartition(g.root)
    && (forall i :: 0 <= i < |g.nodes| ==> NodeShape(g, i))
  }

  // Precision: the graph says nothing that some solution does not.

  ghost predicate NodeSound(sys: System, g: Graph, i: nat)
    requires |g.root| == |g.nodes| && i < |g.nodes|
  {
    && (forall x :: x in g.nodes[i].pts ==> PointsTo(sys, i, x))
    && (forall e :: e in g.nodes[i].copyTo ==> Below(sys, i, e))
    && Below(sys, i, g.root[i]) && Below(sys, g.root[i], i)
  }

  ghost predicate Sound(sys: System, g: Graph) {
    && |g.root| == |g.nodes|
    && (forall i :: 0 <= i < |g.nodes| ==> NodeSound(sys, g, i))
    && (forall k :: 0 <= k < |g.cplx| ==> Implied(sys, g.cplx[k]))
  }

  // Progress: what is still missing is queued.

  ghost predicate HasEdge(g: Graph, a: nat, b: nat)
    requires |g.root| == |g.nodes| && a < |g.nodes|
  {
    exists e :: e in g.nodes[a].copyTo && e < |g.root| && g.root[e] == b
  }

  ghost predicate Linked(g: Graph, a: nat, b: nat)
    requires |g.root| == |g.nodes| && a < |g.nodes|
  {
    a == b || HasEdge(g, a, b)
  }

  /** A given constraint is represented in the graph. */
  ghost predicate Given(g: Graph, c: Constraint)
    requires |g.root| == |g.nodes| && Mentions(c, |g.nodes|) && LegalPartition(g.root)
    requires forall i :: 0 <= i < |g.nodes| ==> NodeShape(g, i)
  {
    var d, o := g.root[c.dest], g.root[c.src];
    assert NodeShape(g, d) && NodeShape(g, o);
    match c
    case AddrOf(_, x) => x in g.nodes[d].pts
    case Copy(_, _) => Linked(g, o, d)
    case Load(_, _) => exists k :: k in g.nodes[o].loadTo && g.root[g.cplx[k].dest] == d
    case Store(_, _) => exists k :: k in g.nodes[d].storeFrom && g.root[g.cplx[k].src] == o
  }

  /** What was handled at a node has reached its copy targets, and every load
      and store through it has its copy edge. */
  ghost predicate NodeDone(g: Graph, i: nat)
    requires |g.root| == |g.nodes| && i < |g.nodes| && LegalPartition(g.root) && NodeShape(g, i)
  {
    var m := g.nodes[i];
    && (forall e :: e in m.copyTo ==> m.prev <= g.nodes[g.root[e]].pts)
    && (forall k, x :: k in m.loadTo && x in m.prev && x != I2P ==> Linked(g, g.root[x], g.root[g.cplx[k].dest]))
    && (forall k, x :: k in m.storeFrom && x in m.prev && x != I2P ==> Linked(g, g.root[g.cplx[k].src], g.root[x]))
  }

  /** A visit to the node would change nothing. */
  ghost predicate NodeQuiet(g: Graph, i: nat)
    requires |g.root| == |g.nodes| && i < |g.nodes| && LegalPartition(g.root) && NodeShape(g, i)
  {
    var m := g.nodes[i];
    || m.pts == m.prev
    || (m.loadTo == {} && m.storeFrom == {} && forall e :: e in m.copyTo ==> m.pts <= g.nodes[g.root[e]].pts)
  }

  /** Every constraint is represented, and every node that a visit could change
      is in `live`. */
  ghost predicate Complete(sys: System, g: Graph, live: set<nat>)
    requires Shape(sys, g)
  {
    && (forall c :: c in sys.cons ==> Given(g, c))
    && (forall i :: 0 <= i < |g.nodes| ==> NodeDone(g, i))
    && (forall i :: 0 <= i < |g.nodes| && i !in live ==> NodeQuiet(g, i))
  }

  ghost predicate Inv(sys: System, g: Graph, live: set<nat>) {
    Shape(sys, g) && Sound(sys, g) && Complete(sys, g, live)
  }

  /** The points-to sets read through representatives. */
  ghost function Result(g: Graph): Assignment
    requires |g.root| == |g.nodes| && LegalPartition(g.root)
  {
    seq(|g.nodes|, i requires 0 <= i < |g.nodes| => g.nodes[g.root[i]].pts)
  }

  lemma EdgeCarries(sys: System, g: Graph, a: nat, b: nat)
    requires Shape(sys, g) && Complete(sys, g, {})
    requires a < |g.nodes| && b < |g.nodes| && Linked(g, a, b)
    ensures g.nodes[a].pts <= g.nodes[b].pts
  {
    assert NodeDone(g, a) && NodeQuiet(g, a);
  }

  lemma ResultSatisfies(sys: System, g: Graph, c: Constraint)
    requires Shape(sys, g) && Complete(sys, g, {}) && c in sys.cons && InRange(Result(g))
    ensures Satisfied(c, Result(g))
  {
    var s := Result(g);
    var d, o := g.root[c.dest], g.root[c.src];
    assert Given(g, c);
    match c
    case AddrOf(_, _) =>
    case Copy(_, _) =>
      EdgeCarries(sys, g, o, d);
    case Load(_, _) =>
      assert NodeDone(g, o) && NodeQuiet(g, o);
      forall x | x in s[c.src] && x != I2P
        ensures s[x] <= s[c.dest]
      {
        EdgeCarries(sys, g, g.root[x], d);
      }
    case Store(_, _) =>
      assert NodeDone(g, d) && NodeQuiet(g, d);
      forall x | x in s[c.dest] && x != I2P
        ensures s[c.src] <= s[x]
      {
        EdgeCarries(sys, g, o, g.root[x]);
      }
  }

  /** Nodes that were unified before the solver started stay unified. */
  ghost predicate Refines(sys: System, root: seq<nat>) {
    |sys.root| == |root| && forall i :: 0 <= i < |root| ==> RefinesAt(sys, root, i)
  }

  ghost predicate RefinesAt(sys: System, root: seq<nat>, i: nat)
    requires |sys.root| == |root| && i < |root|
  {
    sys.root[i] < |root| && root[i] == root[sys.root[i]]
  }

  /** With nothing left to visit, the result is the least solution. */
  lemma ResultIsLeast(sys: System, g: Graph)
    requires Inv(sys, g, {}) && Refines(sys, g.root)
    ensures LeastSolution(sys, Result(g))
  {
    var s := Result(g);
    forall i, x | 0 <= i < |s| && x in s[i]
      ensures x < |s|
    {
      assert NodeShape(g, g.root[i]);
    }
    forall c | c in sys.cons
      ensures Satisfied(c, s)
    {
      ResultSatisfies(sys, g, c);
    }
    forall i | 0 <= i < |s|
      ensures s[i] == s[sys.root[i]]
    {
      assert RefinesAt(sys, g.root, i);
    }
    forall t | Solution(sys, t)
      ensures Included(s, t)
    {
      forall i | 0 <= i < |s|
        ensures s[i] <= t[i]
      {
        assert NodeSound(sys, g, i) && NodeSound(sys, g, g.root[i]);
      }
    }
  }
}
