/** The solver's elementary steps on the constraint graph, each with the proof
    that it keeps the graph's promises. */
module GraphSteps {
  import opened Constraints
  import opened ConstraintGraph

  /** A node is a representative that may take part in copies. */
  ghost predicate Usable(g: Graph, i: nat) {
    0 < i < |g.root| && i != I2P && g.root[i] == i
  }

  lemma LinkedStays(g: Graph, h: Graph, a: nat, b: nat)
    requires |g.root| == |g.nodes| == |h.nodes| && g.root == h.root && a < |g.nodes|
    requires g.nodes[a].copyTo <= h.nodes[a].copyTo
    requires Linked(g, a, b)
    ensures Linked(h, a, b)
  {
  }

  lemma MoreLive(sys: System, g: Graph, live: set<nat>, live': set<nat>)
    requires Inv(sys, g, live) && live <= live'
    ensures Inv(sys, g, live')
  {
  }

  /** The new graph has at least the old points-to sets, edges and constraint
      entries; nothing was marked as handled. */
  ghost predicate Grows(g: Graph, h: Graph) {
    && |g.root| == |g.nodes| == |h.nodes| && h.root == g.root && h.cplx == g.cplx
    && forall i :: 0 <= i < |g.nodes| ==> NodeGrows(g.nodes[i], h.nodes[i])
  }

  ghost predicate NodeGrows(m: Node, m': Node) {
    && m.pts <= m'.pts && m.copyTo <= m'.copyTo
    && m'.prev == m.prev && m'.loadTo == m.loadTo && m'.storeFrom == m.storeFrom && m'.vtime == m.vtime
  }

  lemma GrowsGiven(sys: System, g: Graph, h: Graph, c: Constraint)
    requires Shape(sys, g) && Shape(sys, h) && Grows(g, h) && Mentions(c, sys.n) && Given(g, c)
    ensures Given(h, c)
  {
  }

  /** Growth keeps a node done if the new copy edges carry what was handled. */
  lemma GrowsDone(sys: System, g: Graph, h: Graph, i: nat)
    requires Shape(sys, g) && Shape(sys, h) && Grows(g, h) && i < sys.n && NodeDone(g, i)
    requires forall e :: e in h.nodes[i].copyTo - g.nodes[i].copyTo ==>
               e < sys.n && h.nodes[i].prev <= h.nodes[h.root[e]].pts
    ensures NodeDone(h, i)
  {
    var m, m' := g.nodes[i], h.nodes[i];
    assert NodeGrows(m, m') && NodeShape(g, i) && NodeShape(h, i);
    forall e | e in m'.copyTo
      ensures m'.prev <= h.nodes[h.root[e]].pts
    {
      if e in m.copyTo {
        assert NodeGrows(g.nodes[g.root[e]], h.nodes[g.root[e]]);
      }
    }
    forall k, x | k in m'.loadTo && x in m'.prev && x != I2P
      ensures Linked(h, h.root[x], h.root[h.cplx[k].dest])
    {
      assert NodeGrows(g.nodes[g.root[x]], h.nodes[g.root[x]]);
      LinkedStays(g, h, g.root[x], g.root[g.cplx[k].dest]);
    }
    forall k, x | k in m'.storeFrom && x in m'.prev && x != I2P
      ensures Linked(h, h.root[h.cplx[k].src], h.root[x])
    {
      var o := g.root[g.cplx[k].src];
      assert NodeGrows(g.nodes[o], h.nodes[o]);
      LinkedStays(g, h, o, g.root[x]);
    }
  }

  lemma GrowsComplete(sys: System, g: Graph, h: Graph, live: set<nat>)
    requires Shape(sys, g) && Shape(sys, h) && Grows(g, h) && Complete(sys, g, live)
    requires forall i, e :: 0 <= i < sys.n && e in h.nodes[i].copyTo - g.nodes[i].copyTo ==>
               e < sys.n && h.nodes[i].prev <= h.nodes[h.root[e]].pts
    requires forall i :: 0 <= i < sys.n && i !in live && NodeQuiet(g, i) ==> NodeQuiet(h, i)
    ensures Complete(sys, h, live)
  {
    forall c | c in sys.cons
      ensures Given(h, c)
    {
      GrowsGiven(sys, g, h, c);
    }
    forall i | 0 <= i < sys.n
      ensures NodeDone(h, i)
    {
      GrowsDone(sys, g, h, i);
    }
  }

  // Adding points-to members.

  ghost function AddPts(g: Graph, i: nat, xs: set<nat>): Graph
    requires i < |g.nodes|
  {
    g.(nodes := g.nodes[i := g.nodes[i].(pts := g.nodes[i].pts + xs)])
  }

  lemma AddPtsShape(sys: System, g: Graph, i: nat, xs: set<nat>)
    requires Shape(sys, g) && Sound(sys, g) && 0 < i < sys.n && g.root[i] == i
    requires forall x :: x in xs ==> 0 < x < sys.n && PointsTo(sys, i, x)
    ensures Shape(sys, AddPts(g, i, xs)) && Sound(sys, AddPts(g, i, xs)) && Grows(g, AddPts(g, i, xs))
  {
    var h := AddPts(g, i, xs);
    forall j | 0 <= j < sys.n
      ensures NodeShape(h, j) && NodeSound(sys, h, j) && NodeGrows(g.nodes[j], h.nodes[j])
    {
      assert NodeShape(g, j) && NodeSound(sys, g, j);
      assert forall k :: LoadShape(g, k, j) ==> LoadShape(h, k, j);
      assert forall k :: StoreShape(g, k, j) ==> StoreShape(h, k, j);
    }
  }

  lemma AddPtsKeeps(sys: System, g: Graph, live: set<nat>, i: nat, xs: set<nat>)
    requires Inv(sys, g, live) && 0 < i < sys.n && g.root[i] == i
    requires forall x :: x in xs ==> 0 < x < sys.n && PointsTo(sys, i, x)
    ensures Inv(sys, AddPts(g, i, xs), live + {i})
  {
    var h := AddPts(g, i, xs);
    AddPtsShape(sys, g, i, xs);
    MoreLive(sys, g, live, live + {i});
    forall j | 0 <= j < sys.n && j !in live + {i} && NodeQuiet(g, j)
      ensures NodeQuiet(h, j)
    {
      assert NodeShape(g, j);
    }
    GrowsComplete(sys, g, h, live + {i});
  }

  // Adding a copy edge along which everything already flowed.

  ghost function Connect(g: Graph, a: nat, b: nat): Graph
    requires a < |g.nodes|
  {
    g.(nodes := g.nodes[a := g.nodes[a].(copyTo := g.nodes[a].copyTo + {b})])
  }

  lemma ConnectShape(sys: System, g: Graph, a: nat, b: nat)
    requires Shape(sys, g) && Sound(sys, g) && Usable(g, a) && Usable(g, b) && a != b && Below(sys, a, b)
    ensures Shape(sys, Connect(g, a, b)) && Sound(sys, Connect(g, a, b)) && Grows(g, Connect(g, a, b))
  {
    var h := Connect(g, a, b);
    forall j | 0 <= j < sys.n
      ensures NodeShape(h, j) && NodeSound(sys, h, j) && NodeGrows(g.nodes[j], h.nodes[j])
    {
      assert NodeShape(g, j) && NodeSound(sys, g, j);
      assert forall k :: LoadShape(g, k, j) ==> LoadShape(h, k, j);
      assert forall k :: StoreShape(g, k, j) ==> StoreShape(h, k, j);
    }
  }

  lemma ConnectKeeps(sys: System, g: Graph, live: set<nat>, a: nat, b: nat)
    requires Inv(sys, g, live) && Usable(g, a) && Usable(g, b) && a != b
    requires g.nodes[a].pts <= g.nodes[b].pts && Below(sys, a, b)
    ensures Inv(sys, Connect(g, a, b), live) && HasEdge(Connect(g, a, b), a, b)
  {
    var h := Connect(g, a, b);
    ConnectShape(sys, g, a, b);
    assert NodeShape(g, a);
    assert b in h.nodes[a].copyTo;
    forall j | 0 <= j < sys.n && j !in live && NodeQuiet(g, j)
      ensures NodeQuiet(h, j)
    {
      assert NodeShape(g, j);
    }
    GrowsComplete(sys, g, h, live);
  }

  // Replacing copy edges by edges to representatives.

  /** The same classes are reached from `a`, apart from `a` itself. */
  ghost predicate SameTargets(g: Graph, a: nat, es: set<nat>)
    requires |g.root| == |g.nodes| && a < |g.nodes|
  {
    && (forall e :: e in es ==> 0 < e < |g.root| && e != I2P && e != a && HasEdge(g, a, g.root[e]))
    && (forall e :: e in g.nodes[a].copyTo && e < |g.root| ==>
          g.root[e] == a || exists f :: f in es && f < |g.root| && g.root[f] == g.root[e])
  }

  ghost function Rewire(g: Graph, a: nat, es: set<nat>): Graph
    requires a < |g.nodes|
  {
    g.(nodes := g.nodes[a := g.nodes[a].(copyTo := es)])
  }

  lemma RewireLinked(g: Graph, a: nat, es: set<nat>, x: nat, y: nat)
    requires |g.root| == |g.nodes| && a < |g.nodes| && x < |g.nodes| && SameTargets(g, a, es) && Linked(g, x, y)
    ensures Linked(Rewire(g, a, es), x, y)
  {
  }

  lemma RewireShape(sys: System, g: Graph, a: nat, es: set<nat>)
    requires Shape(sys, g) && Sound(sys, g) && Usable(g, a) && SameTargets(g, a, es)
    ensures Shape(sys, Rewire(g, a, es)) && Sound(sys, Rewire(g, a, es))
  {
    var h := Rewire(g, a, es);
    forall e | e in es
      ensures Below(sys, a, e)
    {
      var f :| f in g.nodes[a].copyTo && f < |g.root| && g.root[f] == g.root[e];
      assert NodeSound(sys, g, a) && NodeSound(sys, g, e) && NodeSound(sys, g, f);
      BelowTransitive(sys, a, f, g.root[e]);
      BelowTransitive(sys, a, g.root[e], e);
    }
    forall j | 0 <= j < sys.n
      ensures NodeShape(h, j) && NodeSound(sys, h, j)
    {
      assert NodeShape(g, j) && NodeSound(sys, g, j);
      assert forall k :: LoadShape(g, k, j) ==> LoadShape(h, k, j);
      assert forall k :: StoreShape(g, k, j) ==> StoreShape(h, k, j);
    }
  }

  /** Every edge after the change has the target of one before it. */
  lemma RewireOrigin(g: Graph, a: nat, es: set<nat>, j: nat, e: nat) returns (f: nat)
    requires |g.root| == |g.nodes| && a < |g.nodes| && j < |g.nodes| && SameTargets(g, a, es)
    requires e in Rewire(g, a, es).nodes[j].copyTo && e < |g.root|
    ensures f in g.nodes[j].copyTo && f < |g.root| && g.root[f] == g.root[e]
  {
    if j == a {
      assert HasEdge(g, a, g.root[e]);
      f :| f in g.nodes[a].copyTo && f < |g.root| && g.root[f] == g.root[e];
    } else {
      f := e;
    }
  }

  lemma RewireQuiet(sys: System, g: Graph, a: nat, es: set<nat>, j: nat)
    requires Shape(sys, g) && a < sys.n && Shape(sys, Rewire(g, a, es)) && SameTargets(g, a, es) && j < sys.n
    requires NodeQuiet(g, j)
    ensures NodeQuiet(Rewire(g, a, es), j)
  {
    var h := Rewire(g, a, es);
    assert NodeShape(g, j) && NodeShape(h, j);
    var m, m' := g.nodes[j], h.nodes[j];
    if m.pts != m.prev {
      forall e | e in m'.copyTo
        ensures m'.pts <= h.nodes[h.root[e]].pts
      {
        var f := RewireOrigin(g, a, es, j, e);
      }
    }
  }

  lemma RewireDone(sys: System, g: Graph, a: nat, es: set<nat>, j: nat)
    requires Shape(sys, g) && a < sys.n && Shape(sys, Rewire(g, a, es)) && SameTargets(g, a, es) && j < sys.n
    requires NodeDone(g, j)
    ensures NodeDone(Rewire(g, a, es), j)
  {
    var h := Rewire(g, a, es);
    assert NodeShape(g, j) && NodeShape(h, j);
    var m, m' := g.nodes[j], h.nodes[j];
    forall e | e in m'.copyTo
      ensures m'.prev <= h.nodes[h.root[e]].pts
    {
      var f := RewireOrigin(g, a, es, j, e);
    }
    forall k, x | k in m'.loadTo && x in m'.prev && x != I2P
      ensures Linked(h, h.root[x], h.root[h.cplx[k].dest])
    {
      RewireLinked(g, a, es, g.root[x], g.root[g.cplx[k].dest]);
    }
    forall k, x | k in m'.storeFrom && x in m'.prev && x != I2P
      ensures Linked(h, h.root[h.cplx[k].src], h.root[x])
    {
      RewireLinked(g, a, es, g.root[g.cplx[k].src], g.root[x]);
    }
  }

  lemma RewireKeeps(sys: System, g: Graph, live: set<nat>, a: nat, es: set<nat>)
    requires Inv(sys, g, live) && Usable(g, a) && SameTargets(g, a, es)
    ensures Inv(sys, Rewire(g, a, es), live)
  {
    var h := Rewire(g, a, es);
    RewireShape(sys, g, a, es);
    forall c | c in sys.cons
      ensures Given(h, c)
    {
      assert Given(g, c);
      if c.Copy? {
        RewireLinked(g, a, es, g.root[c.src], g.root[c.dest]);
      }
    }
    forall j | 0 <= j < sys.n
      ensures NodeDone(h, j) && (j !in live ==> NodeQuiet(h, j))
    {
      RewireDone(sys, g, a, es, j);
      if j !in live {
        RewireQuiet(sys, g, a, es, j);
      }
    }
  }

  // Rewriting a load or store to name representatives.

  ghost predicate SameConstraint(g: Graph, c: Constraint, c': Constraint)
    requires Mentions(c, |g.root|)
  {
    && LegalConstraint(c', |g.root|)
    && ((c.Load? && c'.Load?) || (c.Store? && c'.Store?))
    && g.root[c'.dest] == g.root[c.dest] && g.root[c'.src] == g.root[c.src]
  }

  ghost function Retarget(g: Graph, k: nat, c: Constraint): Graph
    requires k < |g.cplx|
  {
    g.(cplx := g.cplx[k := c])
  }

  lemma RetargetKeeps(sys: System, g: Graph, live: set<nat>, k: nat, c: Constraint)
    requires Inv(sys, g, live) && k < |g.cplx|
    requires Mentions(g.cplx[k], sys.n) && SameConstraint(g, g.cplx[k], c)
    ensures Inv(sys, Retarget(g, k, c), live)
  {
    var h := Retarget(g, k, c);
    RetargetImplied(sys, g, g.cplx[k], c);
    forall j | 0 <= j < sys.n
      ensures NodeShape(h, j) && NodeSound(sys, h, j)
    {
      assert NodeShape(g, j) && NodeSound(sys, g, j);
      assert forall k :: LoadShape(g, k, j) ==> LoadShape(h, k, j);
      assert forall k :: StoreShape(g, k, j) ==> StoreShape(h, k, j);
    }
    forall b | b in sys.cons
      ensures Given(h, b)
    {
      RetargetGiven(sys, g, k, c, b);
    }
    forall j | 0 <= j < sys.n
      ensures NodeDone(h, j) && (j !in live ==> NodeQuiet(h, j))
    {
      RetargetNode(sys, g, k, c, j);
    }
  }

  lemma RetargetImplied(sys: System, g: Graph, c: Constraint, c': Constraint)
    requires Shape(sys, g) && Sound(sys, g) && Mentions(c, sys.n) && SameConstraint(g, c, c') && Implied(sys, c)
    ensures Implied(sys, c')
  {
    assert NodeSound(sys, g, c.dest) && NodeSound(sys, g, c'.dest);
    assert NodeSound(sys, g, c.src) && NodeSound(sys, g, c'.src);
    BelowTransitive(sys, c.dest, g.root[c.dest], c'.dest);
    BelowTransitive(sys, c'.dest, g.root[c.dest], c.dest);
    BelowTransitive(sys, c.src, g.root[c.src], c'.src);
    BelowTransitive(sys, c'.src, g.root[c.src], c.src);
    ImpliedRewrite(sys, c, c'.dest, c'.src);
    assert c.(dest := c'.dest, src := c'.src) == c';
  }

  lemma RetargetGiven(sys: System, g: Graph, k: nat, c: Constraint, b: Constraint)
    requires Shape(sys, g) && k < |g.cplx| && Shape(sys, Retarget(g, k, c))
    requires Mentions(g.cplx[k], sys.n) && SameConstraint(g, g.cplx[k], c) && Mentions(b, sys.n) && Given(g, b)
    ensures Given(Retarget(g, k, c), b)
  {
    var h := Retarget(g, k, c);
    var d, o := g.root[b.dest], g.root[b.src];
    assert NodeShape(g, d) && NodeShape(g, o);
    match b
    case AddrOf(_, _) =>
    case Copy(_, _) => LinkedStays(g, h, o, d);
    case Load(_, _) =>
      var l :| l in g.nodes[o].loadTo && g.root[g.cplx[l].dest] == d;
      assert l in h.nodes[o].loadTo;
    case Store(_, _) =>
      var l :| l in g.nodes[d].storeFrom && g.root[g.cplx[l].src] == o;
      assert l in h.nodes[d].storeFrom;
  }

  lemma RetargetNode(sys: System, g: Graph, k: nat, c: Constraint, j: nat)
    requires Shape(sys, g) && k < |g.cplx| && Shape(sys, Retarget(g, k, c)) && j < sys.n
    requires Mentions(g.cplx[k], sys.n) && SameConstraint(g, g.cplx[k], c)
    ensures NodeDone(g, j) ==> NodeDone(Retarget(g, k, c), j)
    ensures NodeQuiet(g, j) ==> NodeQuiet(Retarget(g, k, c), j)
  {
    var h := Retarget(g, k, c);
    var m := g.nodes[j];
    assert NodeShape(g, j) && NodeShape(h, j);
    if NodeDone(g, j) {
      forall l, x | l in m.loadTo && x in m.prev && x != I2P
        ensures Linked(h, h.root[x], h.root[h.cplx[l].dest])
      {
        LinkedStays(g, h, g.root[x], g.root[g.cplx[l].dest]);
      }
      forall l, x | l in m.storeFrom && x in m.prev && x != I2P
        ensures Linked(h, h.root[h.cplx[l].src], h.root[x])
      {
        LinkedStays(g, h, g.root[g.cplx[l].src], g.root[x]);
      }
    }
  }

  // Dropping a load or store that another entry of the node repeats.

  ghost function Drop(g: Graph, i: nat, k: nat): Graph
    requires i < |g.nodes|
  {
    g.(nodes := g.nodes[i := g.nodes[i].(loadTo := g.nodes[i].loadTo - {k}, storeFrom := g.nodes[i].storeFrom - {k})])
  }

  /** Entry `k` of node `i` repeats entry `l`. */
  ghost predicate Repeats(g: Graph, i: nat, k: nat, l: nat)
    requires i < |g.nodes|
  {
    && k != l && k < |g.cplx| && l < |g.cplx| && g.cplx[k] == g.cplx[l]
    && ((k in g.nodes[i].loadTo && l in g.nodes[i].loadTo) || (k in g.nodes[i].storeFrom && l in g.nodes[i].storeFrom))
  }

  lemma DropKeeps(sys: System, g: Graph, live: set<nat>, i: nat, k: nat, l: nat)
    requires Inv(sys, g, live) && i < sys.n && Repeats(g, i, k, l)
    ensures Inv(sys, Drop(g, i, k), live)
  {
    var h := Drop(g, i, k);
    forall j | 0 <= j < sys.n
      ensures NodeShape(h, j) && NodeSound(sys, h, j)
    {
      assert NodeShape(g, j) && NodeSound(sys, g, j);
      assert forall k :: LoadShape(g, k, j) ==> LoadShape(h, k, j);
      assert forall k :: StoreShape(g, k, j) ==> StoreShape(h, k, j);
    }
    forall b | b in sys.cons
      ensures Given(h, b)
    {
      DropGiven(sys, g, i, k, l, b);
    }
    forall j | 0 <= j < sys.n
      ensures NodeDone(h, j) && (j !in live ==> NodeQuiet(h, j))
    {
      DropNode(sys, g, i, k, l, j);
    }
  }

  lemma DropGiven(sys: System, g: Graph, i: nat, k: nat, l: nat, b: Constraint)
    requires Shape(sys, g) && i < sys.n && Shape(sys, Drop(g, i, k)) && Repeats(g, i, k, l)
    requires Mentions(b, sys.n) && Given(g, b)
    ensures Given(Drop(g, i, k), b)
  {
    var h := Drop(g, i, k);
    var d, o := g.root[b.dest], g.root[b.src];
    assert NodeShape(g, d) && NodeShape(g, o) && NodeShape(g, i);
    match b
    case AddrOf(_, _) =>
    case Copy(_, _) => LinkedStays(g, h, o, d);
    case Load(_, _) =>
      var e :| e in g.nodes[o].loadTo && g.root[g.cplx[e].dest] == d;
      assert LoadShape(g, e, o);
      assert (if o == i && e == k then l else e) in h.nodes[o].loadTo;
    case Store(_, _) =>
      var e :| e in g.nodes[d].storeFrom && g.root[g.cplx[e].src] == o;
      assert StoreShape(g, e, d);
      assert (if d == i && e == k then l else e) in h.nodes[d].storeFrom;
  }

  lemma DropNode(sys: System, g: Graph, i: nat, k: nat, l: nat, j: nat)
    requires Shape(sys, g) && i < sys.n && Shape(sys, Drop(g, i, k)) && Repeats(g, i, k, l) && j < sys.n
    ensures NodeDone(g, j) ==> NodeDone(Drop(g, i, k), j)
    ensures NodeQuiet(g, j) ==> NodeQuiet(Drop(g, i, k), j)
  {
    var h := Drop(g, i, k);
    var m, m' := g.nodes[j], h.nodes[j];
    assert NodeShape(g, j) && NodeShape(h, j);
    if NodeDone(g, j) {
      forall e, x | e in m'.loadTo && x in m'.prev && x != I2P
        ensures Linked(h, h.root[x], h.root[h.cplx[e].dest])
      {
        LinkedStays(g, h, g.root[x], g.root[g.cplx[e].dest]);
      }
      forall e, x | e in m'.storeFrom && x in m'.prev && x != I2P
        ensures Linked(h, h.root[h.cplx[e].src], h.root[x])
      {
        LinkedStays(g, h, g.root[g.cplx[e].src], g.root[x]);
      }
    }
  }

  // Marking members as handled.

  /** Everything in `xs` was propagated from node `i`. */
  ghost predicate Handled(g: Graph, i: nat, xs: set<nat>)
    requires |g.root| == |g.nodes| && i < |g.nodes| && LegalPartition(g.root) && NodeShape(g, i)
  {
    var m := g.nodes[i];
    && xs <= m.pts
    && (forall e :: e in m.copyTo ==> xs <= g.nodes[g.root[e]].pts)
    && (forall k, x :: k in m.loadTo && x in xs && x != I2P ==> Linked(g, g.root[x], g.root[g.cplx[k].dest]))
    && (forall k, x :: k in m.storeFrom && x in xs && x != I2P ==> Linked(g, g.root[g.cplx[k].src], g.root[x]))
  }

  /** Two graphs that differ only in what is marked at node `i` and when nodes
      were visited have the same edges and constraints. */
  ghost predicate SameBut(g: Graph, h: Graph) {
    && |g.root| == |g.nodes| == |h.nodes| && h.root == g.root && h.cplx == g.cplx
    && forall j :: 0 <= j < |g.nodes| ==> SameNode(g.nodes[j], h.nodes[j])
  }

  ghost predicate SameNode(m: Node, m': Node) {
    m'.pts == m.pts && m'.copyTo == m.copyTo && m'.loadTo == m.loadTo && m'.storeFrom == m.storeFrom
  }

  lemma SameButDone(sys: System, g: Graph, h: Graph, j: nat)
    requires Shape(sys, g) && Shape(sys, h) && SameBut(g, h) && j < sys.n
    requires Handled(g, j, h.nodes[j].prev)
    ensures NodeDone(h, j)
  {
    var m, m' := g.nodes[j], h.nodes[j];
    assert SameNode(m, m') && NodeShape(g, j) && NodeShape(h, j);
    forall e | e in m'.copyTo
      ensures m'.prev <= h.nodes[h.root[e]].pts
    {
      assert SameNode(g.nodes[g.root[e]], h.nodes[g.root[e]]);
    }
    forall k, x | k in m'.loadTo && x in m'.prev && x != I2P
      ensures Linked(h, h.root[x], h.root[h.cplx[k].dest])
    {
      assert SameNode(g.nodes[g.root[x]], h.nodes[g.root[x]]);
      LinkedStays(g, h, g.root[x], g.root[g.cplx[k].dest]);
    }
    forall k, x | k in m'.storeFrom && x in m'.prev && x != I2P
      ensures Linked(h, h.root[h.cplx[k].src], h.root[x])
    {
      var o := g.root[g.cplx[k].src];
      assert SameNode(g.nodes[o], h.nodes[o]);
      LinkedStays(g, h, o, g.root[x]);
    }
  }

  lemma SameButShape(sys: System, g: Graph, h: Graph)
    requires Shape(sys, g) && Sound(sys, g) && SameBut(g, h)
    requires forall j :: 0 <= j < sys.n ==> h.nodes[j].prev <= h.nodes[j].pts
    ensures Shape(sys, h) && Sound(sys, h)
    ensures forall c :: c in sys.cons && Given(g, c) ==> Given(h, c)
  {
    forall j | 0 <= j < sys.n
      ensures NodeShape(h, j) && NodeSound(sys, h, j)
    {
      assert SameNode(g.nodes[j], h.nodes[j]) && NodeShape(g, j) && NodeSound(sys, g, j);
      assert forall k :: LoadShape(g, k, j) ==> LoadShape(h, k, j);
      assert forall k :: StoreShape(g, k, j) ==> StoreShape(h, k, j);
    }
    forall c | c in sys.cons && Given(g, c)
      ensures Given(h, c)
    {
      var d, o := g.root[c.dest], g.root[c.src];
      assert SameNode(g.nodes[d], h.nodes[d]) && SameNode(g.nodes[o], h.nodes[o]);
      if c.Copy? {
        LinkedStays(g, h, o, d);
      }
    }
  }

  /** Changing marks and visit times keeps the invariant if the marks are
      justified and every node that is no longer quiet is live. */
  lemma SameButKeeps(sys: System, g: Graph, live: set<nat>, h: Graph, live': set<nat>)
    requires Inv(sys, g, live) && SameBut(g, h)
    requires forall j :: 0 <= j < sys.n ==> Handled(g, j, h.nodes[j].prev)
    requires forall j :: 0 <= j < sys.n && j !in live' ==>
               h.nodes[j].prev == h.nodes[j].pts || (j !in live && h.nodes[j].prev == g.nodes[j].prev)
    ensures Inv(sys, h, live')
  {
    forall j | 0 <= j < sys.n
      ensures h.nodes[j].prev <= h.nodes[j].pts
    {
      assert SameNode(g.nodes[j], h.nodes[j]);
    }
    SameButShape(sys, g, h);
    forall j | 0 <= j < sys.n
      ensures NodeDone(h, j)
    {
      SameButDone(sys, g, h, j);
    }
    forall j | 0 <= j < sys.n && j !in live'
      ensures NodeQuiet(h, j)
    {
      SameButQuiet(sys, g, h, live, j);
    }
  }

  lemma SameButQuiet(sys: System, g: Graph, h: Graph, live: set<nat>, j: nat)
    requires Inv(sys, g, live) && Shape(sys, h) && SameBut(g, h) && j < sys.n
    requires h.nodes[j].prev == h.nodes[j].pts || (j !in live && h.nodes[j].prev == g.nodes[j].prev)
    ensures NodeQuiet(h, j)
  {
    assert NodeShape(g, j) && NodeShape(h, j) && SameNode(g.nodes[j], h.nodes[j]);
    if h.nodes[j].prev != h.nodes[j].pts {
      assert NodeQuiet(g, j);
      forall e | e in h.nodes[j].copyTo
        ensures h.nodes[j].pts <= h.nodes[h.root[e]].pts
      {
        assert SameNode(g.nodes[g.root[e]], h.nodes[g.root[e]]);
      }
    }
  }

  lemma ZeroIsQuiet(sys: System, g: Graph, live: set<nat>)
    requires Inv(sys, g, live)
    ensures Inv(sys, g, live - {0})
  {
    assert NodeShape(g, 0);
  }

  lemma DoneIsHandled(g: Graph, i: nat)
    requires |g.root| == |g.nodes| && i < |g.nodes| && LegalPartition(g.root) && NodeShape(g, i)
    ensures NodeDone(g, i) ==> Handled(g, i, g.nodes[i].prev)
  {
  }

  /** The end of a visit: node `n` was treated as unmarked throughout, and now
      gets the mark that its work has justified. */
  lemma FinishVisit(sys: System, g: Graph, h: Graph, n: nat, live: set<nat>)
    requires Inv(sys, g, live + {n}) && SameBut(g, h) && n < sys.n
    requires forall j :: 0 <= j < sys.n && j != n ==> h.nodes[j].prev == g.nodes[j].prev
    requires Handled(g, n, h.nodes[n].prev)
    requires h.nodes[n].prev == h.nodes[n].pts || n in live
    ensures Inv(sys, h, live)
  {
    forall j | 0 <= j < sys.n
      ensures Handled(g, j, h.nodes[j].prev)
    {
      assert NodeShape(g, j) && NodeDone(g, j);
      DoneIsHandled(g, j);
    }
    SameButKeeps(sys, g, live + {n}, h, live);
  }
}
