/** Building the initial graph and worklist, and the solver's outer loop, as
    steps on the state value. */
module SolverInit {
  import opened Constraints
  import opened ConstraintGraph
  import opened GraphSteps
  import opened SolverState
  import opened LcdState
  import opened LcdSearch
  import Tarjan

  // Building the graph.

  /** The nodes after constraint `c`, with number `k` if it is a load or store,
      was entered. */
  function Entered(nodes: seq<Node>, c: Constraint, k: nat): (r: seq<Node>)
    requires c.dest < |nodes| && c.src < |nodes|
  {
    var d, o := nodes[c.dest], nodes[c.src];
    match c
    case AddrOf(i, x) => nodes[i := d.(pts := d.pts + {x})]
    case Copy(i, j) => nodes[j := o.(copyTo := o.copyTo + {i})]
    case Load(_, j) => nodes[j := o.(loadTo := o.loadTo + {k})]
    case Store(i, _) => nodes[i := d.(storeFrom := d.storeFrom + {k})]
  }

  ghost function EnteredGraph(g: Graph, c: Constraint): Graph
    requires c.dest < |g.nodes| && c.src < |g.nodes|
  {
    Graph(g.root, Entered(g.nodes, c, |g.cplx|), if c.Load? || c.Store? then g.cplx + [c] else g.cplx)
  }

  /** The first `k` constraints are in the graph; nothing was propagated. */
  ghost predicate Built(sys: System, g: Graph, k: nat) {
    && Shape(sys, g) && Sound(sys, g) && k <= |sys.cons| && g.root == sys.root
    && (forall i :: 0 <= i < |g.nodes| ==> g.nodes[i].prev == {} && g.nodes[i].vtime == 0)
    && (forall j :: 0 <= j < k ==> Entered1(sys, g, j))
  }

  ghost predicate Entered1(sys: System, g: Graph, j: nat)
    requires Shape(sys, g) && j < |sys.cons|
  {
    sys.cons[j] in sys.cons && Given(g, sys.cons[j])
  }

  lemma BuiltEmpty(sys: System, g: Graph)
    requires Legal(sys) && g == Graph(sys.root, seq(sys.n, i => BLANK), [])
    ensures Built(sys, g, 0)
  {
  }

  lemma EnterShape(sys: System, g: Graph, c: Constraint, i: nat)
    requires Shape(sys, g) && g.root == sys.root && c in sys.cons && i < sys.n
    ensures NodeShape(EnteredGraph(g, c), i)
  {
    var h := EnteredGraph(g, c);
    assert NodeShape(g, i);
    assert forall k, j :: LoadShape(g, k, j) ==> LoadShape(h, k, j);
    assert forall k, j :: StoreShape(g, k, j) ==> StoreShape(h, k, j);
  }

  lemma EnterSound(sys: System, g: Graph, c: Constraint, i: nat)
    requires Shape(sys, g) && Sound(sys, g) && c in sys.cons && i < sys.n
    ensures NodeSound(sys, EnteredGraph(g, c), i)
  {
    GivenIsImplied(sys, c);
    assert NodeSound(sys, g, i);
  }

  lemma EnterGiven(sys: System, g: Graph, c: Constraint, b: Constraint)
    requires Shape(sys, g) && g.root == sys.root && c in sys.cons && b in sys.cons && Shape(sys, EnteredGraph(g, c))
    requires Given(g, b)
    ensures Given(EnteredGraph(g, c), b)
  {
    var h := EnteredGraph(g, c);
    var d, o := g.root[b.dest], g.root[b.src];
    assert NodeShape(g, d) && NodeShape(g, o);
    match b
    case AddrOf(_, _) =>
    case Copy(_, _) => LinkedStays(g, h, o, d);
    case Load(_, _) =>
      var k :| k in g.nodes[o].loadTo && g.root[g.cplx[k].dest] == d;
      assert LoadShape(g, k, o) && k in h.nodes[o].loadTo;
    case Store(_, _) =>
      var k :| k in g.nodes[d].storeFrom && g.root[g.cplx[k].src] == o;
      assert StoreShape(g, k, d) && k in h.nodes[d].storeFrom;
  }

  lemma EnterGives(sys: System, g: Graph, c: Constraint)
    requires Shape(sys, g) && g.root == sys.root && c in sys.cons && Shape(sys, EnteredGraph(g, c))
    ensures Given(EnteredGraph(g, c), c)
  {
    var h := EnteredGraph(g, c);
    assert c.Copy? ==> c.dest in h.nodes[c.src].copyTo;
    assert c.Load? ==> |g.cplx| in h.nodes[c.src].loadTo && h.cplx[|g.cplx|] == c;
    assert c.Store? ==> |g.cplx| in h.nodes[c.dest].storeFrom && h.cplx[|g.cplx|] == c;
  }

  lemma EnterBuilds(sys: System, g: Graph, k: nat)
    requires Built(sys, g, k) && k < |sys.cons|
    ensures var c := sys.cons[k]; LegalConstraint(c, sys.n) && Built(sys, EnteredGraph(g, c), k + 1)
  {
    var c := sys.cons[k];
    assert c in sys.cons;
    GivenIsImplied(sys, c);
    var h := EnteredGraph(g, c);
    forall i | 0 <= i < sys.n
      ensures NodeShape(h, i) && NodeSound(sys, h, i)
    {
      EnterShape(sys, g, c, i);
      EnterSound(sys, g, c, i);
    }
    forall j | 0 <= j < k + 1
      ensures Entered1(sys, h, j)
    {
      if j < k {
        assert Entered1(sys, g, j);
        EnterGiven(sys, g, c, sys.cons[j]);
      } else {
        EnterGives(sys, g, c);
      }
    }
  }

  // The initial worklist.

  /** A node worth visiting: it points to something and has somewhere to go. */
  predicate Startable(m: Node) {
    m.pts != {} && (m.copyTo != {} || m.loadTo != {} || m.storeFrom != {})
  }

  /** The first `k` nodes are queued if they are worth visiting. */
  ghost predicate Started(sys: System, st: State, k: nat) {
    && Built(sys, View(st, 0, {}), |sys.cons|) && k <= |st.nodes|
    && st.now == map[] && (forall i :: i in st.later ==> i < |st.nodes|)
    && (forall i :: 0 <= i < k && st.root[i] == i && Startable(st.nodes[i]) ==> i in st.later)
  }

  lemma StartedOk(sys: System, st: State)
    requires Started(sys, st, |st.nodes|)
    ensures Ok(sys, st, 0, {}, {})
  {
    var g := View(st, 0, {});
    forall c | c in sys.cons
      ensures Given(g, c)
    {
      var j :| 0 <= j < |sys.cons| && sys.cons[j] == c;
      assert Entered1(sys, g, j);
    }
    forall i | 0 <= i < sys.n
      ensures NodeDone(g, i) && (i !in Queued(st) ==> NodeQuiet(g, i))
    {
      assert NodeShape(g, i);
      if i in st.later {
        assert Timely(st, i);
      }
    }
    forall i | 0 <= i < |st.root|
      ensures RefinesAt(sys, st.root, i)
    {
    }
  }

  // The outer loop.

  lemma SwapOk(sys: System, st: State)
    requires Ok(sys, st, 0, {}, {}) && st.now == map[]
    ensures Ok(sys, st.(now := st.later, later := map[]), 0, {}, {})
  {
  }

  /** Taking an entry off the list: its node has to be visited now, unless it
      was merged away or the entry is out of date. */
  lemma PopOk(sys: System, st: State, n: nat)
    requires Ok(sys, st, 0, {}, {}) && n in st.now
    ensures n < |st.nodes| == |st.root|
    ensures var st' := st.(now := st.now - {n});
            && Ok(sys, st', 0, {}, {n})
            && (st.root[n] != n || st.now[n] < st.nodes[n].vtime ==> Ok(sys, st', 0, {}, {}))
  {
    var st' := st.(now := st.now - {n});
    var g := View(st, 0, {});
    assert forall j :: 0 <= j < |st.nodes| && j != n ==> (Timely(st, j) <==> Timely(st', j));
    MoreLive(sys, g, Queued(st) + {} + {0}, Queued(st') + {n} + {0});
    if st.root[n] != n {
      assert NodeShape(g, n);
      assert NodeQuiet(g, n);
    } else if st.now[n] < st.nodes[n].vtime {
      assert Timely(st, n) ==> Timely(st', n);
      MoreLive(sys, g, Queued(st) + {} + {0}, Queued(st') + {} + {0});
    }
  }

  /** With both lists empty the points-to sets are the least solution. */
  lemma Converged(sys: System, st: State)
    requires Ok(sys, st, 0, {}, {}) && st.now == map[] && st.later == map[]
    ensures |st.root| == |st.nodes| && LegalPartition(st.root) && LeastSolution(sys, Result(View(st, 0, {})))
  {
    assert Queued(st) == {};
    ZeroIsQuiet(sys, View(st, 0, {}), Queued(st) + {} + {0});
    assert Queued(st) + {} + {0} - {0} == {};
    ResultIsLeast(sys, View(st, 0, {}));
  }

  /** Progress of the outer loop: fewer representatives, or else fewer unseen
      members, or else nothing new on the lists. */
  ghost predicate Less(st: State, st': State) {
    || Shrunk(st, st')
    || (Reps(st'.root) == Reps(st.root) && Unseen(st'.nodes) < Unseen(st.nodes))
  }

  // A pass of cycle detection.

  lemma LcdBegin(sys: System, st: State, roots: set<nat>)
    requires Ok(sys, st, 0, {}, {}) && roots == {}
    ensures LcdOk(sys, st.root, Tarjan.Search(seq(sys.n, i => 0), seq(sys.n, i => 0), {}, [], 1), roots)
  {
  }

  /** The first node of a search always closes its component. */
  lemma RootCloses(sys: System, st0: State, t0: Tarjan.Search, roots0: set<nat>, st: State, t: Tarjan.Search, roots: set<nat>, n: nat)
    requires Visited(sys, st0, t0, roots0, st, t, roots, n) && t0.path == {} && t0.stack == [] && 0 < t0.clock
    ensures t.stack == [] && LcdOk(sys, st.root, t, roots) && Shrunk(st0, st)
    ensures roots0 <= roots && n < |t.num| && t.num[n] > 0
  {
    if n in t.stack {
      var i := Tarjan.StackLeads(BelowRel(sys), t, n);
    }
  }

  lemma ShrunkTransitive(a: State, b: State, c: State)
    requires Shrunk(a, b) && Shrunk(b, c)
    ensures Shrunk(a, c)
  {
  }
}
