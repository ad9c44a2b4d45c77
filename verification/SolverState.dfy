/** The solver's state as a value: the constraint graph together with the
    worklist, and what holds of them before, during and after a visit. */
module SolverState {
  import opened Constraints
  import opened ConstraintGraph
  import opened GraphSteps

  datatype State = State(
    root: seq<nat>,
    nodes: seq<Node>,
    cplx: seq<Constraint>,
    /** The queued nodes of the current and the next pass, with priorities. */
    now: map<nat, nat>,
    later: map<nat, nat>)

  /** The graph with the mark of node `v` set back to `p` while it is being
      visited; `v` is 0 between visits. */
  ghost function View(st: State, v: nat, p: set<nat>): Graph {
    Graph(st.root, if 0 < v < |st.nodes| then st.nodes[v := st.nodes[v].(prev := p)] else st.nodes, st.cplx)
  }

  /** The entry of node `i` will not be skipped as out of date. */
  ghost predicate Timely(st: State, i: nat)
    requires i < |st.nodes|
  {
    || (i in st.now && st.nodes[i].vtime <= st.now[i])
    || (i in st.later && st.nodes[i].vtime <= st.later[i])
  }

  ghost function Queued(st: State): set<nat> {
    set i | 0 <= i < |st.nodes| && Timely(st, i)
  }

  /** Between visits (`v` = 0) or during a visit to `v`, everything that a
      visit could change is queued at a priority no less than its visit time,
      or about to be queued (`pending`). */
  ghost predicate Ok(sys: System, st: State, v: nat, p: set<nat>, pending: set<nat>) {
    && v < |st.nodes|
    && Inv(sys, View(st, v, p), Queued(st) + pending + {v})
    && Refines(sys, st.root)
    && (forall i :: i in st.now || i in st.later ==> i < |st.nodes|)
    && (v != 0 ==> st.nodes[v].pts == st.nodes[v].prev || v in Queued(st) + pending)
  }

  lemma OkFacts(sys: System, st: State, v: nat, p: set<nat>, pending: set<nat>)
    requires Ok(sys, st, v, p, pending)
    ensures v < |st.nodes| == |st.root| == sys.n && LegalPartition(st.root)
  {
  }

  // Queueing.

  ghost function Pushed(st: State, i: nat): State
    requires i < |st.nodes|
  {
    st.(later := st.later[i := st.nodes[i].vtime])
  }

  lemma PushOk(sys: System, st: State, v: nat, p: set<nat>, pending: set<nat>, i: nat)
    requires Ok(sys, st, v, p, pending) && i < |st.nodes|
    ensures Ok(sys, Pushed(st, i), v, p, pending - {i})
    ensures i in Queued(Pushed(st, i))
  {
    var st' := Pushed(st, i);
    assert forall j :: 0 <= j < |st.nodes| && Timely(st, j) ==> Timely(st', j);
    assert Timely(st', i);
    MoreLive(sys, View(st, v, p), Queued(st) + pending + {v}, Queued(st') + (pending - {i}) + {v});
  }

  // Copy edges.

  /** The nodes after a copy edge was added and everything flowed along it. */
  function WithEdge(nodes: seq<Node>, src: nat, dest: nat): (r: seq<Node>)
    requires src < |nodes| && dest < |nodes|
  {
    var grown := nodes[dest := nodes[dest].(pts := nodes[dest].pts + nodes[src].pts)];
    grown[src := grown[src].(copyTo := grown[src].copyTo + {dest})]
  }

  /** The two steps of a new copy edge together. */
  lemma EdgeFlows(sys: System, g: Graph, live: set<nat>, src: nat, dest: nat)
    requires Inv(sys, g, live) && Usable(g, src) && Usable(g, dest) && src != dest && Below(sys, src, dest)
    ensures var h := Connect(AddPts(g, dest, g.nodes[src].pts), src, dest);
            && Inv(sys, h, if g.nodes[src].pts <= g.nodes[dest].pts then live else live + {dest})
            && HasEdge(h, src, dest) && Grows(g, h)
  {
    var xs := g.nodes[src].pts;
    assert NodeShape(g, src) && NodeSound(sys, g, src);
    forall x | x in xs
      ensures 0 < x < sys.n && PointsTo(sys, dest, x)
    {
      PointsToBelow(sys, src, dest, x);
    }
    var m := AddPts(g, dest, xs);
    if xs <= g.nodes[dest].pts {
      assert g.nodes[dest].pts + xs == g.nodes[dest].pts;
      assert m.nodes == g.nodes;
      ConnectKeeps(sys, g, live, src, dest);
    } else {
      AddPtsKeeps(sys, g, live, dest, xs);
      ConnectKeeps(sys, m, live + {dest}, src, dest);
    }
  }

  lemma EdgeOk(sys: System, st: State, v: nat, p: set<nat>, pending: set<nat>, src: nat, dest: nat, pending': set<nat>)
    requires Ok(sys, st, v, p, pending)
    requires Usable(View(st, v, p), src) && Usable(View(st, v, p), dest) && src != dest && Below(sys, src, dest)
    requires src < |st.nodes| && dest < |st.nodes|
    requires pending' == if st.nodes[src].pts <= st.nodes[dest].pts then pending else pending + {dest}
    ensures var st' := st.(nodes := WithEdge(st.nodes, src, dest));
            && Ok(sys, st', v, p, pending') && Queued(st') == Queued(st)
            && Grows(View(st, v, p), View(st', v, p)) && HasEdge(View(st', v, p), src, dest)
  {
    hide Inv, Refines, HasEdge, Grows;
    var st' := st.(nodes := WithEdge(st.nodes, src, dest));
    var g := View(st, v, p);
    assert Queued(st') == Queued(st) by {
      assert forall j :: 0 <= j < |st.nodes| ==> (Timely(st, j) <==> Timely(st', j));
    }
    EdgeFlows(sys, g, Queued(st) + pending + {v}, src, dest);
    assert View(st', v, p) == Connect(AddPts(g, dest, g.nodes[src].pts), src, dest);
    assert Queued(st') + pending' + {v} ==
      if g.nodes[src].pts <= g.nodes[dest].pts then Queued(st) + pending + {v} else Queued(st) + pending + {v} + {dest};
    assert st.nodes[src].pts <= st.nodes[dest].pts ==> st.nodes[dest].pts + st.nodes[src].pts == st.nodes[dest].pts;
  }

  // What a visit has achieved so far.

  /** Constraint `c` has its copy edges for every member of `xs`. */
  ghost predicate Served(g: Graph, c: Constraint, xs: set<nat>) {
    && |g.root| == |g.nodes| && Mentions(c, |g.root|) && LegalPartition(g.root)
    && forall x :: x in xs && x != I2P ==>
         && x < |g.root|
         && (c.Load? ==> Linked(g, g.root[x], g.root[c.dest]))
         && (c.Store? ==> Linked(g, g.root[c.src], g.root[x]))
  }

  /** Sets and edges only grow, and constraints stay the same up to
      representatives. */
  ghost predicate Evolves(g: Graph, h: Graph) {
    && |g.root| == |g.nodes| == |h.nodes| && h.root == g.root && |h.cplx| == |g.cplx|
    && (forall i :: 0 <= i < |g.nodes| ==>
          g.nodes[i].pts <= h.nodes[i].pts && g.nodes[i].copyTo <= h.nodes[i].copyTo && g.nodes[i].prev == h.nodes[i].prev)
    && (forall k :: 0 <= k < |g.cplx| && Mentions(g.cplx[k], |g.root|) ==> SameEnds(g, g.cplx[k], h.cplx[k]))
  }

  ghost predicate SameEnds(g: Graph, c: Constraint, c': Constraint)
    requires Mentions(c, |g.root|)
  {
    && Mentions(c', |g.root|) && g.root[c'.dest] == g.root[c.dest] && g.root[c'.src] == g.root[c.src]
    && (c.Load? <==> c'.Load?) && (c.Store? <==> c'.Store?)
  }

  lemma GrowsEvolves(g: Graph, h: Graph)
    requires Grows(g, h)
    ensures Evolves(g, h)
  {
    assert forall i :: 0 <= i < |g.nodes| ==> NodeGrows(g.nodes[i], h.nodes[i]);
  }

  lemma EvolvesTransitive(f: Graph, g: Graph, h: Graph)
    requires Evolves(f, g) && Evolves(g, h)
    ensures Evolves(f, h)
  {
    assert forall k :: 0 <= k < |f.cplx| && Mentions(f.cplx[k], |f.root|) ==> SameEnds(f, f.cplx[k], g.cplx[k]);
  }

  /** The members `ds` have arrived at the class of `e`. */
  ghost predicate Reached(st: State, e: nat, ds: set<nat>) {
    e < |st.root| && st.root[e] < |st.nodes| && ds <= st.nodes[st.root[e]].pts
  }

  lemma ReachedStays(st: State, st': State, v: nat, p: set<nat>, es: set<nat>, ds: set<nat>)
    requires Evolves(View(st, v, p), View(st', v, p)) && forall e :: e in es ==> Reached(st, e, ds)
    ensures forall e :: e in es ==> Reached(st', e, ds)
  {
    var g, h := View(st, v, p), View(st', v, p);
    assert forall i :: 0 <= i < |g.nodes| ==> g.nodes[i].pts == st.nodes[i].pts && h.nodes[i].pts == st'.nodes[i].pts;
  }

  lemma EvolvesSelf(g: Graph)
    requires |g.root| == |g.nodes|
    ensures Evolves(g, g)
  {
  }

  /** A class that was reached, or holds the members anyway, need not be
      visited again through another edge. */
  lemma ReachedVia(st: State, e: nat, done: set<nat>, n: nat, ds: set<nat>)
    requires forall f :: f in done ==> Reached(st, f, ds)
    requires n < |st.nodes| && ds <= st.nodes[n].pts && e < |st.root|
    requires Reached(st, e, ds) || st.root[e] == n || exists f :: f in done && f < |st.root| && st.root[f] == st.root[e]
    ensures Reached(st, e, ds)
  {
  }

  lemma ServedStays(g: Graph, h: Graph, c: Constraint, c': Constraint, xs: set<nat>)
    requires Evolves(g, h) && Served(g, c, xs) && SameEnds(g, c, c')
    ensures Served(h, c', xs)
  {
    forall x | x in xs && x != I2P
      ensures c.Load? ==> Linked(h, h.root[x], h.root[c'.dest])
      ensures c.Store? ==> Linked(h, h.root[c'.src], h.root[x])
    {
      if c.Load? {
        LinkedStays(g, h, g.root[x], g.root[c.dest]);
      }
      if c.Store? {
        LinkedStays(g, h, g.root[c.src], g.root[x]);
      }
    }
  }

  lemma StillServed(g: Graph, h: Graph, ks: set<nat>, xs: set<nat>)
    requires Evolves(g, h) && forall k :: k in ks ==> k < |g.cplx| && Served(g, g.cplx[k], xs)
    ensures forall k :: k in ks ==> Served(h, h.cplx[k], xs)
  {
    forall k | k in ks
      ensures Served(h, h.cplx[k], xs)
    {
      ServedStays(g, h, g.cplx[k], h.cplx[k], xs);
    }
  }

  lemma GrowsTransitive(f: Graph, g: Graph, h: Graph)
    requires Grows(f, g) && Grows(g, h)
    ensures Grows(f, h)
  {
    assert forall i :: 0 <= i < |f.nodes| ==> NodeGrows(f.nodes[i], g.nodes[i]) && NodeGrows(g.nodes[i], h.nodes[i]);
  }

  lemma ServedNone(g: Graph, c: Constraint)
    requires |g.root| == |g.nodes| && Mentions(c, |g.root|) && LegalPartition(g.root)
    ensures Served(g, c, {})
  {
  }

  /** One more member served by a new edge. */
  lemma ServedMore(g: Graph, h: Graph, c: Constraint, xs: set<nat>, x: nat)
    requires Grows(g, h) && Served(g, c, xs) && x < |g.root|
    requires x != I2P && c.Load? ==> Linked(h, h.root[x], h.root[c.dest])
    requires x != I2P && c.Store? ==> h.root[c.src] < |h.nodes| && Linked(h, h.root[c.src], h.root[x])
    ensures Served(h, c, xs + {x})
  {
    GrowsEvolves(g, h);
    ServedStays(g, h, c, c, xs);
  }

  /** Why a copy edge for member `x` of the base of `c` holds in every
      solution, read through representatives. */
  lemma EdgeJustified(sys: System, g: Graph, live: set<nat>, k: nat, x: nat)
    requires Inv(sys, g, live) && k < |g.cplx| && Mentions(g.cplx[k], sys.n) && x < sys.n
    requires g.cplx[k].Load? || g.cplx[k].Store?
    requires g.cplx[k].Load? ==> x in g.nodes[g.root[g.cplx[k].src]].pts
    requires g.cplx[k].Store? ==> x in g.nodes[g.root[g.cplx[k].dest]].pts
    ensures 0 < x && (g.root[x] == I2P <==> x == I2P) && 0 < g.root[x] < sys.n && g.root[g.root[x]] == g.root[x]
    ensures x != I2P && g.cplx[k].Load? ==> Below(sys, g.root[x], g.root[g.cplx[k].dest])
    ensures x != I2P && g.cplx[k].Store? ==> Below(sys, g.root[g.cplx[k].src], g.root[x])
  {
    var c := g.cplx[k];
    assert NodeSound(sys, g, x) && NodeSound(sys, g, c.dest) && NodeSound(sys, g, c.src);
    assert Implied(sys, c);
    if c.Load? {
      var o := g.root[c.src];
      assert NodeShape(g, o) && NodeSound(sys, g, o);
      PointsToBelow(sys, o, c.src, x);
      if x != I2P {
        LoadIsCopy(sys, c, x);
        BelowTransitive(sys, g.root[x], x, c.dest);
        BelowTransitive(sys, g.root[x], c.dest, g.root[c.dest]);
      }
    } else {
      var d := g.root[c.dest];
      assert NodeShape(g, d) && NodeSound(sys, g, d);
      PointsToBelow(sys, d, c.dest, x);
      if x != I2P {
        StoreIsCopy(sys, c, x);
        BelowTransitive(sys, c.src, x, g.root[x]);
        BelowTransitive(sys, g.root[c.src], c.src, g.root[x]);
      }
    }
  }

  /** The same for a constraint of the node being visited, whose ends are
      representatives. */
  lemma MemberJustified(sys: System, st: State, v: nat, p: set<nat>, pending: set<nat>, k: nat, x: nat)
    requires Ok(sys, st, v, p, pending) && x in st.nodes[v].pts
    requires k < |st.cplx| && Mentions(st.cplx[k], |st.nodes|) && (st.cplx[k].Load? || st.cplx[k].Store?)
    requires |st.root| == |st.nodes|
    requires st.root[st.cplx[k].dest] == st.cplx[k].dest && st.root[st.cplx[k].src] == st.cplx[k].src
    requires v == if st.cplx[k].Load? then st.cplx[k].src else st.cplx[k].dest
    ensures 0 < x < |st.root| && (st.root[x] == I2P <==> x == I2P)
    ensures 0 < st.root[x] < |st.root| && st.root[st.root[x]] == st.root[x]
    ensures x != I2P && st.cplx[k].Load? ==> Below(sys, st.root[x], st.cplx[k].dest)
    ensures x != I2P && st.cplx[k].Store? ==> Below(sys, st.cplx[k].src, st.root[x])
  {
    var g := View(st, v, p);
    assert NodeShape(g, v);
    EdgeJustified(sys, g, Queued(st) + pending + {v}, k, x);
  }

  // Rewriting and dropping constraints during a visit.

  /** What is known of a constraint of the node being visited, and of the same
      constraint with its ends renamed to representatives. */
  lemma EntryShape(sys: System, st: State, v: nat, p: set<nat>, pending: set<nat>, k: nat)
    requires Ok(sys, st, v, p, pending) && k in st.nodes[v].loadTo + st.nodes[v].storeFrom
    ensures |st.root| == |st.nodes| == sys.n && LegalPartition(st.root)
    ensures k < |st.cplx| && LegalConstraint(st.cplx[k], |st.root|)
    ensures k in st.nodes[v].loadTo <==> st.cplx[k].Load?
    ensures k in st.nodes[v].storeFrom <==> st.cplx[k].Store?
    ensures v == st.root[if st.cplx[k].Load? then st.cplx[k].src else st.cplx[k].dest]
    ensures SameConstraint(View(st, v, p), st.cplx[k],
                           st.cplx[k].(dest := st.root[st.cplx[k].dest], src := st.root[st.cplx[k].src]))
  {
    var g := View(st, v, p);
    assert NodeShape(g, v);
    if k in st.nodes[v].loadTo {
      assert LoadShape(g, k, v);
    } else {
      assert StoreShape(g, k, v);
    }
  }

  lemma RetargetOk(sys: System, st: State, v: nat, p: set<nat>, pending: set<nat>, k: nat, c: Constraint)
    requires Ok(sys, st, v, p, pending) && k < |st.cplx|
    requires Mentions(st.cplx[k], |st.root|) && SameConstraint(View(st, v, p), st.cplx[k], c)
    ensures var st' := st.(cplx := st.cplx[k := c]);
            && Ok(sys, st', v, p, pending) && Queued(st') == Queued(st)
            && Evolves(View(st, v, p), View(st', v, p))
  {
    OkFacts(sys, st, v, p, pending);
    hide Inv, Refines;
    var st' := st.(cplx := st.cplx[k := c]);
    assert Queued(st') == Queued(st) by {
      assert forall j :: 0 <= j < |st.nodes| ==> (Timely(st, j) <==> Timely(st', j));
    }
    RetargetKeeps(sys, View(st, v, p), Queued(st) + pending + {v}, k, c);
    assert View(st', v, p) == Retarget(View(st, v, p), k, c);
  }

  /** The nodes after entry `k` of node `i` was deleted. */
  function Without(nodes: seq<Node>, i: nat, k: nat): (r: seq<Node>)
    requires i < |nodes|
  {
    nodes[i := nodes[i].(loadTo := nodes[i].loadTo - {k}, storeFrom := nodes[i].storeFrom - {k})]
  }

  lemma DropOk(sys: System, st: State, v: nat, p: set<nat>, pending: set<nat>, k: nat, l: nat)
    requires Ok(sys, st, v, p, pending) && Repeats(View(st, v, p), v, k, l)
    ensures var st' := st.(nodes := Without(st.nodes, v, k));
            && Ok(sys, st', v, p, pending) && Queued(st') == Queued(st)
            && Evolves(View(st, v, p), View(st', v, p))
  {
    OkFacts(sys, st, v, p, pending);
    hide Inv, Refines;
    var st' := st.(nodes := Without(st.nodes, v, k));
    assert Queued(st') == Queued(st) by {
      assert forall j :: 0 <= j < |st.nodes| ==> (Timely(st, j) <==> Timely(st', j));
    }
    DropKeeps(sys, View(st, v, p), Queued(st) + pending + {v}, v, k, l);
    assert View(st', v, p) == Drop(View(st, v, p), v, k);
  }

  // The loads or stores of the node being visited, one after the other.

  function Entries(m: Node, load: bool): (r: set<nat>) {
    if load then m.loadTo else m.storeFrom
  }

  /** All entries outside `todo` are served, and every constraint handled in
      this visit is still listed among them. */
  ghost predicate Progress(st: State, v: nat, p: set<nat>, ds: set<nat>, load: bool, seen: set<Constraint>, todo: set<nat>) {
    && v < |st.nodes| && todo <= Entries(st.nodes[v], load) && ds <= st.nodes[v].pts
    && (forall k :: k in Entries(st.nodes[v], load) - todo ==> k < |st.cplx| && Served(View(st, v, p), st.cplx[k], ds))
    && (forall c :: c in seen ==> Listed(st, Entries(st.nodes[v], load) - todo, c))
  }

  ghost predicate Listed(st: State, ks: set<nat>, c: Constraint) {
    exists l :: l in ks && l < |st.cplx| && st.cplx[l] == c
  }

  /** An entry that was served is done. */
  lemma ProgressServed(st: State, st': State, v: nat, p: set<nat>, ds: set<nat>, load: bool, seen: set<Constraint>, todo: set<nat>, k: nat)
    requires Progress(st, v, p, ds, load, seen, todo) && k in todo
    requires Evolves(View(st, v, p), View(st', v, p))
    requires Entries(st'.nodes[v], load) == Entries(st.nodes[v], load)
    requires k < |st'.cplx| == |st.cplx| && forall l :: 0 <= l < |st.cplx| && l != k ==> st'.cplx[l] == st.cplx[l]
    requires Served(View(st', v, p), st'.cplx[k], ds)
    ensures Progress(st', v, p, ds, load, seen + {st'.cplx[k]}, todo - {k})
  {
    hide Served;
    var done := Entries(st.nodes[v], load) - todo;
    assert Entries(st'.nodes[v], load) - (todo - {k}) == done + {k};
    StillServed(View(st, v, p), View(st', v, p), done, ds);
    assert View(st, v, p).nodes[v].pts <= View(st', v, p).nodes[v].pts;
    assert ds <= st'.nodes[v].pts;
    assert forall l :: l in done + {k} ==> l < |st'.cplx| && Served(View(st', v, p), st'.cplx[l], ds);
    forall c | c in seen + {st'.cplx[k]}
      ensures Listed(st', done + {k}, c)
    {
      if c == st'.cplx[k] {
        assert k in done + {k};
      } else {
        var l :| l in done && l < |st.cplx| && st.cplx[l] == c;
        assert l in done + {k} && st'.cplx[l] == c;
      }
    }
  }

  /** An entry that repeats a handled constraint is deleted. */
  lemma ProgressDropped(sys: System, st: State, st': State, v: nat, p: set<nat>, ds: set<nat>, load: bool, seen: set<Constraint>, todo: set<nat>, k: nat)
      returns (l: nat)
    requires Progress(st, v, p, ds, load, seen, todo) && k in todo
    requires Evolves(View(st, v, p), View(st', v, p)) && Ok(sys, st', v, p, {})
    requires Entries(st'.nodes[v], load) == Entries(st.nodes[v], load)
    requires k < |st'.cplx| == |st.cplx| && forall l :: 0 <= l < |st.cplx| && l != k ==> st'.cplx[l] == st.cplx[l]
    requires st'.cplx[k] in seen
    ensures v < |st'.nodes| && Repeats(View(st', v, p), v, k, l)
    ensures var st'' := st'.(nodes := Without(st'.nodes, v, k));
            && Ok(sys, st'', v, p, {}) && Progress(st'', v, p, ds, load, seen, todo - {k})
            && Evolves(View(st, v, p), View(st'', v, p))
  {
    hide Served, Ok;
    var done := Entries(st.nodes[v], load) - todo;
    var st'' := st'.(nodes := Without(st'.nodes, v, k));
    l :| l in done && l < |st.cplx| && st.cplx[l] == st'.cplx[k];
    DropOk(sys, st', v, p, {}, k, l);
    EvolvesTransitive(View(st, v, p), View(st', v, p), View(st'', v, p));
    StillServed(View(st, v, p), View(st'', v, p), done, ds);
    assert Entries(st''.nodes[v], load) - (todo - {k}) == done;
    forall c | c in seen
      ensures Listed(st'', done, c)
    {
      var l' :| l' in done && l' < |st.cplx| && st.cplx[l'] == c;
      assert st''.cplx[l'] == c;
    }
  }

  // Propagation.

  /** The nodes after `xs` was added to node `i`. */
  function WithPts(nodes: seq<Node>, i: nat, xs: set<nat>): (r: seq<Node>)
    requires i < |nodes|
  {
    nodes[i := nodes[i].(pts := nodes[i].pts + xs)]
  }

  lemma PropOk(sys: System, st: State, v: nat, p: set<nat>, pending: set<nat>, e: nat, xs: set<nat>)
    requires Ok(sys, st, v, p, pending) && xs <= st.nodes[v].pts && e in st.nodes[v].copyTo
    ensures v != I2P && e < |st.root| && st.root[e] < |st.nodes| && st.root[e] != 0
    ensures var st' := st.(nodes := WithPts(st.nodes, st.root[e], xs));
            && Ok(sys, st', v, p, pending + {st.root[e]}) && Queued(st') == Queued(st)
            && Evolves(View(st, v, p), View(st', v, p))
  {
    var g := View(st, v, p);
    assert NodeShape(g, v) && NodeSound(sys, g, v) && NodeSound(sys, g, e);
    var d := st.root[e];
    BelowTransitive(sys, v, e, d);
    forall x | x in xs
      ensures 0 < x < sys.n && PointsTo(sys, d, x)
    {
      PointsToBelow(sys, v, d, x);
    }
    AddPtsKeeps(sys, g, Queued(st) + pending + {v}, d, xs);
    PropView(sys, st, v, p, pending, d, xs);
  }

  lemma PropView(sys: System, st: State, v: nat, p: set<nat>, pending: set<nat>, d: nat, xs: set<nat>)
    requires Ok(sys, st, v, p, pending) && d < |st.nodes|
    requires Inv(sys, AddPts(View(st, v, p), d, xs), Queued(st) + pending + {v} + {d})
    ensures var st' := st.(nodes := WithPts(st.nodes, d, xs));
            && Ok(sys, st', v, p, pending + {d}) && Queued(st') == Queued(st)
            && Evolves(View(st, v, p), View(st', v, p))
  {
    OkFacts(sys, st, v, p, pending);
    hide Inv, Refines;
    var st' := st.(nodes := WithPts(st.nodes, d, xs));
    assert Queued(st') == Queued(st) by {
      assert forall j :: 0 <= j < |st.nodes| ==> (Timely(st, j) <==> Timely(st', j));
    }
    assert View(st', v, p) == AddPts(View(st, v, p), d, xs);
    assert Queued(st') + (pending + {d}) + {v} == Queued(st) + pending + {v} + {d};
  }

  // The start and the end of a visit.

  /** The nodes when a visit to `n` starts at time `t`. */
  function Stamped(nodes: seq<Node>, n: nat, t: nat): (r: seq<Node>)
    requires n < |nodes|
  {
    nodes[n := nodes[n].(vtime := t)]
  }

  /** The nodes once everything known at `n` is marked as handled. */
  function Marked(nodes: seq<Node>, n: nat): (r: seq<Node>)
    requires n < |nodes|
  {
    nodes[n := nodes[n].(prev := nodes[n].pts)]
  }

  lemma StampOk(sys: System, st: State, n: nat, t: nat)
    requires Ok(sys, st, 0, {}, {n}) && n < |st.nodes|
    ensures Ok(sys, st.(nodes := Stamped(st.nodes, n, t)), 0, {}, {n})
  {
    var st' := st.(nodes := Stamped(st.nodes, n, t));
    var g, h := View(st, 0, {}), View(st', 0, {});
    forall j | 0 <= j < sys.n
      ensures Handled(g, j, h.nodes[j].prev) && SameNode(g.nodes[j], h.nodes[j])
    {
      assert NodeShape(g, j) && NodeDone(g, j);
      DoneIsHandled(g, j);
    }
    assert forall j :: 0 <= j < sys.n && j != n ==> (Timely(st, j) <==> Timely(st', j));
    SameButKeeps(sys, g, Queued(st) + {n} + {0}, h, Queued(st') + {n} + {0});
  }

  /** Nothing new at `n`: the visit is over. */
  lemma NothingNew(sys: System, st: State, n: nat)
    requires Ok(sys, st, 0, {}, {n}) && n < |st.nodes| && st.nodes[n].pts == st.nodes[n].prev
    ensures Ok(sys, st, 0, {}, {})
  {
    assert NodeShape(View(st, 0, {}), n);
    assert NodeQuiet(View(st, 0, {}), n);
  }

  lemma MarkOk(sys: System, st: State, n: nat)
    requires Ok(sys, st, 0, {}, {n}) && 0 < n < |st.nodes|
    ensures var st' := st.(nodes := Marked(st.nodes, n));
            Ok(sys, st', n, st.nodes[n].prev, {}) && View(st', n, st.nodes[n].prev) == View(st, 0, {})
  {
    var st' := st.(nodes := Marked(st.nodes, n));
    assert View(st', n, st.nodes[n].prev).nodes == st.nodes;
    assert Queued(st') == Queued(st) by {
      assert forall j :: 0 <= j < |st.nodes| ==> (Timely(st, j) <==> Timely(st', j));
    }
    ZeroIsQuiet(sys, View(st, 0, {}), Queued(st) + {n} + {0});
    MoreLive(sys, View(st, 0, {}), Queued(st) + {n} + {0} - {0}, Queued(st') + {} + {n});
  }

  /** Everything new at `n` was handed on: the visit is over. */
  lemma VisitOver(sys: System, st: State, n: nat, p: set<nat>, ds: set<nat>)
    requires Ok(sys, st, n, p, {}) && 0 < n < |st.nodes| && st.nodes[n].prev == p + ds
    requires ds <= st.nodes[n].pts
    requires forall e :: e in st.nodes[n].copyTo ==> Reached(st, e, ds)
    requires forall k :: k in st.nodes[n].loadTo + st.nodes[n].storeFrom ==>
               k < |st.cplx| && Served(View(st, n, p), st.cplx[k], ds)
    ensures Ok(sys, st, 0, {}, {})
  {
    var g, h := View(st, n, p), View(st, 0, {});
    assert NodeShape(g, n) && NodeDone(g, n);
    HandledParts(g, n, p, ds);
    FinishVisit(sys, g, h, n, Queued(st) + {} + {0});
  }

  lemma HandledParts(g: Graph, n: nat, p: set<nat>, ds: set<nat>)
    requires |g.root| == |g.nodes| && n < |g.nodes| && LegalPartition(g.root) && NodeShape(g, n) && NodeDone(g, n)
    requires g.nodes[n].prev == p && ds <= g.nodes[n].pts
    requires forall e :: e in g.nodes[n].copyTo ==> ds <= g.nodes[g.root[e]].pts
    requires forall k :: k in g.nodes[n].loadTo + g.nodes[n].storeFrom ==> k < |g.cplx| && Served(g, g.cplx[k], ds)
    ensures Handled(g, n, p + ds)
  {
    var m := g.nodes[n];
    assert forall k :: k in m.loadTo ==> k in m.loadTo + m.storeFrom && LoadShape(g, k, n);
    assert forall k :: k in m.storeFrom ==> k in m.loadTo + m.storeFrom && StoreShape(g, k, n);
  }

  lemma NewMembers(sys: System, st: State, n: nat)
    requires Ok(sys, st, 0, {}, {n}) && n < |st.nodes|
    ensures st.nodes[n].prev <= st.nodes[n].pts
    ensures n == 0 ==> st.nodes[n].pts == {}
    ensures forall x :: x in st.nodes[n].pts ==> x < |st.nodes|
  {
    assert NodeShape(View(st, 0, {}), n);
  }

  // Termination.

  /** The pairs of a node and a possible member not yet handled at it. */
  ghost function Unseen(nodes: seq<Node>): set<(nat, nat)> {
    set i, x | 0 <= i < |nodes| && 0 <= x < |nodes| && x !in nodes[i].prev :: (i, x)
  }

  /** A visit with new members to hand on leaves strictly less unseen. */
  lemma UnseenShrinks(st: State, st': State, n: nat, p: set<nat>, d: set<nat>)
    requires Evolves(View(st, n, p), View(st', n, p)) && 0 < n < |st.nodes| == |st'.nodes|
    requires st'.nodes[n].prev == p + d && d !! p && d != {} && forall x :: x in d ==> x < |st.nodes|
    ensures Unseen(st'.nodes) < Unseen(View(st, n, p).nodes)
  {
    var g, h := View(st, n, p), View(st', n, p);
    assert g.nodes[n].prev == p;
    assert forall i :: 0 <= i < |g.nodes| && i != n ==> st'.nodes[i].prev == h.nodes[i].prev == g.nodes[i].prev;
    forall q | q in Unseen(st'.nodes)
      ensures q in Unseen(g.nodes)
    {
    }
    var x :| x in d;
    assert (n, x) in Unseen(g.nodes) && (n, x) !in Unseen(st'.nodes);
  }

  lemma UnseenSame(nodes: seq<Node>, n: nat, t: nat)
    requires n < |nodes|
    ensures Unseen(Stamped(nodes, n, t)) == Unseen(nodes)
  {
    assert forall i :: 0 <= i < |nodes| ==> Stamped(nodes, n, t)[i].prev == nodes[i].prev;
  }
}
