/** The worklist solver with difference propagation and lazy cycle detection. */
module Solver {
  import opened Constraints
  import opened ConstraintGraph
  import opened GraphSteps
  import opened GraphMerge
  import opened SolverState
  import opened LcdState
  import opened LcdSearch
  import opened LcdComponents
  import opened SolverInit
  import UnionFind
  import Worklists
  import Tarjan

  /** Cycle detection runs when this many nodes are candidates, or when it has
      not run for this many node visits. */
  const LCD_SIZE: nat := 600
  const LCD_PERIOD: nat := 999_999_999

  // Where to look for cycles.

  /** Copy edges found with equal ends, and nodes to start from. */
  datatype Cycles = Cycles(edges: set<(nat, nat)>, starts: set<nat>)

  /** Nodes `n` and `d` have equal sets, not empty ones. */
  ghost predicate SameSet(nodes: seq<Node>, n: nat, d: nat) {
    n < |nodes| && d < |nodes| && nodes[n].pts != {} && nodes[n].pts == nodes[d].pts
  }

  /** The edges from `n` to other representatives that have the same set. */
  ghost function EqualEnds(root: seq<nat>, nodes: seq<Node>, n: nat, es: set<nat>): set<(nat, nat)> {
    set e | e in es && e < |root| && root[e] != n && SameSet(nodes, n, root[e]) :: (n, root[e])
  }

  /** Edges are noted once, and their start with the first of them. */
  ghost function NoteEdges(c: Cycles, n: nat, es: set<(nat, nat)>): Cycles {
    Cycles(c.edges + es, c.starts + if c.edges + es == c.edges then {} else {n})
  }

  /** The edges `done` have been followed, to the nodes `seen`. */
  ghost predicate Noted(root: seq<nat>, nodes0: seq<Node>, nodes: seq<Node>, n: nat, seen: set<nat>, done: set<nat>, c0: Cycles, c: Cycles) {
    && |nodes| == |nodes0| && n !in seen
    && (forall i :: 0 <= i < |nodes| && i !in seen ==> nodes[i] == nodes0[i])
    && (forall e :: e in seen ==> exists f :: f in done && f < |root| && root[f] == e)
    && c == NoteEdges(c0, n, EqualEnds(root, nodes0, n, done))
  }

  lemma NotedNone(root: seq<nat>, nodes: seq<Node>, n: nat, c: Cycles)
    ensures Noted(root, nodes, nodes, n, {}, {}, c, c)
  {
    assert c.edges + EqualEnds(root, nodes, n, {}) == c.edges;
  }

  lemma EqualEndsMore(root: seq<nat>, nodes: seq<Node>, n: nat, es: set<nat>, e: nat)
    requires e < |root|
    ensures EqualEnds(root, nodes, n, es + {e}) == EqualEnds(root, nodes, n, es) +
      if root[e] != n && SameSet(nodes, n, root[e]) then {(n, root[e])} else {}
  {
  }

  /** One more edge. */
  lemma NotedMore(root: seq<nat>, nodes0: seq<Node>, nodes: seq<Node>, nodes': seq<Node>, n: nat, seen: set<nat>, done: set<nat>, e: nat,
                  c0: Cycles, c: Cycles)
    requires Noted(root, nodes0, nodes, n, seen, done, c0, c) && e < |root| && root[e] < |nodes| && root[e] != n && root[e] !in seen
    requires |nodes'| == |nodes| && forall i :: 0 <= i < |nodes| && i != root[e] ==> nodes'[i] == nodes[i]
    ensures Noted(root, nodes0, nodes', n, seen + {root[e]}, done + {e}, c0,
              NoteEdges(c, n, if SameSet(nodes, n, root[e]) then {(n, root[e])} else {}))
  {
    EqualEndsMore(root, nodes0, n, done, e);
    hide EqualEnds;
    var d := root[e];
    var old', new' := EqualEnds(root, nodes0, n, done), if SameSet(nodes, n, d) then {(n, d)} else {};
    assert c0.edges + old' + new' == c0.edges + EqualEnds(root, nodes0, n, done + {e});
    forall b | b in seen + {d}
      ensures exists f :: f in done + {e} && f < |root| && root[f] == b
    {
      if b in seen {
        var f :| f in done && f < |root| && root[f] == b;
        assert f in done + {e};
      } else {
        assert e in done + {e};
      }
    }
  }

  lemma NotedEnd(root: seq<nat>, nodes0: seq<Node>, nodes: seq<Node>, n: nat, seen: set<nat>, done: set<nat>, c0: Cycles, c: Cycles)
    requires Noted(root, nodes0, nodes, n, seen, done, c0, c)
    ensures c == NoteEdges(c0, n, EqualEnds(root, nodes0, n, done))
  {
  }

  /** An edge that needs no following. */
  lemma NotedSkip(root: seq<nat>, nodes0: seq<Node>, nodes: seq<Node>, n: nat, seen: set<nat>, done: set<nat>, e: nat, c0: Cycles, c: Cycles)
    requires Noted(root, nodes0, nodes, n, seen, done, c0, c) && e < |root| && (root[e] == n || root[e] in seen)
    ensures Noted(root, nodes0, nodes, n, seen, done + {e}, c0, c)
    ensures root[e] == n || exists f :: f in done && f < |root| && root[f] == root[e]
  {
    EqualEndsMore(root, nodes0, n, done, e);
    assert EqualEnds(root, nodes0, n, done + {e}) == EqualEnds(root, nodes0, n, done);
    hide EqualEnds;
    forall b | b in seen
      ensures exists f :: f in done + {e} && f < |root| && root[f] == b
    {
      var f :| f in done && f < |root| && root[f] == b;
      assert f in done + {e};
    }
  }

  class Andersen {
    const uf: UnionFind.Partition
    const wl: Worklists.Worklist
    ghost const sys: System

    var constraints: seq<Constraint>
    var nodes: seq<Node>
    var cplx: seq<Constraint>
    /** The sequence number of the next visit. */
    var vtime: nat
    var nodeRuns: nat
    var lastLcd: nat
    /** Copy edges already found with equal ends, and where to look for cycles. */
    var lcdEdges: set<(nat, nat)>
    var lcdStarts: set<nat>
    /** One pass of cycle detection: the number each node leads back to (0 if
        unvisited), collapsed components, finished nodes of open components,
        and the next number. */
    var lcdDfsId: seq<nat>
    var lcdRoots: set<nat>
    var lcdStk: seq<nat>
    var currLcdDfs: nat
    /** The number each node got when it was first visited. */
    ghost var lcdNum: seq<nat>
    /** When each component was collapsed. */
    ghost var lcdWhen: map<nat, nat>

    /** Takes over a partition of the nodes and a constraint list; all nodes
        are blank and nothing is queued. */
    constructor (p: UnionFind.Partition, cs: seq<Constraint>)
      requires p.Valid() && Legal(System(|p.root|, p.root, cs))
      ensures uf == p && constraints == cs && sys == System(|p.root|, p.root, cs)
      ensures Separate() && fresh(wl.Repr)
      ensures nodes == seq(sys.n, i => BLANK) && cplx == [] && wl.now == map[] && wl.later == map[]
      ensures lcdStarts == {} && lcdEdges == {} && lcdStk == []
    {
      var n := |p.rep|;
      var w := new Worklists.Worklist(n);
      uf, wl, sys := p, w, System(|p.root|, p.root, cs);
      constraints, nodes, cplx := cs, seq(n, i => BLANK), [];
      vtime, nodeRuns, lastLcd := 0, 0, 0;
      lcdEdges, lcdStarts := {}, {};
      lcdDfsId, lcdNum, lcdWhen, lcdRoots, lcdStk, currLcdDfs := [], [], map[], {}, [], 1;
    }

    /** The state as a value. */
    ghost function S(): State
      reads this, uf, wl
    {
      State(uf.root, nodes, cplx, wl.now, wl.later)
    }

    ghost function C(): Cycles
      reads this
    {
      Cycles(lcdEdges, lcdStarts)
    }

    ghost predicate Separate()
      reads this, uf, wl, wl.Repr, wl.curr, wl.next
    {
      && uf.Valid() && wl.Valid()
      && this !in wl.Repr && uf !in wl.Repr
      && |uf.rep| == |uf.root| == |nodes| == sys.n == wl.bound
    }

    /** The invariant between visits (`v` = 0) and during a visit to `v`. */
    ghost predicate Valid(v: nat, p: set<nat>, pending: set<nat>)
      reads this, uf, wl, wl.Repr, wl.curr, wl.next
    {
      && Separate()
      && Ok(sys, S(), v, p, pending)
      && (forall s :: s in lcdStarts ==> 0 < s < sys.n && s != I2P)
    }

    /** Queues a node at its current visit time. */
    method Push(i: nat, ghost v: nat, ghost p: set<nat>, ghost pending: set<nat>)
      requires Valid(v, p, pending) && i < |nodes|
      modifies wl.Repr
      ensures Valid(v, p, pending - {i})
      ensures S() == Pushed(old(S()), i)
    {
      hide Ok, UnionFind.Encodes, Worklists.Worklist.Valid;
      PushOk(sys, S(), v, p, pending, i);
      wl.Push(i, nodes[i].vtime);
    }

    /** Adds a copy edge and everything that flows along it at once; does not
        queue the target. */
    method AddCopyEdge(src: nat, dest: nat, ghost v: nat, ghost p: set<nat>, ghost pending: set<nat>)
        returns (changed: bool)
      requires Valid(v, p, pending)
      requires 0 < src < |nodes| && uf.root[src] == src
      requires 0 < dest < |nodes| && uf.root[dest] == dest
      requires src != I2P && dest != I2P ==> Below(sys, src, dest)
      modifies this`nodes
      ensures Valid(v, p, if changed then pending + {dest} else pending)
      ensures src != I2P && dest != I2P ==> Linked(View(S(), v, p), src, dest)
      ensures Grows(View(old(S()), v, p), View(S(), v, p)) && nodes[v].prev == old(nodes[v].prev)
    {
      hide Ok, UnionFind.Encodes, Worklists.Worklist.Valid, Inv;
      OkFacts(sys, S(), v, p, pending);
      changed := false;
      if src == I2P || dest == I2P || src == dest {
        return;
      }
      if dest !in nodes[src].copyTo {
        changed := !(nodes[src].pts <= nodes[dest].pts);
        EdgeOk(sys, S(), v, p, pending, src, dest, if changed then pending + {dest} else pending);
        nodes := WithEdge(nodes, src, dest);
      } else {
        assert dest in View(S(), v, p).nodes[src].copyTo;
      }
    }

    /** The part of the invariant that ties constraint `k` to the node `v`
        being visited; its ends are representatives. */
    ghost predicate Serving(k: nat, load: bool, dest: nat, src: nat, v: nat)
      reads this, uf
    {
      && |uf.root| == |nodes|
      && k < |cplx| && cplx[k] == (if load then Load(dest, src) else Store(dest, src))
      && LegalConstraint(cplx[k], |nodes|) && uf.root[dest] == dest && uf.root[src] == src
      && v == if load then src else dest
    }

    /** Adds the copy edge that one load or store needs for member `x` of its
        base. A load leaves it to the caller to queue its target. */
    method ServeMember(x: nat, load: bool, dest: nat, src: nat, pend: bool, ghost k: nat, ghost v: nat, ghost p: set<nat>)
        returns (chg: bool)
      requires Valid(v, p, if pend then {dest} else {}) && (pend ==> load)
      requires Serving(k, load, dest, src, v) && x in nodes[v].pts
      modifies this`nodes, uf`rep, wl.Repr
      ensures Valid(v, p, if chg then {dest} else {}) && (chg ==> load)
      ensures Grows(View(old(S()), v, p), View(S(), v, p)) && nodes[v].prev == old(nodes[v].prev)
      ensures x < |uf.root| && uf.root[x] < |nodes|
      ensures x != I2P ==> Linked(View(S(), v, p), if load then uf.root[x] else src, if load then dest else uf.root[x])
    {
      hide Ok, UnionFind.Encodes, Worklists.Worklist.Valid, Inv, Grows, Linked;
      MemberJustified(sys, S(), v, p, if pend then {dest} else {}, k, x);
      var rn := uf.GetRep(x);
      assert S() == old(S());
      chg := pend;
      if load {
        var c := AddCopyEdge(rn, dest, v, p, if pend then {dest} else {});
        chg := pend || c;
        assert {dest} + {dest} == {dest} == {} + {dest};
      } else {
        var c := AddCopyEdge(src, rn, v, p, {});
        if c {
          assert {} + {rn} == {rn} && {rn} - {rn} == {};
          Push(rn, v, p, {rn});
        }
      }
    }

    /** Adds the copy edges that one load or store needs for the members `ds`
        of its base. */
    method SolveLsN(ds: set<nat>, load: bool, dest: nat, src: nat, ghost k: nat, ghost v: nat, ghost p: set<nat>)
      requires Valid(v, p, {}) && Serving(k, load, dest, src, v) && ds <= nodes[v].pts
      modifies this`nodes, uf`rep, wl.Repr
      ensures Valid(v, p, {})
      ensures Served(View(S(), v, p), cplx[k], ds)
      ensures Grows(View(old(S()), v, p), View(S(), v, p)) && nodes[v].prev == old(nodes[v].prev)
    {
      hide Ok, UnionFind.Encodes, Worklists.Worklist.Valid, Inv, Linked, Served;
      var chg := false;
      var todo := ds;
      ghost var g0 := View(S(), v, p);
      OkFacts(sys, S(), v, p, {});
      ServedNone(g0, cplx[k]);
      assert ds - todo == {};
      while todo != {}
        invariant Serving(k, load, dest, src, v)
        invariant todo <= ds <= nodes[v].pts && nodes[v].prev == old(nodes[v].prev)
        invariant Valid(v, p, if chg then {dest} else {}) && (chg ==> load)
        invariant Grows(g0, View(S(), v, p))
        invariant Served(View(S(), v, p), cplx[k], ds - todo)
        decreases todo
      {
        var x :| x in todo;
        ghost var g := View(S(), v, p);
        chg := ServeMember(x, load, dest, src, chg, k, v, p);
        ServedMore(g, View(S(), v, p), cplx[k], ds - todo, x);
        GrowsTransitive(g0, g, View(S(), v, p));
        assert NodeGrows(g.nodes[v], View(S(), v, p).nodes[v]);
        assert ds - (todo - {x}) == ds - todo + {x};
        todo := todo - {x};
      }
      assert ds - todo == ds;
      if chg {
        assert {dest} - {dest} == {};
        Push(dest, v, p, {dest});
      }
    }
  
    /** Handles one load or store of the node `n` being visited for the new
        members `ds`: renames its ends to representatives and adds its copy
        edges, unless an equal constraint was handled in this visit. */
    method SolveLsCons(n: nat, ds: set<nat>, seen: set<Constraint>, k: nat, ghost p: set<nat>)
        returns (redundant: bool, seen': set<Constraint>)
      requires Valid(n, p, {}) && 0 < n && ds <= nodes[n].pts
      requires k in nodes[n].loadTo + nodes[n].storeFrom
      modifies this`nodes, this`cplx, uf`rep, wl.Repr
      ensures Valid(n, p, {})
      ensures Evolves(View(old(S()), n, p), View(S(), n, p))
      ensures k < |cplx| && |cplx| == old(|cplx|) && forall l :: 0 <= l < |cplx| && l != k ==> cplx[l] == old(cplx[l])
      ensures nodes[n].loadTo == old(nodes[n].loadTo) && nodes[n].storeFrom == old(nodes[n].storeFrom)
      ensures nodes[n].prev == old(nodes[n].prev)
      ensures redundant <==> cplx[k] in seen
      ensures seen' == seen + {cplx[k]}
      ensures !redundant ==> Served(View(S(), n, p), cplx[k], ds)
    {
      hide Ok, UnionFind.Encodes, Worklists.Worklist.Valid, Inv, Served;
      EntryShape(sys, S(), n, p, {}, k);
      ghost var g := View(S(), n, p);
      var load := cplx[k].Load?;
      var dest := uf.GetRep(cplx[k].dest);
      var src := uf.GetRep(cplx[k].src);
      var c := cplx[k].(dest := dest, src := src);
      assert S() == old(S());
      RetargetOk(sys, S(), n, p, {}, k, c);
      cplx := cplx[k := c];
      seen' := seen + {c};
      redundant := c in seen;
      if !redundant {
        ghost var h := View(S(), n, p);
        SolveLsN(ds, load, dest, src, k, n, p);
        GrowsEvolves(h, View(S(), n, p));
        EvolvesTransitive(g, h, View(S(), n, p));
        assert NodeGrows(h.nodes[n], View(S(), n, p).nodes[n]);
      }
    }
  
    /** Handles one entry of the node being visited, and drops it if it became
        equal to another one. */
    method SolveEntry(n: nat, ds: set<nat>, load: bool, seen: set<Constraint>, ghost todo: set<nat>, k: nat, ghost p: set<nat>)
        returns (seen': set<Constraint>)
      requires Valid(n, p, {}) && 0 < n
      requires Progress(S(), n, p, ds, load, seen, todo) && k in todo
      modifies this`nodes, this`cplx, uf`rep, wl.Repr
      ensures Valid(n, p, {})
      ensures Progress(S(), n, p, ds, load, seen', todo - {k})
      ensures Evolves(View(old(S()), n, p), View(S(), n, p))
      ensures nodes[n].prev == old(nodes[n].prev) && Entries(nodes[n], !load) == old(Entries(nodes[n], !load))
    {
      hide Ok, UnionFind.Encodes, Worklists.Worklist.Valid, Inv, Served, Evolves;
      EntryShape(sys, S(), n, p, {}, k);
      ghost var st := S();
      var redundant;
      redundant, seen' := SolveLsCons(n, ds, seen, k, p);
      if redundant {
        ghost var l := ProgressDropped(sys, st, S(), n, p, ds, load, seen, todo, k);
        nodes := Without(nodes, n, k);
        assert seen' == seen;
      } else {
        ProgressServed(st, S(), n, p, ds, load, seen, todo, k);
      }
    }

    /** Handles all loads from (or stores through) the node being visited for
        its new members, dropping constraints that became equal. */
    method SolveComplex(n: nat, ds: set<nat>, load: bool, ghost p: set<nat>)
      requires Valid(n, p, {}) && 0 < n && ds <= nodes[n].pts
      modifies this`nodes, this`cplx, uf`rep, wl.Repr
      ensures Valid(n, p, {})
      ensures Evolves(View(old(S()), n, p), View(S(), n, p))
      ensures nodes[n].prev == old(nodes[n].prev) && Entries(nodes[n], !load) == old(Entries(nodes[n], !load))
      ensures ds <= nodes[n].pts
      ensures forall k :: k in Entries(nodes[n], load) ==> k < |cplx| && Served(View(S(), n, p), cplx[k], ds)
    {
      hide Ok, UnionFind.Encodes, Worklists.Worklist.Valid, Inv, Served;
      OkFacts(sys, S(), n, p, {});
      ghost var g0 := View(S(), n, p);
      var seen: set<Constraint> := {};
      var todo := Entries(nodes[n], load);
      while todo != {}
        invariant Valid(n, p, {}) && Progress(S(), n, p, ds, load, seen, todo)
        invariant Evolves(g0, View(S(), n, p))
        invariant nodes[n].prev == old(nodes[n].prev) && Entries(nodes[n], !load) == old(Entries(nodes[n], !load))
        decreases todo
      {
        var k :| k in todo;
        ghost var g := View(S(), n, p);
        seen := SolveEntry(n, ds, load, seen, todo, k, p);
        EvolvesTransitive(g0, g, View(S(), n, p));
        todo := todo - {k};
      }
      assert Entries(nodes[n], load) - todo == Entries(nodes[n], load);
    }
  
    /** Copies the new members along one copy edge, and notes the edge for
        cycle detection when its ends are equal for the first time. */
    method PropEdge(n: nat, ds: set<nat>, dest0: nat, dest: nat, ghost p: set<nat>)
      requires Valid(n, p, {}) && 0 < n < |nodes| && ds <= nodes[n].pts && dest0 in nodes[n].copyTo
      requires dest0 < |uf.root| && dest == uf.root[dest0] && dest != n
      modifies this`nodes, this`lcdEdges, this`lcdStarts, wl.Repr
      ensures Valid(n, p, {})
      ensures Evolves(View(old(S()), n, p), View(S(), n, p)) && nodes[n] == old(nodes[n])
      ensures Reached(S(), dest0, ds)
      ensures |nodes| == old(|nodes|) && forall i :: 0 <= i < |nodes| && i != dest ==> nodes[i] == old(nodes)[i]
      ensures dest < |nodes| && C() == NoteEdges(old(C()), n, if SameSet(old(nodes), n, dest) then {(n, dest)} else {})
    {
      hide Ok, UnionFind.Encodes, Worklists.Worklist.Valid, Inv;
      OkFacts(sys, S(), n, p, {});
      PropOk(sys, S(), n, p, {}, dest0, ds);
      if (n, dest) !in lcdEdges && nodes[n].pts != {} && nodes[n].pts == nodes[dest].pts {
        lcdEdges := lcdEdges + {(n, dest)};
        lcdStarts := lcdStarts + {n};
      }
      if !(ds <= nodes[dest].pts) {
        assert {} + {dest} == {dest} && {dest} - {dest} == {};
        nodes := WithPts(nodes, dest, ds);
        Push(dest, n, p, {dest});
      }
    }

    /** Copies the new members of the node being visited along its copy edges. */
    method SolveProp(n: nat, ds: set<nat>, ghost p: set<nat>)
      requires Valid(n, p, {}) && 0 < n && ds <= nodes[n].pts
      modifies this`nodes, this`lcdEdges, this`lcdStarts, uf`rep, wl.Repr
      ensures Valid(n, p, {})
      ensures Evolves(View(old(S()), n, p), View(S(), n, p)) && nodes[n] == old(nodes[n])
      ensures forall e :: e in nodes[n].copyTo ==> Reached(S(), e, ds)
      ensures C() == NoteEdges(old(C()), n, EqualEnds(uf.root, old(nodes), n, nodes[n].copyTo))
    {
      hide Ok, UnionFind.Encodes, Worklists.Worklist.Valid, Inv, Evolves, Reached, EqualEnds, Noted, SameSet, NoteEdges;
      OkFacts(sys, S(), n, p, {});
      ghost var g0, done := View(S(), n, p), {};
      EvolvesSelf(g0);
      NotedNone(uf.root, nodes, n, C());
      var todo := nodes[n].copyTo;
      var copySeen: set<nat> := {};
      while todo != {}
        invariant Valid(n, p, {}) && todo + done == nodes[n].copyTo
        invariant Evolves(g0, View(S(), n, p)) && n < |nodes| && nodes[n] == old(nodes[n])
        invariant forall e :: e in done ==> Reached(S(), e, ds)
        invariant Noted(uf.root, old(nodes), nodes, n, copySeen, done, old(C()), C())
        decreases todo
      {
        var dest0 :| dest0 in todo;
        ghost var st, c := S(), C();
        PropOk(sys, st, n, p, {}, dest0, ds);
        var dest := uf.GetRep(dest0);
        if dest != n && dest !in copySeen {
          PropEdge(n, ds, dest0, dest, p);
          NotedMore(uf.root, old(nodes), st.nodes, nodes, n, copySeen, done, dest0, old(C()), c);
          copySeen := copySeen + {dest};
          ReachedStays(st, S(), n, p, done, ds);
          EvolvesTransitive(g0, View(st, n, p), View(S(), n, p));
        } else {
          NotedSkip(uf.root, old(nodes), nodes, n, copySeen, done, dest0, old(C()), c);
        }
        ReachedVia(S(), dest0, done, n, ds);
        todo, done := todo - {dest0}, done + {dest0};
      }
      NotedEnd(uf.root, old(nodes), nodes, n, copySeen, done, old(C()), C());
    }
  
    /** Visits a node: handles its loads and stores for the members that are
        new since its last visit, then copies them along its copy edges. */
    method SolveNode(n: nat)
      requires Valid(0, {}, {n}) && n < |nodes|
      modifies this`nodes, this`cplx, this`vtime, this`nodeRuns, this`lcdEdges, this`lcdStarts, uf`rep, wl.Repr
      ensures Valid(0, {}, {})
      ensures |nodes| == old(|nodes|) && nodes[n].prev == old(nodes[n].pts)
      ensures old(lcdStarts) <= lcdStarts && nodeRuns == old(nodeRuns) + 1
      ensures (Unseen(nodes) < old(Unseen(nodes))) ||
              (Unseen(nodes) == old(Unseen(nodes)) && wl.now == old(wl.now) && wl.later == old(wl.later))
    {
      hide Ok, UnionFind.Encodes, Worklists.Worklist.Valid, Inv, Served, Evolves, Reached, Unseen;
      nodeRuns := nodeRuns + 1;
      StampOk(sys, S(), n, vtime);
      UnseenSame(nodes, n, vtime);
      nodes := Stamped(nodes, n, vtime);
      vtime := vtime + 1;
      NewMembers(sys, S(), n);
      var d := nodes[n].pts - nodes[n].prev;
      if d == {} {
        assert forall x :: x in nodes[n].pts && x !in nodes[n].prev ==> x in d;
        assert nodes[n].pts == nodes[n].prev;
        NothingNew(sys, S(), n);
        return;
      }
      ghost var p := nodes[n].prev;
      MarkOk(sys, S(), n);
      ghost var unmarked := nodes;
      nodes := Marked(nodes, n);
      ghost var st := S();
      assert {} - {0} == {};
      Push(0, n, p, {});
      EvolvesSelf(View(S(), n, p));
      SolveNew(n, d, p);
      UnseenShrinks(st, S(), n, p, d);
      assert nodes[n].prev == p + d;
      VisitOver(sys, S(), n, p, d);
    }

    /** The three loops of a visit. */
    method SolveNew(n: nat, d: set<nat>, ghost p: set<nat>)
      requires Valid(n, p, {}) && 0 < n && d <= nodes[n].pts
      modifies this`nodes, this`cplx, this`lcdEdges, this`lcdStarts, uf`rep, wl.Repr
      ensures Valid(n, p, {}) && n < |nodes|
      ensures Evolves(View(old(S()), n, p), View(S(), n, p)) && nodes[n].prev == old(nodes[n].prev)
      ensures d <= nodes[n].pts && old(lcdStarts) <= lcdStarts
      ensures forall e :: e in nodes[n].copyTo ==> Reached(S(), e, d)
      ensures forall k :: k in nodes[n].loadTo + nodes[n].storeFrom ==>
                k < |cplx| && Served(View(S(), n, p), cplx[k], d)
    {
      hide Ok, UnionFind.Encodes, Worklists.Worklist.Valid, Inv, Served, Reached;
      OkFacts(sys, S(), n, p, {});
      ghost var g0 := View(S(), n, p);
      SolveComplex(n, d, true, p);
      ghost var g1 := View(S(), n, p);
      assert Entries(nodes[n], true) == nodes[n].loadTo;
      SolveComplex(n, d, false, p);
      ghost var g2 := View(S(), n, p);
      assert Entries(nodes[n], false) == nodes[n].storeFrom && Entries(nodes[n], true) == nodes[n].loadTo;
      StillServed(g1, g2, nodes[n].loadTo, d);
      EvolvesTransitive(g0, g1, g2);
      assert forall k :: k in nodes[n].loadTo + nodes[n].storeFrom ==> k < |cplx| && Served(g2, cplx[k], d);
      SolveProp(n, d, p);
      StillServed(g2, View(S(), n, p), nodes[n].loadTo + nodes[n].storeFrom, d);
      EvolvesTransitive(g0, g2, View(S(), n, p));
    }
  
    /** The cycle search as a value; the recursion path is kept by its callers. */
    ghost function T(path: set<nat>): Tarjan.Search
      reads this
    {
      Tarjan.Search(lcdNum, lcdDfsId, path, lcdStk, currLcdDfs)
    }

    /** Unifies two representatives that are equal in every solution; returns
        the one that stays. */
    method MergeReps(n1: nat, n2: nat, ghost pending: set<nat>) returns (parent: nat, child: nat)
      requires Valid(0, {}, pending) && pending <= {n1, n2}
      requires Mergeable(sys, View(S(), 0, {}), n1, n2)
      modifies this`nodes, uf
      ensures Valid(0, {}, {parent})
      ensures (parent == n1 && child == n2) || (parent == n2 && child == n1)
      ensures n1 < |old(nodes)| && n2 < |old(nodes)| && S() == MergedState(old(S()), parent, child)
      ensures Reps(uf.root) < old(Reps(uf.root))
    {
      hide Ok, UnionFind.Encodes, Worklists.Worklist.Valid, Inv;
      OkFacts(sys, S(), 0, {}, pending);
      parent, child := uf.Merge(n1, n2);
      MergeOk(sys, old(S()), pending, parent, child);
      nodes := MergeNodes(nodes, parent, child);
    }

    /** Pops the component of `n` off the stack and merges it into `m`. */
    method PopComponent(n: nat, ghost path: set<nat>, ghost base: nat) returns (m: nat, chg: bool)
      requires Valid(0, {}, {}) && AtRoot(sys, uf.root, T(path + {n}), lcdRoots, n, base)
      modifies this`nodes, this`lcdStk, uf
      ensures Valid(0, {}, if chg then {m} else {})
      ensures base <= |old(lcdStk)| && lcdStk == old(lcdStk)[..base]
      ensures Popped(old(S()), S(), old(T(path + {n})), n, base, base, m, chg)
    {
      hide Ok, UnionFind.Encodes, Worklists.Worklist.Valid, Inv, AtRoot, Popped;
      ghost var t := T(path + {n});
      CollapseStart(sys, S(), t, lcdRoots, n, base);
      var ourDfs := lcdDfsId[n];
      m, chg := n, false;
      while lcdStk != [] && lcdDfsId[lcdStk[|lcdStk| - 1]] >= ourDfs
        invariant base <= |lcdStk| <= |t.stack| && lcdStk == t.stack[..|lcdStk|]
        invariant Valid(0, {}, if chg then {m} else {})
        invariant Popped(old(S()), S(), t, n, base, |lcdStk|, m, chg)
        decreases |lcdStk|
      {
        PopGuard(sys, old(uf.root), t, lcdRoots, n, base, |lcdStk|);
        m := PopOne(t, n, base, m, chg, old(S()));
        chg := true;
      }
      if lcdStk != [] {
        PopGuard(sys, old(uf.root), t, lcdRoots, n, base, |lcdStk|);
      }
    }

    /** Pops one node and merges it with those popped before. */
    method PopOne(ghost t: Tarjan.Search, ghost n: nat, ghost base: nat, m: nat, ghost chg: bool, ghost st0: State)
        returns (m': nat)
      requires Valid(0, {}, if chg then {m} else {}) && AtRoot(sys, st0.root, t, lcdRoots, n, base)
      requires base < |lcdStk| <= |t.stack| && lcdStk == t.stack[..|lcdStk|]
      requires Popped(st0, S(), t, n, base, |lcdStk|, m, chg)
      modifies this`nodes, this`lcdStk, uf
      ensures Valid(0, {}, {m'})
      ensures lcdStk == old(lcdStk)[..|old(lcdStk)| - 1]
      ensures Popped(st0, S(), t, n, base, |lcdStk|, m', true)
    {
      hide Ok, UnionFind.Encodes, Worklists.Worklist.Valid, Inv, AtRoot, Popped;
      var j := |lcdStk|;
      PopReady(sys, st0, S(), t, lcdRoots, n, base, j, m, chg);
      var n2 := lcdStk[j - 1];
      lcdStk := lcdStk[..j - 1];
      var rn2 := uf.GetRep(n2);
      m' := m;
      if rn2 != m {
        ghost var st := S();
        var child;
        m', child := MergeReps(m, rn2, if chg then {m} else {});
        PopMerge(sys, st0, st, t, lcdRoots, n, base, j, m, chg, m', child);
      }
    }

    /** Collapses the component of `n` and queues the resulting node. */
    method Collapse(n: nat, ghost path: set<nat>, ghost base: nat)
      requires Valid(0, {}, {}) && AtRoot(sys, uf.root, T(path + {n}), lcdRoots, n, base) && n !in path
      requires Thorough(S(), T(path + {n}), lcdRoots, lcdWhen)
      requires n < |nodes| && AllSeen(uf.root, T(path + {n}), n, nodes[n].copyTo)
      modifies this`nodes, this`lcdWhen, this`lcdRoots, this`lcdStk, uf, wl.Repr
      ensures Valid(0, {}, {}) && Thorough(S(), T(path), lcdRoots, lcdWhen)
      ensures base <= |old(lcdStk)| && lcdStk == old(lcdStk)[..base]
      ensures Closed(sys, old(S()), old(T(path + {n})), old(lcdRoots), S(), T(path), lcdRoots, n)
    {
      hide Ok, UnionFind.Encodes, Worklists.Worklist.Valid, Inv, AtRoot, Popped, Closed, LegalPartition, Thorough, AllSeen;
      ghost var t := T(path + {n});
      OkFacts(sys, S(), 0, {}, {});
      var m, chg := PopComponent(n, path, base);
      CollapseEnd(sys, old(S()), S(), t, lcdRoots, n, base, m, chg);
      ThoroughClosed(sys, old(S()), S(), t, lcdRoots, lcdWhen, n, base, m, chg);
      ThoroughPushed(S(), m, Tarjan.Close(t, n, base), lcdRoots + {m}, lcdWhen[m := |lcdWhen|]);
      lcdRoots, lcdWhen := lcdRoots + {m}, lcdWhen[m := |lcdWhen|];
      assert path + {n} - {n} == path;
      assert T(path) == Tarjan.Close(t, n, base);
      if chg {
        assert {m} - {m} == {};
        Push(m, 0, {}, {m});
      }
    }
  
    /** Visits the representative at the end of an edge of `n` unless its
        component is collapsed, and lets `n` lead back as far as it does.
        Returns its representative afterwards. */
    method LcdFollow(n: nat, dest: nat, ghost dest0: nat, ghost del: set<nat>, ghost add: set<nat>, ghost todo: set<nat>, ghost path: set<nat>,
                     ghost st0: State, ghost t0: Tarjan.Search, ghost roots0: set<nat>, ghost es: set<nat>)
        returns (dest': nat)
      requires Valid(0, {}, {}) && Exploring(sys, st0, t0, roots0, S(), T(path + {n}), lcdRoots, n)
      requires Thorough(S(), T(path + {n}), lcdRoots, lcdWhen) && AllSeen(uf.root, T(path + {n}), n, es)
      requires n < |nodes| && dest0 < |uf.root| && dest == uf.root[dest0] != n
      requires Usable(View(S(), 0, {}), dest) && Below(sys, n, dest)
      requires EdgesDone(uf.root, n, nodes[n].copyTo, todo, del, add)
      modifies this`nodes, this`lcdDfsId, this`lcdNum, this`lcdWhen, this`lcdRoots, this`lcdStk, this`currLcdDfs, uf, wl.Repr
      ensures Valid(0, {}, {}) && Exploring(sys, st0, t0, roots0, S(), T(path + {n}), lcdRoots, n)
      ensures n < |nodes| && nodes[n] == old(nodes[n])
      ensures EdgesDone(uf.root, n, nodes[n].copyTo, todo, del, add)
      ensures dest0 < |uf.root| && dest' == uf.root[dest0] != n
      ensures Thorough(S(), T(path + {n}), lcdRoots, lcdWhen) && AllSeen(uf.root, T(path + {n}), n, es + {dest0})
      decreases Tarjan.Unvisited(lcdNum), 2
    {
      hide Ok, UnionFind.Encodes, Worklists.Worklist.Valid, Inv, Exploring, Visited, LcdOk, EdgesDone, LegalPartition, Thorough, AllSeen;
      dest' := dest;
      ghost var st, t, roots := S(), T(path + {n}), lcdRoots;
      ExploringFacts(sys, st0, t0, roots0, st, t, roots, n);
      if dest in lcdRoots {
        SeenCollapsed(sys, uf.root, t, lcdRoots, n, es, dest0);
      } else {
        if lcdDfsId[dest] == 0 {
          dest' := FollowNew(n, dest, dest0, del, add, todo, path, st0, t0, roots0, es);
        } else {
          VisitedIsOpen(sys, uf.root, t, lcdRoots, dest);
          ExploreSee(sys, st0, t0, roots0, st, t, roots, n, dest);
          FollowedOpen(sys, st, t, roots, lcdWhen, n, dest, es, dest0);
        }
        if lcdDfsId[dest'] < lcdDfsId[n] {
          lcdDfsId := lcdDfsId[n := lcdDfsId[dest']];
        }
      }
    }

    /** Visits a node that was not visited yet. `n` does not lead back as far
        as it does before the caller has compared the two. */
    method FollowNew(n: nat, dest: nat, ghost dest0: nat, ghost del: set<nat>, ghost add: set<nat>, ghost todo: set<nat>, ghost path: set<nat>,
                     ghost st0: State, ghost t0: Tarjan.Search, ghost roots0: set<nat>, ghost es: set<nat>)
        returns (dest': nat)
      requires Valid(0, {}, {}) && Exploring(sys, st0, t0, roots0, S(), T(path + {n}), lcdRoots, n)
      requires Thorough(S(), T(path + {n}), lcdRoots, lcdWhen) && AllSeen(uf.root, T(path + {n}), n, es)
      requires n < |nodes| && dest0 < |uf.root| && dest == uf.root[dest0] != n
      requires Usable(View(S(), 0, {}), dest) && Below(sys, n, dest) && dest < |lcdNum| && lcdNum[dest] == 0
      requires EdgesDone(uf.root, n, nodes[n].copyTo, todo, del, add)
      modifies this`nodes, this`lcdDfsId, this`lcdNum, this`lcdWhen, this`lcdRoots, this`lcdStk, this`currLcdDfs, uf, wl.Repr
      ensures Valid(0, {}, {}) && n < |nodes| && nodes[n] == old(nodes[n])
      ensures EdgesDone(uf.root, n, nodes[n].copyTo, todo, del, add)
      ensures dest0 < |uf.root| && dest' == uf.root[dest0] != n && n < |lcdDfsId| && dest' < |lcdDfsId|
      ensures FollowedTo(sys, st0, t0, roots0, S(), Tarjan.See(T(path + {n}), n, dest'), lcdRoots, lcdWhen, n, es + {dest0})
      decreases Tarjan.Unvisited(lcdNum), 1
    {
      hide Ok, UnionFind.Encodes, Worklists.Worklist.Valid, Inv, Exploring, Visited, LcdOk, EdgesDone, LegalPartition, Thorough, AllSeen;
      ghost var st, t, roots := S(), T(path + {n}), lcdRoots;
      ExploringFacts(sys, st0, t0, roots0, st, t, roots, n);
      OkFacts(sys, st, 0, {}, {});
      LcdDfs(dest, path + {n}, n);
      FollowedChild(sys, st0, t0, roots0, st, t, roots, S(), T(path + {n}), lcdRoots, lcdWhen, dest, n, es, dest0);
      ChildEdges(sys, st, t, roots, S(), T(path + {n}), lcdRoots, dest, n, st.nodes[n].copyTo, todo, del, add, dest0);
      dest' := uf.GetRep(dest);
    }

    /** Follows one copy edge of `n` in the cycle search and decides whether it
        stays, goes, or is replaced by an edge to the representative. */
    method LcdEdge(n: nat, dest0: nat, del: set<nat>, add: set<nat>, ghost todo: set<nat>, ghost path: set<nat>,
                   ghost st0: State, ghost t0: Tarjan.Search, ghost roots0: set<nat>)
        returns (del': set<nat>, add': set<nat>)
      requires Valid(0, {}, {}) && Exploring(sys, st0, t0, roots0, S(), T(path + {n}), lcdRoots, n)
      requires n < |nodes| && dest0 in todo && todo <= nodes[n].copyTo && todo !! del
      requires EdgesDone(uf.root, n, nodes[n].copyTo, todo, del, add)
      requires Thorough(S(), T(path + {n}), lcdRoots, lcdWhen) && AllSeen(uf.root, T(path + {n}), n, nodes[n].copyTo - todo + add)
      modifies this`nodes, this`lcdDfsId, this`lcdNum, this`lcdWhen, this`lcdRoots, this`lcdStk, this`currLcdDfs, uf, wl.Repr
      ensures Valid(0, {}, {}) && Exploring(sys, st0, t0, roots0, S(), T(path + {n}), lcdRoots, n)
      ensures n < |nodes| && nodes[n] == old(nodes[n])
      ensures EdgesDone(uf.root, n, nodes[n].copyTo, todo - {dest0}, del', add') && todo - {dest0} !! del'
      ensures Thorough(S(), T(path + {n}), lcdRoots, lcdWhen)
      ensures AllSeen(uf.root, T(path + {n}), n, nodes[n].copyTo - (todo - {dest0}) + add')
      decreases Tarjan.Unvisited(lcdNum), 3
    {
      hide Ok, UnionFind.Encodes, Worklists.Worklist.Valid, Inv, Exploring, Visited, LcdOk, EdgesDone, LegalPartition, Thorough, AllSeen;
      del', add' := del, add;
      CopyEdge(sys, S(), n, dest0);
      var dest := uf.GetRep(dest0);
      assert S() == old(S());
      ghost var es := nodes[n].copyTo - todo + add;
      if dest in add || dest == n {
        ExploringFacts(sys, st0, t0, roots0, S(), T(path + {n}), lcdRoots, n);
        SeenAgain(sys, uf.root, T(path + {n}), lcdRoots, n, es, dest0);
        assert es + {dest0} == nodes[n].copyTo - (todo - {dest0}) + add;
        EdgesDoneMore(uf.root, n, nodes[n].copyTo, todo, del, add, dest0, dest);
        del' := del + {dest0};
        return;
      }
      dest := LcdFollow(n, dest, dest0, del, add, todo, path, st0, t0, roots0, es);
      CopyEdge(sys, S(), n, dest0);
      SeenTarget(uf.root, T(path + {n}), n, es, dest0);
      assert es + {dest0} == nodes[n].copyTo - (todo - {dest0}) + add;
      assert es + {dest0} + {dest} == nodes[n].copyTo - (todo - {dest0}) + (add + {dest});
      EdgesDoneMore(uf.root, n, nodes[n].copyTo, todo, del, add, dest0, dest);
      if dest != dest0 {
        del' := del + {dest0};
        if dest !in add {
          add' := add + {dest};
        }
      }
    }

    /** Depth-first search for copy cycles from `n`. */
    method LcdDfs(n: nat, ghost path: set<nat>, ghost from: nat)
      requires Valid(0, {}, {}) && LcdOk(sys, uf.root, T(path), lcdRoots)
      requires Usable(View(S(), 0, {}), n) && n < |lcdNum| && lcdNum[n] == 0
      requires path != {} ==> Tarjan.IsTop(T(path), from) && Below(sys, from, n)
      requires Thorough(S(), T(path), lcdRoots, lcdWhen)
      modifies this`nodes, this`lcdDfsId, this`lcdNum, this`lcdWhen, this`lcdRoots, this`lcdStk, this`currLcdDfs, uf, wl.Repr
      ensures Valid(0, {}, {})
      ensures Visited(sys, old(S()), old(T(path)), old(lcdRoots), S(), T(path), lcdRoots, n)
      ensures Thorough(S(), T(path), lcdRoots, lcdWhen)
      decreases Tarjan.Unvisited(lcdNum), 0
    {
      hide Ok, UnionFind.Encodes, Worklists.Worklist.Valid, Inv, Exploring, Explored, Visited, LcdOk, EdgesDone, LegalPartition, Closed, AtRoot,
        Thorough, AllSeen;
      ghost var st0, t0, roots0 := S(), T(path), lcdRoots;
      OkFacts(sys, st0, 0, {}, {});
      LcdOkFacts(sys, uf.root, t0, lcdRoots);
      ExploreStart(sys, st0, t0, lcdRoots, n, from);
      ThoroughEnter(sys, st0, t0, lcdRoots, lcdWhen, n);
      var ourDfs := currLcdDfs;
      currLcdDfs := currLcdDfs + 1;
      lcdDfsId, lcdNum := lcdDfsId[n := ourDfs], lcdNum[n := ourDfs];
      var del, add: set<nat> := {}, {};
      var todo := nodes[n].copyTo;
      EdgesDoneNone(uf.root, n, todo);
      SeenNone(uf.root, T(path + {n}), n);
      assert nodes[n].copyTo - todo + add == {};
      while todo != {}
        invariant Valid(0, {}, {}) && Exploring(sys, st0, t0, roots0, S(), T(path + {n}), lcdRoots, n)
        invariant n < |nodes| && todo <= nodes[n].copyTo && todo !! del
        invariant EdgesDone(uf.root, n, nodes[n].copyTo, todo, del, add)
        invariant Thorough(S(), T(path + {n}), lcdRoots, lcdWhen)
        invariant AllSeen(uf.root, T(path + {n}), n, nodes[n].copyTo - todo + add)
        decreases todo
      {
        var dest0 :| dest0 in todo;
        ExploringFacts(sys, st0, t0, roots0, S(), T(path + {n}), lcdRoots, n);
        del, add := LcdEdge(n, dest0, del, add, todo, path, st0, t0, roots0);
        todo := todo - {dest0};
      }
      LcdLeave(n, del, add, ourDfs, path, st0, t0, roots0);
    }

    /** Cleans up the edges of `n`, then collapses its component or leaves it
        on the stack. */
    method LcdLeave(n: nat, del: set<nat>, add: set<nat>, ourDfs: nat, ghost path: set<nat>,
                    ghost st0: State, ghost t0: Tarjan.Search, ghost roots0: set<nat>)
      requires Valid(0, {}, {}) && Exploring(sys, st0, t0, roots0, S(), T(path + {n}), lcdRoots, n)
      requires n < |nodes| && EdgesDone(uf.root, n, nodes[n].copyTo, {}, del, add)
      requires t0.path == path && ourDfs == t0.clock
      requires Thorough(S(), T(path + {n}), lcdRoots, lcdWhen) && AllSeen(uf.root, T(path + {n}), n, nodes[n].copyTo - {} + add)
      modifies this`nodes, this`lcdWhen, this`lcdRoots, this`lcdStk, uf, wl.Repr
      ensures Valid(0, {}, {}) && Thorough(S(), T(path), lcdRoots, lcdWhen)
      ensures Visited(sys, st0, t0, roots0, S(), T(path), lcdRoots, n)
    {
      hide Ok, UnionFind.Encodes, Worklists.Worklist.Valid, Inv, Exploring, Explored, Visited, LcdOk, EdgesDone, LegalPartition, Closed, AtRoot,
        Thorough, AllSeen;
      ghost var st, t := S(), T(path + {n});
      OkFacts(sys, st, 0, {}, {});
      ExploringFacts(sys, st0, t0, roots0, st, t, lcdRoots, n);
      RewireOk(sys, st, n, del, add);
      nodes := nodes[n := nodes[n].(copyTo := nodes[n].copyTo - del + add)];
      ExploreRewired(sys, st0, t0, roots0, st, t, lcdRoots, n, S());
      ThoroughRewired(sys, st, S(), t, lcdRoots, lcdWhen, n);
      SeenFewer(uf.root, t, n, st.nodes[n].copyTo - {} + add, nodes[n].copyTo);
      ExploredFacts(sys, st0, t0, roots0, S(), t, lcdRoots, n);
      if lcdDfsId[n] == ourDfs {
        ghost var roots := lcdRoots;
        st := S();
        Collapse(n, path, |t0.stack|);
        assert path + {n} - {n} == path;
        ExploreClosed(sys, st0, t0, roots0, st, t, roots, n, S(), T(path), lcdRoots);
      } else {
        ExplorePushed(sys, st0, t0, roots0, S(), t, lcdRoots, n);
        ThoroughFinish(S(), t, lcdRoots, lcdWhen, n);
        lcdStk := lcdStk + [n];
        assert path + {n} - {n} == path;
      }
    }
  
    /** No node is visited yet. */
    method StartLcd()
      requires Valid(0, {}, {}) && lcdStk == []
      modifies this`lastLcd, this`lcdDfsId, this`lcdNum, this`lcdWhen, this`lcdRoots, this`currLcdDfs
      ensures Valid(0, {}, {}) && LcdOk(sys, uf.root, T({}), lcdRoots) && S() == old(S()) && lastLcd == nodeRuns
      ensures Thorough(S(), T({}), lcdRoots, lcdWhen)
    {
      hide Ok, UnionFind.Encodes, Worklists.Worklist.Valid, LcdOk, Thorough;
      lastLcd := nodeRuns;
      currLcdDfs := 1;
      lcdDfsId, lcdNum := seq(|nodes|, i => 0), seq(|nodes|, i => 0);
      lcdRoots, lcdWhen := {}, map[];
      OkFacts(sys, S(), 0, {}, {});
      LcdBegin(sys, S(), lcdRoots);
      ThoroughStart(sys, S(), T({}));
    }

    /** Looks for copy cycles from every candidate and collapses them. */
    method RunLcd()
      requires Valid(0, {}, {}) && lcdStk == []
      modifies this`nodes, this`lastLcd, this`lcdStarts, this`lcdDfsId, this`lcdNum, this`lcdWhen, this`lcdRoots, this`lcdStk, this`currLcdDfs, uf, wl.Repr
      ensures Valid(0, {}, {}) && lcdStk == []
      ensures Shrunk(old(S()), S())
      ensures forall n :: n in old(lcdStarts) && n < |uf.root| && uf.root[n] == n ==> LeadsToNoCycle(S(), n)
      ensures lcdStarts == {} && lastLcd == nodeRuns
    {
      hide Ok, UnionFind.Encodes, Worklists.Worklist.Valid, Inv, Visited, LcdOk, LegalPartition, Thorough, Reps, Searched, LeadsToNoCycle;
      StartLcd();
      var todo := lcdStarts;
      while todo != {}
        invariant Valid(0, {}, {}) && lcdStk == [] && todo <= lcdStarts && lastLcd == nodeRuns
        invariant LcdOk(sys, uf.root, T({}), lcdRoots)
        invariant Shrunk(old(S()), S())
        invariant Thorough(S(), T({}), lcdRoots, lcdWhen) && lcdStarts == old(lcdStarts)
        invariant forall s :: s in lcdStarts - todo ==> Searched(S(), lcdRoots, s)
        decreases todo
      {
        var n :| n in todo;
        todo := todo - {n};
        ghost var st, roots := S(), lcdRoots;
        LcdFrom(n);
        ShrunkTransitive(old(S()), st, S());
        StillSearched(st, S(), roots, lcdRoots, lcdStarts - todo - {n});
      }
      ghost var starts := lcdStarts;
      lcdStarts := {};
      AllSearched(S(), T({}), lcdRoots, lcdWhen, starts);
    }

    /** Searches from a candidate that is a representative and not visited. */
    method LcdFrom(n: nat)
      requires Valid(0, {}, {}) && lcdStk == [] && n in lcdStarts && LcdOk(sys, uf.root, T({}), lcdRoots)
      requires Thorough(S(), T({}), lcdRoots, lcdWhen)
      modifies this`nodes, this`lcdDfsId, this`lcdNum, this`lcdWhen, this`lcdRoots, this`lcdStk, this`currLcdDfs, uf, wl.Repr
      ensures Valid(0, {}, {}) && lcdStk == [] && LcdOk(sys, uf.root, T({}), lcdRoots)
      ensures Shrunk(old(S()), S())
      ensures Thorough(S(), T({}), lcdRoots, lcdWhen) && old(lcdRoots) <= lcdRoots && Searched(S(), lcdRoots, n)
    {
      hide Ok, UnionFind.Encodes, Worklists.Worklist.Valid, Inv, Visited, LcdOk, LegalPartition, Thorough, Reps, Searched;
      LcdOkFacts(sys, uf.root, T({}), lcdRoots);
      VisitedNum(sys, uf.root, T({}), lcdRoots, n);
      if uf.IsRep(n) && lcdDfsId[n] == 0 {
        ghost var st, t, roots := S(), T({}), lcdRoots;
        LcdDfs(n, {}, 0);
        RootCloses(sys, st, t, roots, S(), T({}), lcdRoots, n);
      }
      WasSearched(sys, S(), T({}), lcdRoots, n);
    }

    /** Enters all constraints into the graph and queues every node that points
        to something and has somewhere to send it. */
    method SolveInit()
      requires Separate() && Legal(sys) && constraints == sys.cons && uf.root == sys.root
      requires nodes == seq(sys.n, i => BLANK) && cplx == [] && wl.now == map[] && wl.later == map[] && lcdStarts == {}
      modifies this`constraints, this`nodes, this`cplx, uf`rep, wl.Repr
      ensures Valid(0, {}, {})
    {
      hide Ok, UnionFind.Encodes, Worklists.Worklist.Valid, Built, Started, LegalPartition;
      BuiltEmpty(sys, View(S(), 0, {}));
      var i := 0;
      while i < |constraints|
        invariant Separate() && i <= |constraints| && constraints == sys.cons && wl.now == map[] && wl.later == map[]
        invariant uf.root == sys.root && Built(sys, View(S(), 0, {}), i)
      {
        var c := constraints[i];
        EnterBuilds(sys, View(S(), 0, {}), i);
        assert c in sys.cons;
        var dest := uf.GetRep(c.dest);
        var src := uf.GetRep(c.src);
        nodes := Entered(nodes, c.(dest := dest, src := src), |cplx|);
        if c.Load? || c.Store? {
          cplx := cplx + [c];
        }
        i := i + 1;
      }
      constraints := [];
      StartInitial();
    }

    /** The initial worklist. */
    method StartInitial()
      requires Separate() && wl.now == map[] && wl.later == map[] && lcdStarts == {}
      requires Built(sys, View(S(), 0, {}), |sys.cons|)
      modifies this`nodes, wl.Repr
      ensures Valid(0, {}, {})
    {
      hide Ok, UnionFind.Encodes, Worklists.Worklist.Valid, Built, LegalPartition;
      var i := 0;
      while i < |nodes|
        invariant Separate() && i <= |nodes| && wl.now == map[]
        invariant Started(sys, S(), i)
      {
        if uf.IsRep(i) && Startable(nodes[i]) {
          wl.Push(i, 0);
        }
        i := i + 1;
      }
      StartedOk(sys, S());
      SwapOk(sys, S());
      var _ := wl.SwapIfEmpty();
    }
  
    /** Handles one entry taken off the worklist: skips it if the node was
        merged away or visited since, visits the node otherwise, and then looks
        for cycles if it is time to. */
    method Dispatch(n: nat, p: nat)
      requires Valid(0, {}, {n}) && lcdStk == [] && n < |nodes|
      requires uf.root[n] != n || p < nodes[n].vtime ==> Valid(0, {}, {})
      modifies this`nodes, this`cplx, this`vtime, this`nodeRuns, this`lastLcd, this`lcdEdges, this`lcdStarts,
               this`lcdDfsId, this`lcdNum, this`lcdWhen, this`lcdRoots, this`lcdStk, this`currLcdDfs, uf, wl.Repr
      ensures Valid(0, {}, {}) && lcdStk == []
      ensures Less(old(S()), S())
      ensures old(uf.root[n] == n && p >= nodes[n].vtime) ==> |lcdStarts| < LCD_SIZE && nodeRuns - lastLcd < LCD_PERIOD
      ensures forall s :: s in old(lcdStarts) ==> s in lcdStarts || (s < |uf.root| && uf.root[s] == s ==> LeadsToNoCycle(S(), s))
    {
      hide Ok, Worklists.Worklist.Valid, Inv, LegalPartition, Unseen, Reps, LeadsToNoCycle;
      if !uf.IsRep(n) || p < nodes[n].vtime {
        return;
      }
      SolveNode(n);
      ghost var st := S();
      if |lcdStarts| >= LCD_SIZE || nodeRuns - lastLcd >= LCD_PERIOD {
        RunLcd();
      }
    }

    /** The points-to set of every node, read through its representative. */
    method Read() returns (pts: seq<set<nat>>)
      requires Separate() && LegalPartition(uf.root)
      ensures pts == Result(View(S(), 0, {}))
    {
      pts := [];
      for i := 0 to |nodes|
        invariant |pts| == i
        invariant forall j :: 0 <= j < i ==> pts[j] == nodes[uf.root[j]].pts
      {
        var r := uf.ConstGetRep(i);
        pts := pts + [nodes[r].pts];
      }
    }

    /** Turns to the next pass if the current one is finished. */
    method NextPass() returns (done: bool)
      requires Valid(0, {}, {})
      modifies wl.Repr
      ensures Valid(0, {}, {})
      ensures if done then wl.now == map[] && wl.later == map[] else wl.now != map[]
      ensures |wl.now| + |wl.later| == old(|wl.now| + |wl.later|)
    {
      hide Ok, UnionFind.Encodes, Worklists.Worklist.Valid;
      done := false;
      if wl.now == map[] {
        SwapOk(sys, S());
      }
      var swapped := wl.SwapIfEmpty();
      if swapped {
        done := wl.Empty();
      }
    }

    /** Takes one entry off the worklist and handles it. */
    method Step()
      requires Valid(0, {}, {}) && lcdStk == [] && wl.now != map[]
      modifies this`nodes, this`cplx, this`vtime, this`nodeRuns, this`lastLcd, this`lcdEdges, this`lcdStarts,
               this`lcdDfsId, this`lcdNum, this`lcdWhen, this`lcdRoots, this`lcdStk, this`currLcdDfs, uf, wl.Repr
      ensures Valid(0, {}, {}) && lcdStk == []
      ensures || Reps(uf.root) < old(Reps(uf.root))
              || (Reps(uf.root) == old(Reps(uf.root)) &&
                  (|| Unseen(nodes) < old(Unseen(nodes))
                   || (Unseen(nodes) == old(Unseen(nodes)) && |wl.now| + |wl.later| < old(|wl.now| + |wl.later|))))
    {
      hide Ok, UnionFind.Encodes, Worklists.Worklist.Valid, Unseen, Reps;
      ghost var now := wl.now;
      var n, p := wl.Pop();
      PopOk(sys, old(S()), n);
      assert now.Keys == wl.now.Keys + {n} && |now| == |wl.now| + 1;
      Dispatch(n, p);
    }

    /** Visits queued nodes until none is left. The points-to sets, read
        through representatives, are then the least solution. */
    method Solve()
      requires Valid(0, {}, {}) && lcdStk == []
      modifies this`nodes, this`cplx, this`vtime, this`nodeRuns, this`lastLcd, this`lcdEdges, this`lcdStarts,
               this`lcdDfsId, this`lcdNum, this`lcdWhen, this`lcdRoots, this`lcdStk, this`currLcdDfs, uf, wl.Repr
      ensures Separate() && LegalPartition(uf.root)
      ensures LeastSolution(sys, Result(View(S(), 0, {})))
    {
      hide Ok, UnionFind.Encodes, Worklists.Worklist.Valid, LegalPartition, LeastSolution, Unseen, Reps;
      nodeRuns, lastLcd, vtime := 0, 0, 1;
      var done := NextPass();
      while !done
        invariant Valid(0, {}, {}) && lcdStk == []
        invariant if done then wl.now == map[] && wl.later == map[] else wl.now != map[]
        decreases Reps(uf.root), Unseen(nodes), |wl.now| + |wl.later|
      {
        Step();
        done := NextPass();
      }
      Converged(sys, S());
    }
  }

  /** The whole run: from a constraint list over partly unified nodes to the
      least solution, read through the final representatives. */
  method Analyze(p: UnionFind.Partition, cs: seq<Constraint>) returns (pts: seq<set<nat>>)
    requires p.Valid() && Legal(System(|p.root|, p.root, cs))
    modifies p
    ensures LeastSolution(old(System(|p.root|, p.root, cs)), pts)
  {
    var a := new Andersen(p, cs);
    a.SolveInit();
    a.Solve();
    pts := a.Read();
  }
}
