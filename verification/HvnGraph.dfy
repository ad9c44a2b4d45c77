/** The offline graph of value numbering: one node for each variable and one
    for what it points to. */
module HvnGraph {
  import opened Constraints
  import O = OfflineGraph

  /** Which offline node a node of the main graph gets: none (most objects),
      one for the parameter or result of a function, or one for a value. */
  datatype Kind = NoNode | Param | Val

  /** What the pass starts from: constraints are between representatives; only
      objects have their address taken; dereferenced variables and stored
      values have offline nodes. */
  ghost predicate Prepared(sys: System, kind: seq<Kind>) {
    && Legal(sys) && |kind| == sys.n && kind[0] == NoNode && kind[I2P] == NoNode
    && (forall c :: c in sys.cons ==>
          && (c.AddrOf? ==> kind[c.src] != Val)
          && ((c.Load? || c.Store?) && kind[c.dest] != NoNode ==> kind[c.src] != NoNode))
  }

  /** Offline nodes 1..k stand for variables, parameters before `firstVal`;
      node p + k stands for what p points to. `back` undoes `m2o`. */
  datatype Numbering = Numbering(m2o: seq<nat>, firstVal: nat, k: nat, back: seq<nat>)

  ghost predicate NumberAt(root: seq<nat>, kind: seq<Kind>, nb: Numbering, i: nat)
    requires i < |root| == |kind| == |nb.m2o| && |nb.back| == nb.k + 1
  {
    && nb.m2o[i] <= nb.k
    && (nb.m2o[i] == 0 <==> kind[i] == NoNode || root[i] != i)
    && (nb.m2o[i] != 0 ==> (nb.m2o[i] < nb.firstVal <==> kind[i] == Param) && nb.back[nb.m2o[i]] == i)
  }

  ghost predicate Numbered(root: seq<nat>, kind: seq<Kind>, nb: Numbering) {
    && |root| == |kind| == |nb.m2o| && |nb.back| == nb.k + 1 && 1 <= nb.firstVal
    && (forall i :: 0 <= i < |root| ==> NumberAt(root, kind, nb, i))
    && (forall p :: 0 < p <= nb.k ==> nb.back[p] < |root| && nb.m2o[nb.back[p]] == p)
  }

  // The edges.

  /** What one constraint contributes. */
  datatype Part = Part(direct: set<(nat, nat)>, implied: set<(nat, nat)>, pre: set<(nat, nat)>, indirect: set<nat>)

  ghost function PartOf(c: Constraint, m2o: seq<nat>, k: nat): (p: Part)
    requires c.dest < |m2o| && c.src < |m2o|
  {
    var od, os := m2o[c.dest], m2o[c.src];
    if od == 0 then Part({}, {}, {}, {})
    else match c
      case AddrOf(_, o) => Part({}, if os != 0 then {(od + k, os)} else {}, {(od, o)}, {})
      case Copy(_, _) => if os != 0 then Part({(od, os)}, {(od + k, os + k)}, {}, {}) else Part({}, {}, {}, {od})
      case Load(_, _) => Part({(od, os + k)}, {}, {}, {})
      case Store(_, _) => Part({(od + k, os)}, {}, {}, {})
  }

  ghost predicate InNodes(cons: seq<Constraint>, n: nat) {
    forall c :: c in cons ==> c.dest < n && c.src < n
  }

  ghost predicate HasDirect(cons: seq<Constraint>, m2o: seq<nat>, k: nat, v: nat, e: nat)
    requires InNodes(cons, |m2o|)
  {
    exists c :: c in cons && (v, e) in PartOf(c, m2o, k).direct
  }

  ghost predicate HasImplied(cons: seq<Constraint>, m2o: seq<nat>, k: nat, v: nat, e: nat)
    requires InNodes(cons, |m2o|)
  {
    exists c :: c in cons && (v, e) in PartOf(c, m2o, k).implied
  }

  ghost predicate HasPre(cons: seq<Constraint>, m2o: seq<nat>, k: nat, v: nat, e: nat)
    requires InNodes(cons, |m2o|)
  {
    exists c :: c in cons && (v, e) in PartOf(c, m2o, k).pre
  }

  ghost predicate HasIndirect(cons: seq<Constraint>, m2o: seq<nat>, k: nat, v: nat)
    requires InNodes(cons, |m2o|)
  {
    exists c :: c in cons && v in PartOf(c, m2o, k).indirect
  }

  ghost predicate NodeFor(cons: seq<Constraint>, nb: Numbering, g: O.Graph, v: nat)
    requires InNodes(cons, |nb.m2o|) && v < |g.direct| == |g.implied| == |g.pre| == |g.indirect|
  {
    && (forall e :: e in g.direct[v] <==> HasDirect(cons, nb.m2o, nb.k, v, e))
    && (forall e :: e in g.implied[v] <==> HasImplied(cons, nb.m2o, nb.k, v, e))
    && (forall e :: e in g.pre[v] <==> HasPre(cons, nb.m2o, nb.k, v, e))
    && (g.indirect[v] <==> 0 < v < nb.firstVal || nb.k < v || HasIndirect(cons, nb.m2o, nb.k, v))
  }

  /** The graph consists of what the constraints contribute; parameters and
      dereferenced variables are indirect. */
  ghost predicate GraphFor(cons: seq<Constraint>, nb: Numbering, g: O.Graph)
    requires InNodes(cons, |nb.m2o|)
  {
    && |g.direct| == |g.implied| == |g.pre| == |g.indirect| == 2 * nb.k + 1
    && forall v :: 0 <= v < 2 * nb.k + 1 ==> NodeFor(cons, nb, g, v)
  }

  ghost predicate Adds(sets: seq<set<nat>>, sets': seq<set<nat>>, pairs: set<(nat, nat)>, v: nat)
    requires v < |sets| == |sets'|
  {
    forall e :: e in sets'[v] <==> e in sets[v] || (v, e) in pairs
  }

  ghost predicate AddsPart(g: O.Graph, g': O.Graph, p: Part, v: nat)
    requires v < |g.direct| == |g.implied| == |g.pre| == |g.indirect|
    requires |g.direct| == |g'.direct| == |g'.implied| == |g'.pre| == |g'.indirect|
  {
    && Adds(g.direct, g'.direct, p.direct, v) && Adds(g.implied, g'.implied, p.implied, v) && Adds(g.pre, g'.pre, p.pre, v)
    && (g'.indirect[v] <==> g.indirect[v] || v in p.indirect)
  }

  lemma GraphMore(cons: seq<Constraint>, c: Constraint, nb: Numbering, g: O.Graph, g': O.Graph)
    requires InNodes(cons, |nb.m2o|) && c.dest < |nb.m2o| && c.src < |nb.m2o| && GraphFor(cons, nb, g)
    requires |g'.direct| == |g'.implied| == |g'.pre| == |g'.indirect| == 2 * nb.k + 1
    requires forall v :: 0 <= v < 2 * nb.k + 1 ==> AddsPart(g, g', PartOf(c, nb.m2o, nb.k), v)
    ensures InNodes(cons + [c], |nb.m2o|) && GraphFor(cons + [c], nb, g')
  {
    hide PartOf;
    var cs := cons + [c];
    forall v | 0 <= v < 2 * nb.k + 1
      ensures NodeFor(cs, nb, g', v)
    {
      assert NodeFor(cons, nb, g, v) && AddsPart(g, g', PartOf(c, nb.m2o, nb.k), v);
      HasMore(cons, c, nb, v);
    }
  }

  lemma HasMore(cons: seq<Constraint>, c: Constraint, nb: Numbering, v: nat)
    requires InNodes(cons, |nb.m2o|) && c.dest < |nb.m2o| && c.src < |nb.m2o|
    ensures InNodes(cons + [c], |nb.m2o|)
    ensures var p := PartOf(c, nb.m2o, nb.k);
      && (forall e: nat :: HasDirect(cons + [c], nb.m2o, nb.k, v, e) <==> HasDirect(cons, nb.m2o, nb.k, v, e) || (v, e) in p.direct)
      && (forall e: nat :: HasImplied(cons + [c], nb.m2o, nb.k, v, e) <==> HasImplied(cons, nb.m2o, nb.k, v, e) || (v, e) in p.implied)
      && (forall e: nat :: HasPre(cons + [c], nb.m2o, nb.k, v, e) <==> HasPre(cons, nb.m2o, nb.k, v, e) || (v, e) in p.pre)
      && (HasIndirect(cons + [c], nb.m2o, nb.k, v) <==> HasIndirect(cons, nb.m2o, nb.k, v) || v in p.indirect)
  {
  }

  // Values that make every edge an inclusion.

  ghost function OffValue(s: Assignment, nb: Numbering, v: nat): set<nat> {
    if 0 < v <= nb.k && v < |nb.back| && nb.back[v] < |s| then s[nb.back[v]]
    else if nb.k < v <= 2 * nb.k && v - nb.k < |nb.back| && nb.back[v - nb.k] < |s| then Deref(s, nb.back[v - nb.k])
    else {}
  }

  /** Every store goes through a pointer that points to something that can be
      stored to, or stores nothing. */
  ghost predicate Grounded(sys: System, s: Assignment)
    requires |s| == sys.n && InNodes(sys.cons, sys.n)
  {
    forall c :: c in sys.cons && c.Store? ==> GroundedAt(s, c)
  }

  ghost predicate GroundedAt(s: Assignment, c: Constraint)
    requires c.dest < |s| && c.src < |s|
  {
    s[c.src] == {} || exists x :: x in s[c.dest] && x != I2P
  }

  /** The values of the offline nodes of one variable. */
  lemma ValueOf(sys: System, kind: seq<Kind>, nb: Numbering, s: Assignment, i: nat)
    requires Prepared(sys, kind) && Numbered(sys.root, kind, nb) && |s| == sys.n && i < sys.n && nb.m2o[i] != 0
    ensures OffValue(s, nb, nb.m2o[i]) == s[i] && OffValue(s, nb, nb.m2o[i] + nb.k) == Deref(s, i)
    ensures 0 < nb.m2o[i] <= nb.k
  {
    hide Deref;
    assert NumberAt(sys.root, kind, nb, i);
  }

  /** An edge that a constraint contributes is an inclusion in a solution. */
  lemma PartFits(sys: System, kind: seq<Kind>, nb: Numbering, s: Assignment, c: Constraint, v: nat, e: nat)
    requires Prepared(sys, kind) && Numbered(sys.root, kind, nb) && Solution(sys, s) && c in sys.cons
    requires c.Store? ==> GroundedAt(s, c)
    requires (v, e) in PartOf(c, nb.m2o, nb.k).direct || (v, e) in PartOf(c, nb.m2o, nb.k).implied
    ensures 0 < e <= 2 * nb.k && OffValue(s, nb, e) <= OffValue(s, nb, v)
  {
    PartShape(sys, kind, nb, c);
    assert Satisfied(c, s);
    var od, os := nb.m2o[c.dest], nb.m2o[c.src];
    ValueOf(sys, kind, nb, s, c.dest);
    ValueOf(sys, kind, nb, s, c.src);
    hide OffValue, Numbered, Prepared, Solution;
    match c
    case AddrOf(d, o) =>
    case Copy(d, o) =>
    case Load(d, o) =>
    case Store(d, o) =>
  }

  /** A constraint that contributes an edge has offline nodes on both sides. */
  lemma PartShape(sys: System, kind: seq<Kind>, nb: Numbering, c: Constraint)
    requires Prepared(sys, kind) && Numbered(sys.root, kind, nb) && c in sys.cons
    ensures c.dest < |nb.m2o| && c.src < |nb.m2o| && LegalConstraint(c, sys.n)
    ensures c.AddrOf? && nb.m2o[c.src] != 0 ==> c.src != I2P
    ensures nb.m2o[c.dest] != 0 && (c.Load? || c.Store?) ==> nb.m2o[c.src] != 0
    ensures nb.m2o[c.dest] == 0 <==> kind[c.dest] == NoNode
    ensures nb.m2o[c.src] == 0 <==> kind[c.src] == NoNode
    ensures kind[c.src] == Param ==> 0 < nb.m2o[c.src] < nb.firstVal
  {
    assert NumberAt(sys.root, kind, nb, c.dest) && NumberAt(sys.root, kind, nb, c.src);
  }

  // Two assignments of values that fit.

  /** Every starting label stands for itself. */
  ghost function OwnMeaning(n: nat): O.Meaning {
    map l | l in AllNodes(n) && l != 0 :: {l}
  }

  lemma GraphFormed(sys: System, kind: seq<Kind>, nb: Numbering, g: O.Graph)
    requires Prepared(sys, kind) && Numbered(sys.root, kind, nb) && InNodes(sys.cons, |nb.m2o|) && GraphFor(sys.cons, nb, g)
    ensures O.WellFormed(g)
    ensures forall v, l :: 0 <= v < |g.pre| && l in g.pre[v] ==> 0 < l < sys.n
  {
    hide Prepared, Numbered;
    forall v | 0 <= v < |g.direct|
      ensures O.EdgesFormed(g, v) && forall l :: l in g.pre[v] ==> 0 < l < sys.n
    {
      assert NodeFor(sys.cons, nb, g, v);
      forall e | e in O.Succ(g, v)
        ensures 0 < e < |g.direct|
      {
        if e in g.direct[v] {
          var c :| c in sys.cons && (v, e) in PartOf(c, nb.m2o, nb.k).direct;
          PartRange(sys, kind, nb, c);
        } else {
          var c :| c in sys.cons && (v, e) in PartOf(c, nb.m2o, nb.k).implied;
          PartRange(sys, kind, nb, c);
        }
      }
      forall l | l in g.pre[v]
        ensures 0 < l < sys.n
      {
        var c :| c in sys.cons && (v, l) in PartOf(c, nb.m2o, nb.k).pre;
        PartRange(sys, kind, nb, c);
      }
    }
  }

  lemma PartRange(sys: System, kind: seq<Kind>, nb: Numbering, c: Constraint)
    requires Prepared(sys, kind) && Numbered(sys.root, kind, nb) && c in sys.cons
    ensures c.dest < |nb.m2o| && c.src < |nb.m2o|
    ensures var p := PartOf(c, nb.m2o, nb.k);
      && (forall q :: q in p.direct || q in p.implied ==> 0 < q.1 < 2 * nb.k + 1)
      && (forall q :: q in p.pre ==> 0 < q.1 < sys.n)
  {
    PartShape(sys, kind, nb, c);
    assert NumberAt(sys.root, kind, nb, c.src);
  }

  /** The points-to sets of a solution fit if its stores are grounded. */
  lemma SolutionFits(sys: System, kind: seq<Kind>, nb: Numbering, g: O.Graph, s: Assignment)
    requires Prepared(sys, kind) && Numbered(sys.root, kind, nb) && InNodes(sys.cons, |nb.m2o|) && GraphFor(sys.cons, nb, g)
    requires Solution(sys, s) && Grounded(sys, s)
    ensures O.Fits(g, seq(2 * nb.k + 1, (v: nat) => OffValue(s, nb, v)), OwnMeaning(sys.n))
  {
    GraphFormed(sys, kind, nb, g);
    hide Prepared, Numbered, OffValue, O.WellFormed, PartOf, Solution;
    var val := seq(2 * nb.k + 1, (v: nat) => OffValue(s, nb, v));
    forall v | 0 <= v < |val|
      ensures O.FitsAt(g, val, OwnMeaning(sys.n), v)
    {
      assert NodeFor(sys.cons, nb, g, v);
      forall w | w in O.Succ(g, v) && w < |val|
        ensures val[w] <= val[v]
      {
        EdgeFits(sys, kind, nb, g, s, v, w);
      }
      forall l | l in g.pre[v]
        ensures l in OwnMeaning(sys.n) && {l} <= val[v]
      {
        var c :| c in sys.cons && (v, l) in PartOf(c, nb.m2o, nb.k).pre;
        PreFits(sys, kind, nb, s, c, v, l);
      }
    }
  }

  lemma EdgeFits(sys: System, kind: seq<Kind>, nb: Numbering, g: O.Graph, s: Assignment, v: nat, w: nat)
    requires Prepared(sys, kind) && Numbered(sys.root, kind, nb) && InNodes(sys.cons, |nb.m2o|) && GraphFor(sys.cons, nb, g)
    requires Solution(sys, s) && Grounded(sys, s) && v < |g.direct| && w in O.Succ(g, v)
    ensures OffValue(s, nb, w) <= OffValue(s, nb, v)
  {
    hide Prepared, Numbered, OffValue, PartOf;
    assert NodeFor(sys.cons, nb, g, v);
    if w in g.direct[v] {
      var c :| c in sys.cons && (v, w) in PartOf(c, nb.m2o, nb.k).direct;
      PartFits(sys, kind, nb, s, c, v, w);
    } else {
      var c :| c in sys.cons && (v, w) in PartOf(c, nb.m2o, nb.k).implied;
      PartFits(sys, kind, nb, s, c, v, w);
    }
  }

  lemma PreFits(sys: System, kind: seq<Kind>, nb: Numbering, s: Assignment, c: Constraint, v: nat, l: nat)
    requires Prepared(sys, kind) && Numbered(sys.root, kind, nb) && Solution(sys, s) && c in sys.cons
    requires c.dest < |nb.m2o| && c.src < |nb.m2o| && (v, l) in PartOf(c, nb.m2o, nb.k).pre
    ensures 0 < l < sys.n && l in OffValue(s, nb, v)
  {
    PartShape(sys, kind, nb, c);
    ValueOf(sys, kind, nb, s, c.dest);
    assert Satisfied(c, s);
  }

  /** Giving every node every value always fits. */
  lemma EverythingFits(sys: System, kind: seq<Kind>, nb: Numbering, g: O.Graph)
    requires Prepared(sys, kind) && Numbered(sys.root, kind, nb) && InNodes(sys.cons, |nb.m2o|) && GraphFor(sys.cons, nb, g)
    ensures O.Fits(g, seq(2 * nb.k + 1, v => AllNodes(sys.n)), OwnMeaning(sys.n))
  {
    GraphFormed(sys, kind, nb, g);
    hide Prepared, Numbered, GraphFor, AllNodes;
    var val := seq(2 * nb.k + 1, v => AllNodes(sys.n));
    assert |g.direct| == 2 * nb.k + 1 by { GraphSize(sys, nb, g); }
    forall v | 0 <= v < |val|
      ensures O.FitsAt(g, val, OwnMeaning(sys.n), v)
    {
    }
  }

  lemma GraphSize(sys: System, nb: Numbering, g: O.Graph)
    requires InNodes(sys.cons, |nb.m2o|) && GraphFor(sys.cons, nb, g)
    ensures |g.direct| == 2 * nb.k + 1
  {
  }
}
