/** What rewriting a constraint list after value numbering keeps. */
module HvnMeaning {
  import opened Constraints
  import opened HvnGraph
  import opened LabelMerging
  import O = OfflineGraph
  import Q = OfflineSearch

  /** The labels of the nodes of the main graph; none without offline node. */
  ghost predicate LabelsRead(nb: Numbering, s: O.Off, lab: seq<set<nat>>) {
    && |lab| == |nb.m2o|
    && forall i :: 0 <= i < |lab| ==> LabelReadAt(nb, s, lab, i)
  }

  ghost predicate LabelReadAt(nb: Numbering, s: O.Off, lab: seq<set<nat>>, i: nat)
    requires i < |lab| == |nb.m2o|
  {
    var p := nb.m2o[i];
    && (p == 0 ==> lab[i] == {})
    && (p != 0 ==> p < |s.root| && s.root[p] < |s.labels| && lab[i] == s.labels[s.root[p]])
  }

  /** Nodes labelled 0 are marked; of the others, those with equal labels are
      merged, and nothing else is. */
  ghost predicate MergedPtr(root0: seq<nat>, lab: seq<set<nat>>, root: seq<nat>, nonptr: seq<bool>) {
    MergedByLabel(root0, lab, root) && Marked(lab, nonptr)
  }

  /** A constraint between representatives; the object of an address-of is not
      replaced. */
  function Rewrite(c: Constraint, root: seq<nat>): (c': Constraint)
    requires c.dest < |root| && c.src < |root|
  {
    if c.AddrOf? then c.(dest := root[c.dest]) else c.(dest := root[c.dest], src := root[c.src])
  }

  predicate Kept(c: Constraint, root: seq<nat>, nonptr: seq<bool>)
    requires c.dest < |root| == |nonptr| && c.src < |root|
  {
    && !nonptr[c.dest] && !nonptr[c.src]
    && !(c.Copy? && root[c.dest] == root[c.src])
  }

  /** The rewritten list has exactly the rewritten constraints that are kept,
      each once. */
  ghost predicate RewrittenBy(cons: seq<Constraint>, root: seq<nat>, nonptr: seq<bool>, cons': seq<Constraint>) {
    && |root| == |nonptr| && InNodes(cons, |root|)
    && (forall c :: c in cons && Kept(c, root, nonptr) ==> Rewrite(c, root) in cons')
    && (forall c' :: c' in cons' ==> exists c :: c in cons && Kept(c, root, nonptr) && Rewrite(c, root) == c')
    && (forall i, j :: 0 <= i < j < |cons'| ==> cons'[i] != cons'[j])
  }

  // A node labelled 0 only receives copies from nodes labelled 0.

  lemma LabelZero(sys: System, kind: seq<Kind>, nb: Numbering, g: O.Graph, val: seq<set<nat>>, s: O.Off, lab: seq<set<nat>>, c: Constraint)
    requires Prepared(sys, kind) && Numbered(sys.root, kind, nb) && InNodes(sys.cons, |nb.m2o|) && GraphFor(sys.cons, nb, g)
    requires Q.AllLabelled(g, val, s) && LabelsRead(nb, s, lab) && c in sys.cons
    ensures c.dest < |lab| && c.src < |lab|
    ensures 0 in lab[c.dest] ==> c.Store? || (c.Copy? && 0 in lab[c.src])
    ensures c.AddrOf? ==> 0 !in lab[c.src]
  {
    PartShape(sys, kind, nb, c);
    var od, os := nb.m2o[c.dest], nb.m2o[c.src];
    assert LabelReadAt(nb, s, lab, c.dest) && LabelReadAt(nb, s, lab, c.src);
    if od != 0 {
      PartHere(sys, kind, nb, g, c);
      DestLabel(sys, kind, nb, g, val, s, c);
    }
    if c.AddrOf? && os != 0 {
      ParamLabel(sys, kind, nb, g, val, s, c.src);
    }
  }

  /** What a constraint contributes is in the graph. */
  lemma PartHere(sys: System, kind: seq<Kind>, nb: Numbering, g: O.Graph, c: Constraint)
    requires Prepared(sys, kind) && Numbered(sys.root, kind, nb) && InNodes(sys.cons, |nb.m2o|) && GraphFor(sys.cons, nb, g)
    requires c in sys.cons && nb.m2o[c.dest] != 0
    ensures var od, os := nb.m2o[c.dest], nb.m2o[c.src];
      && 0 < od <= nb.k && |g.direct| == |g.pre| == |g.indirect| == 2 * nb.k + 1
      && (c.AddrOf? ==> c.src in g.pre[od])
      && (c.Copy? && os != 0 ==> os in g.direct[od])
      && (c.Copy? && os == 0 ==> g.indirect[od])
      && (c.Load? ==> os + nb.k in g.direct[od] && os != 0)
  {
    PartShape(sys, kind, nb, c);
    var od, os := nb.m2o[c.dest], nb.m2o[c.src];
    assert NumberAt(sys.root, kind, nb, c.dest);
    assert NodeFor(sys.cons, nb, g, od);
    hide Prepared, Numbered;
    match c
    case AddrOf(_, o) =>
      assert (od, o) in PartOf(c, nb.m2o, nb.k).pre && HasPre(sys.cons, nb.m2o, nb.k, od, o);
    case Copy(_, _) =>
      if os != 0 {
        assert (od, os) in PartOf(c, nb.m2o, nb.k).direct && HasDirect(sys.cons, nb.m2o, nb.k, od, os);
      } else {
        assert od in PartOf(c, nb.m2o, nb.k).indirect && HasIndirect(sys.cons, nb.m2o, nb.k, od);
      }
    case Load(_, _) =>
      assert (od, os + nb.k) in PartOf(c, nb.m2o, nb.k).direct && HasDirect(sys.cons, nb.m2o, nb.k, od, os + nb.k);
    case Store(_, _) =>
  }

  lemma DestLabel(sys: System, kind: seq<Kind>, nb: Numbering, g: O.Graph, val: seq<set<nat>>, s: O.Off, c: Constraint)
    requires Prepared(sys, kind) && Numbered(sys.root, kind, nb) && InNodes(sys.cons, |nb.m2o|) && GraphFor(sys.cons, nb, g)
    requires Q.AllLabelled(g, val, s) && c in sys.cons && nb.m2o[c.dest] != 0
    ensures var od, os := nb.m2o[c.dest], nb.m2o[c.src];
      && od < |s.root| && s.root[od] < |s.labels|
      && (0 in s.labels[s.root[od]] ==>
            c.Store? || (c.Copy? && 0 < os < |s.root| && s.root[os] < |s.labels| && 0 in s.labels[s.root[os]]))
  {
    PartHere(sys, kind, nb, g, c);
    PartShape(sys, kind, nb, c);
    hide Prepared, O.Worth;
    var od, os := nb.m2o[c.dest], nb.m2o[c.src];
    assert O.Labelled(g, val, s, od);
    if c.Copy? && os != 0 {
      assert O.EdgeLabelled(s, od, os);
    } else if c.Load? {
      assert O.EdgeLabelled(s, od, os + nb.k);
      assert NumberAt(sys.root, kind, nb, c.src);
      assert NodeFor(sys.cons, nb, g, os + nb.k) && O.Labelled(g, val, s, os + nb.k);
    }
  }

  lemma ParamLabel(sys: System, kind: seq<Kind>, nb: Numbering, g: O.Graph, val: seq<set<nat>>, s: O.Off, i: nat)
    requires Numbered(sys.root, kind, nb) && InNodes(sys.cons, |nb.m2o|) && GraphFor(sys.cons, nb, g)
    requires Q.AllLabelled(g, val, s) && i < |nb.m2o| && nb.m2o[i] != 0 && kind[i] != Val
    ensures var p := nb.m2o[i]; p < |s.root| && s.root[p] < |s.labels| && 0 !in s.labels[s.root[p]]
    ensures nb.m2o[i] < |g.indirect| && g.indirect[nb.m2o[i]]
  {
    hide O.Worth;
    assert NumberAt(sys.root, kind, nb, i);
    assert NodeFor(sys.cons, nb, g, nb.m2o[i]) && O.Labelled(g, val, s, nb.m2o[i]);
  }

  // Soundness: from a solution of the rewritten list to one of the original.

  ghost predicate IsTaken(cons: seq<Constraint>, x: nat) {
    exists c :: c in cons && c.AddrOf? && c.src == x
  }

  /** Read through representatives, with nothing for marked nodes. */
  ghost function PullBack(sys: System, nonptr: seq<bool>, s: Assignment): (t: Assignment)
    requires |s| == |nonptr| == sys.n == |sys.root| && forall i :: 0 <= i < sys.n ==> sys.root[i] < sys.n
  {
    seq(sys.n, i requires 0 <= i < sys.n => if nonptr[sys.root[i]] then {} else s[i])
  }

  /** The same, with only targets whose address is taken. */
  ghost function TakenPullBack(sys: System, nonptr: seq<bool>, s: Assignment): (t: Assignment)
    requires |s| == |nonptr| == sys.n == |sys.root| && forall i :: 0 <= i < sys.n ==> sys.root[i] < sys.n
  {
    seq(sys.n, i requires 0 <= i < sys.n => if nonptr[sys.root[i]] then {} else set x | x in s[i] && IsTaken(sys.cons, x))
  }

  /** Constraint `c` is satisfied because the rewritten one is. */
  lemma RewrittenSatisfied(c: Constraint, root: seq<nat>, s: Assignment)
    requires |root| == |s| && c.dest < |s| && c.src < |s| && InRange(s)
    requires forall i :: 0 <= i < |s| ==> root[i] < |s| && s[i] == s[root[i]]
    ensures Satisfied(Rewrite(c, root), s) <==> Satisfied(c, s)
  {
  }

  /** What holds of every constraint that is dropped or kept. */
  ghost predicate Consistent(sys: System, lab: seq<set<nat>>) {
    && |lab| == sys.n
    && forall c :: c in sys.cons ==>
         && c.dest < |lab| && c.src < |lab|
         && (0 in lab[c.dest] ==> c.Store? || (c.Copy? && 0 in lab[c.src]))
         && (c.AddrOf? ==> 0 !in lab[c.src])
  }

  lemma PullBackSatisfies(sys: System, lab: seq<set<nat>>, root: seq<nat>, nonptr: seq<bool>, cons': seq<Constraint>, s: Assignment, c: Constraint)
    requires Legal(sys) && Consistent(sys, lab) && MergedPtr(sys.root, lab, root, nonptr) && RewrittenBy(sys.cons, root, nonptr, cons')
    requires Solution(System(sys.n, root, cons'), s) && c in sys.cons
    ensures c.dest < sys.n && c.src < sys.n && Satisfied(c, TakenPullBack(sys, nonptr, s))
  {
    var t := TakenPullBack(sys, nonptr, s);
    assert LegalConstraint(c, sys.n) && sys.root[c.dest] == c.dest && sys.root[c.src] == c.src;
    assert c.AddrOf? ==> IsTaken(sys.cons, c.src);
    if !nonptr[c.dest] && !nonptr[c.src] {
      assert Satisfied(c, s) by { KeptSatisfied(sys, root, nonptr, cons', s, c); }
    }
    hide MergedPtr, RewrittenBy, Solution, Rewrite;
    assert nonptr[c.dest] ==> 0 in lab[c.dest] by { MarkedZero(sys.root, lab, root, nonptr, c.dest); }
    MarkedZero(sys.root, lab, root, nonptr, c.src);
    if c.Store? {
      forall x | x in t[c.dest] && x != I2P
        ensures t[c.src] <= t[x]
      {
        TakenUnmarked(sys, lab, root, nonptr, x);
      }
    }
  }

  lemma MarkedZero(root0: seq<nat>, lab: seq<set<nat>>, root: seq<nat>, nonptr: seq<bool>, i: nat)
    requires MergedPtr(root0, lab, root, nonptr) && i < |root|
    ensures nonptr[i] <==> 0 in lab[i]
  {
  }

  lemma TakenUnmarked(sys: System, lab: seq<set<nat>>, root: seq<nat>, nonptr: seq<bool>, x: nat)
    requires Legal(sys) && Consistent(sys, lab) && MergedPtr(sys.root, lab, root, nonptr) && IsTaken(sys.cons, x)
    ensures x < sys.n && sys.root[x] == x && !nonptr[x]
  {
  }

  lemma KeptSatisfied(sys: System, root: seq<nat>, nonptr: seq<bool>, cons': seq<Constraint>, s: Assignment, c: Constraint)
    requires Legal(sys) && RewrittenBy(sys.cons, root, nonptr, cons') && |root| == sys.n
    requires Solution(System(sys.n, root, cons'), s) && c in sys.cons && !nonptr[c.dest] && !nonptr[c.src]
    ensures Satisfied(c, s)
  {
  }

  /** Any solution of the rewritten list, pulled back to targets whose address
      is taken, solves the original. */
  lemma RewritingIsSound(sys: System, lab: seq<set<nat>>, root: seq<nat>, nonptr: seq<bool>, cons': seq<Constraint>, s: Assignment)
    requires Legal(sys) && Consistent(sys, lab) && MergedPtr(sys.root, lab, root, nonptr) && RewrittenBy(sys.cons, root, nonptr, cons')
    requires Solution(System(sys.n, root, cons'), s)
    ensures Solution(sys, TakenPullBack(sys, nonptr, s))
  {
    var t := TakenPullBack(sys, nonptr, s);
    forall c | c in sys.cons
      ensures c.dest < |t| && c.src < |t| && Satisfied(c, t)
    {
      PullBackSatisfies(sys, lab, root, nonptr, cons', s, c);
    }
    hide Satisfied, RewrittenBy, Consistent;
    forall i | 0 <= i < sys.n
      ensures t[i] == t[sys.root[i]]
    {
      assert root[i] == root[sys.root[i]];
    }
  }

  // Exactness: equal labels mean equal points-to sets if stores are grounded.

  /** The least solution only points to what has its address taken. */
  lemma OnlyTaken(sys: System, s: Assignment)
    requires Legal(sys) && LeastSolution(sys, s)
    ensures forall i, x :: 0 <= i < sys.n && x in s[i] ==> IsTaken(sys.cons, x)
  {
    var t := seq(sys.n, i requires 0 <= i < sys.n => set x | x in s[i] && IsTaken(sys.cons, x));
    forall c | c in sys.cons
      ensures c.dest < |t| && c.src < |t| && Satisfied(c, t)
    {
      assert Satisfied(c, s) && LegalConstraint(c, sys.n);
      assert c.AddrOf? ==> IsTaken(sys.cons, c.src);
    }
    assert Solution(sys, t);
    assert Included(s, t);
  }

  /** The values that fit if stores are grounded in `s`. */
  ghost function ValuesFor(nb: Numbering, s: Assignment): (val: seq<set<nat>>) {
    seq(2 * nb.k + 1, (v: nat) => OffValue(s, nb, v))
  }

  /** The labels of a node with an offline node are worth no more than its
      points-to set, and exactly that for a parameter. */
  ghost predicate NodeWorth(kind: seq<Kind>, nb: Numbering, mean: O.Meaning, lab: seq<set<nat>>, s: Assignment, i: nat)
    requires i < |lab| == |nb.m2o| == |s| == |kind|
  {
    nb.m2o[i] != 0 ==> O.Worth(mean, lab[i]) <= s[i] && (kind[i] == Param ==> O.Worth(mean, lab[i]) == s[i])
  }

  /** The labels of a constraint's destination cover what flows into it. */
  ghost predicate DestWorth(nb: Numbering, mean: O.Meaning, lab: seq<set<nat>>, s: Assignment, c: Constraint)
    requires c.dest < |lab| == |nb.m2o| == |s| && c.src < |lab|
  {
    nb.m2o[c.dest] != 0 ==>
      var w := O.Worth(mean, lab[c.dest]);
      match c
      case AddrOf(_, o) => o in w
      case Copy(d, o) => if nb.m2o[o] != 0 then O.Worth(mean, lab[o]) <= w else w == s[d]
      case Load(_, o) => Deref(s, o) <= w
      case Store(_, _) => true
  }

  lemma NodeWorthAt(sys: System, kind: seq<Kind>, nb: Numbering, g: O.Graph, s: O.Off, lab: seq<set<nat>>, sol: Assignment, i: nat)
    requires Prepared(sys, kind) && Numbered(sys.root, kind, nb) && InNodes(sys.cons, |nb.m2o|) && GraphFor(sys.cons, nb, g)
    requires |sol| == sys.n && Q.AllLabelled(g, ValuesFor(nb, sol), s) && LabelsRead(nb, s, lab) && i < sys.n
    ensures NodeWorth(kind, nb, s.mean, lab, sol, i)
  {
    var p := nb.m2o[i];
    if p != 0 {
      ValueOf(sys, kind, nb, sol, i);
      assert LabelReadAt(nb, s, lab, i) && NumberAt(sys.root, kind, nb, i);
      hide O.Worth, OffValue, Prepared;
      assert NodeFor(sys.cons, nb, g, p) && O.Labelled(g, ValuesFor(nb, sol), s, p);
    }
  }

  lemma DestWorthAt(sys: System, kind: seq<Kind>, nb: Numbering, g: O.Graph, s: O.Off, lab: seq<set<nat>>, sol: Assignment, c: Constraint)
    requires Prepared(sys, kind) && Numbered(sys.root, kind, nb) && InNodes(sys.cons, |nb.m2o|) && GraphFor(sys.cons, nb, g)
    requires |sol| == sys.n && Q.AllLabelled(g, ValuesFor(nb, sol), s) && LabelsRead(nb, s, lab) && c in sys.cons
    ensures c.dest < sys.n && c.src < sys.n && DestWorth(nb, s.mean, lab, sol, c)
  {
    PartShape(sys, kind, nb, c);
    var od, os := nb.m2o[c.dest], nb.m2o[c.src];
    if od != 0 {
      PartHere(sys, kind, nb, g, c);
      ValueOf(sys, kind, nb, sol, c.dest);
      assert LabelReadAt(nb, s, lab, c.dest) && LabelReadAt(nb, s, lab, c.src);
      assert O.Labelled(g, ValuesFor(nb, sol), s, od) && O.FitsAt(g, ValuesFor(nb, sol), s.mean, od);
      if os != 0 {
        ValueOf(sys, kind, nb, sol, c.src);
        hide O.Worth, OffValue, Prepared, Numbered, Deref;
        if c.Copy? {
          assert O.EdgeLabelled(s, od, os);
        } else if c.Load? {
          RefWorth(sys, kind, nb, g, s, sol, od, os);
        }
      }
    }
  }

  lemma RefWorth(sys: System, kind: seq<Kind>, nb: Numbering, g: O.Graph, s: O.Off, sol: Assignment, od: nat, os: nat)
    requires InNodes(sys.cons, |nb.m2o|) && GraphFor(sys.cons, nb, g) && Q.AllLabelled(g, ValuesFor(nb, sol), s)
    requires 0 < od <= nb.k && 0 < os <= nb.k && os + nb.k in g.direct[od]
    ensures s.root[od] < |s.labels| && OffValue(sol, nb, os + nb.k) <= O.Worth(s.mean, s.labels[s.root[od]])
  {
    hide O.Worth, OffValue;
    assert O.Labelled(g, ValuesFor(nb, sol), s, od) && O.EdgeLabelled(s, od, os + nb.k);
    assert NodeFor(sys.cons, nb, g, os + nb.k) && O.Labelled(g, ValuesFor(nb, sol), s, os + nb.k);
  }

  /** The assignment read off the labels. */
  ghost function FromLabels(sys: System, nb: Numbering, mean: O.Meaning, lab: seq<set<nat>>, s: Assignment): (t: Assignment)
    requires |s| == sys.n == |sys.root| == |nb.m2o| == |lab| && forall i :: 0 <= i < sys.n ==> sys.root[i] < sys.n
  {
    seq(sys.n, i requires 0 <= i < sys.n =>
      if nb.m2o[sys.root[i]] == 0 then s[i] else O.Worth(mean, lab[sys.root[i]]))
  }

  lemma FromLabelsSatisfies(sys: System, kind: seq<Kind>, nb: Numbering, mean: O.Meaning, lab: seq<set<nat>>, s: Assignment, c: Constraint)
    requires Prepared(sys, kind) && Numbered(sys.root, kind, nb) && Solution(sys, s) && |lab| == sys.n
    requires forall i :: 0 <= i < sys.n ==> NodeWorth(kind, nb, mean, lab, s, i)
    requires forall i, x :: 0 <= i < sys.n && x in s[i] ==> IsTaken(sys.cons, x)
    requires c in sys.cons && c.dest < sys.n && c.src < sys.n && DestWorth(nb, mean, lab, s, c)
    requires InRange(FromLabels(sys, nb, mean, lab, s))
    ensures Satisfied(c, FromLabels(sys, nb, mean, lab, s))
  {
    hide O.Worth;
    var t := FromLabels(sys, nb, mean, lab, s);
    PartShape(sys, kind, nb, c);
    assert Satisfied(c, s) && sys.root[c.dest] == c.dest && sys.root[c.src] == c.src;
    BelowSolution(sys, kind, nb, mean, lab, s, c.dest);
    BelowSolution(sys, kind, nb, mean, lab, s, c.src);
    if c.Load? {
      forall x | x in t[c.src] && x != I2P
        ensures t[x] <= t[c.dest]
      {
        BelowSolution(sys, kind, nb, mean, lab, s, x);
        assert s[x] <= Deref(s, c.src);
      }
    } else if c.Store? {
      forall x | x in t[c.dest] && x != I2P
        ensures t[c.src] <= t[x]
      {
        TakenKept(sys, kind, nb, mean, lab, s, x);
      }
    }
  }

  lemma BelowSolution(sys: System, kind: seq<Kind>, nb: Numbering, mean: O.Meaning, lab: seq<set<nat>>, s: Assignment, i: nat)
    requires Prepared(sys, kind) && Numbered(sys.root, kind, nb) && Solution(sys, s) && |lab| == sys.n && i < sys.n
    requires forall j :: 0 <= j < sys.n ==> NodeWorth(kind, nb, mean, lab, s, j)
    ensures FromLabels(sys, nb, mean, lab, s)[i] <= s[i]
  {
    hide O.Worth;
    assert NodeWorth(kind, nb, mean, lab, s, sys.root[i]);
  }

  lemma TakenKept(sys: System, kind: seq<Kind>, nb: Numbering, mean: O.Meaning, lab: seq<set<nat>>, s: Assignment, x: nat)
    requires Prepared(sys, kind) && Numbered(sys.root, kind, nb) && Solution(sys, s) && |lab| == sys.n && IsTaken(sys.cons, x)
    requires forall i :: 0 <= i < sys.n ==> NodeWorth(kind, nb, mean, lab, s, i)
    ensures x < sys.n && FromLabels(sys, nb, mean, lab, s)[x] == s[x]
  {
    hide O.Worth;
    var c :| c in sys.cons && c.AddrOf? && c.src == x;
    PartShape(sys, kind, nb, c);
    assert sys.root[x] == x && NodeWorth(kind, nb, mean, lab, s, x);
  }

  /** In the least solution a node is worth its labels. */
  lemma LabelsAreExact(sys: System, kind: seq<Kind>, nb: Numbering, g: O.Graph, s: O.Off, lab: seq<set<nat>>, sol: Assignment)
    requires Prepared(sys, kind) && Numbered(sys.root, kind, nb) && InNodes(sys.cons, |nb.m2o|) && GraphFor(sys.cons, nb, g)
    requires LeastSolution(sys, sol) && Q.AllLabelled(g, ValuesFor(nb, sol), s) && LabelsRead(nb, s, lab)
    ensures forall i :: 0 <= i < sys.n && sys.root[i] == i && nb.m2o[i] != 0 ==> sol[i] == O.Worth(s.mean, lab[i])
  {
    hide O.Worth, GraphFor, ValuesFor, Q.AllLabelled;
    OnlyTaken(sys, sol);
    forall i | 0 <= i < sys.n
      ensures NodeWorth(kind, nb, s.mean, lab, sol, i)
    {
      NodeWorthAt(sys, kind, nb, g, s, lab, sol, i);
    }
    var t := FromLabels(sys, nb, s.mean, lab, sol);
    forall i | 0 <= i < sys.n
      ensures t[i] <= sol[i]
    {
      BelowSolution(sys, kind, nb, s.mean, lab, sol, i);
    }
    assert InRange(t);
    forall c | c in sys.cons
      ensures c.dest < |t| && c.src < |t| && Satisfied(c, t)
    {
      hide Numbered, NodeWorth, DestWorth, LabelsRead;
      DestWorthAt(sys, kind, nb, g, s, lab, sol, c);
      FromLabelsSatisfies(sys, kind, nb, s.mean, lab, sol, c);
    }
    FromLabelsLeast(sys, nb, s.mean, lab, sol);
  }

  lemma FromLabelsLeast(sys: System, nb: Numbering, mean: O.Meaning, lab: seq<set<nat>>, s: Assignment)
    requires Legal(sys) && LeastSolution(sys, s) && |nb.m2o| == |lab| == sys.n
    requires InRange(FromLabels(sys, nb, mean, lab, s))
    requires forall c :: c in sys.cons ==> c.dest < sys.n && c.src < sys.n && Satisfied(c, FromLabels(sys, nb, mean, lab, s))
    requires forall i :: 0 <= i < sys.n ==> FromLabels(sys, nb, mean, lab, s)[i] <= s[i]
    ensures forall i :: 0 <= i < sys.n && sys.root[i] == i && nb.m2o[i] != 0 ==> s[i] == O.Worth(mean, lab[i])
  {
    hide O.Worth, Satisfied;
    var t := FromLabels(sys, nb, mean, lab, s);
    forall i | 0 <= i < sys.n
      ensures sys.root[i] < sys.n && t[i] == t[sys.root[i]]
    {
      assert s[i] == s[sys.root[i]] && sys.root[sys.root[i]] == sys.root[i];
    }
    assert Solution(sys, t);
    assert Included(s, t);
    forall i | 0 <= i < sys.n && sys.root[i] == i && nb.m2o[i] != 0
      ensures s[i] == O.Worth(mean, lab[i])
    {
      assert t[i] == O.Worth(mean, lab[i]);
    }
  }

  /** Merged nodes are equal in `s`, and marked ones empty. */
  ghost predicate Exact(root: seq<nat>, nonptr: seq<bool>, s: Assignment) {
    && |root| == |nonptr| == |s|
    && forall i :: 0 <= i < |s| ==> root[i] < |s| && s[i] == s[root[i]] && (nonptr[i] ==> s[i] == {})
  }

  lemma MergesAreExact(sys: System, nb: Numbering, mean: O.Meaning, lab: seq<set<nat>>, root: seq<nat>, nonptr: seq<bool>, s: Assignment)
    requires Legal(sys) && Solution(sys, s) && |nb.m2o| == sys.n && MergedPtr(sys.root, lab, root, nonptr)
    requires 0 !in mean && forall i :: 0 <= i < sys.n ==> (lab[i] == {} <==> nb.m2o[i] == 0) && (0 in lab[i] ==> lab[i] == {0})
    requires forall i :: 0 <= i < sys.n && nb.m2o[i] != 0 ==> sys.root[i] == i
    requires forall i :: 0 <= i < sys.n && sys.root[i] == i && nb.m2o[i] != 0 ==> s[i] == O.Worth(mean, lab[i])
    ensures Exact(root, nonptr, s)
  {
    hide O.Worth;
    forall i | 0 <= i < sys.n
      ensures s[i] == s[root[i]] && (nonptr[i] ==> s[i] == {})
    {
      SameClass(sys, lab, root, nonptr, i);
      var a, b := sys.root[i], sys.root[root[i]];
      assert s[i] == s[a] && s[root[i]] == s[b];
      if a != b {
        assert lab[a] == lab[b] && nb.m2o[a] != 0 && nb.m2o[b] != 0;
      }
      if nonptr[i] {
        assert lab[i] == {0} && s[i] == O.Worth(mean, {0});
        NothingWorth(mean);
      }
    }
  }

  lemma NothingWorth(mean: O.Meaning)
    requires 0 !in mean
    ensures O.Worth(mean, {0}) == {}
  {
  }

  lemma SameClass(sys: System, lab: seq<set<nat>>, root: seq<nat>, nonptr: seq<bool>, i: nat)
    requires Legal(sys) && MergedPtr(sys.root, lab, root, nonptr) && i < sys.n
    ensures root[i] < sys.n && sys.root[i] < sys.n && sys.root[root[i]] < sys.n
    ensures sys.root[sys.root[i]] == sys.root[i] && sys.root[sys.root[root[i]]] == sys.root[root[i]]
    ensures var a, b := sys.root[i], sys.root[root[i]]; a == b || (lab[a] == lab[b] && lab[a] != {} && 0 !in lab[a])
  {
  }

  /** An exact merging turns a solution into one of the rewritten list. */
  lemma SolvesRewritten(sys: System, root: seq<nat>, nonptr: seq<bool>, cons': seq<Constraint>, s: Assignment)
    requires Legal(sys) && Solution(sys, s) && RewrittenBy(sys.cons, root, nonptr, cons') && Exact(root, nonptr, s)
    ensures Solution(System(sys.n, root, cons'), s)
  {
    forall c' | c' in cons'
      ensures c'.dest < |s| && c'.src < |s| && Satisfied(c', s)
    {
      var c :| c in sys.cons && Kept(c, root, nonptr) && Rewrite(c, root) == c';
      RewrittenSatisfied(c, root, s);
    }
  }

  /** The least solution is then the same. */
  lemma RewritingIsExact(sys: System, lab: seq<set<nat>>, root: seq<nat>, nonptr: seq<bool>, cons': seq<Constraint>, s: Assignment)
    requires Legal(sys) && Consistent(sys, lab) && MergedPtr(sys.root, lab, root, nonptr) && RewrittenBy(sys.cons, root, nonptr, cons')
    requires LeastSolution(sys, s) && Exact(root, nonptr, s)
    ensures LeastSolution(System(sys.n, root, cons'), s)
  {
    SolvesRewritten(sys, root, nonptr, cons', s);
    var sys' := System(sys.n, root, cons');
    forall t | Solution(sys', t)
      ensures Included(s, t)
    {
      RewritingIsSound(sys, lab, root, nonptr, cons', t);
      hide Solution, MergedPtr, RewrittenBy, Consistent;
      assert Included(s, TakenPullBack(sys, nonptr, t));
    }
  }

  /** Without any condition, rewriting loses nothing. */
  lemma RewritingLosesNothing(sys: System, lab: seq<set<nat>>, root: seq<nat>, nonptr: seq<bool>, cons': seq<Constraint>, s: Assignment, t: Assignment)
    requires Legal(sys) && Consistent(sys, lab) && MergedPtr(sys.root, lab, root, nonptr) && RewrittenBy(sys.cons, root, nonptr, cons')
    requires LeastSolution(sys, s) && Solution(System(sys.n, root, cons'), t)
    ensures Included(s, TakenPullBack(sys, nonptr, t)) && Included(s, t)
  {
    RewritingIsSound(sys, lab, root, nonptr, cons', t);
  }
}
