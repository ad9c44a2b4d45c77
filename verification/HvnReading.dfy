/** What the solutions of a rewritten constraint list say about the original
    one. */
module HvnReading {
  import opened Constraints
  import opened HvnGraph
  import opened HvnMeaning
  import opened LabelMerging

  // Reading a solution without leaving out targets.

  /** No store that is kept writes something to a marked node. */
  ghost predicate StoresMissMarks(sys: System, nonptr: seq<bool>, s: Assignment)
    requires |s| == |nonptr| == sys.n == |sys.root| && InNodes(sys.cons, sys.n)
    requires forall i :: 0 <= i < sys.n ==> sys.root[i] < sys.n
  {
    forall c :: c in sys.cons && c.Store? && !nonptr[c.dest] && !nonptr[c.src] ==> MissesMarks(sys, nonptr, s, c)
  }

  ghost predicate MissesMarks(sys: System, nonptr: seq<bool>, s: Assignment, c: Constraint)
    requires |s| == |nonptr| == sys.n == |sys.root| && c.dest < sys.n && c.src < sys.n
    requires forall i :: 0 <= i < sys.n ==> sys.root[i] < sys.n
  {
    s[c.src] == {} || forall x :: x in s[c.dest] && x != I2P && x < sys.n ==> !nonptr[sys.root[x]]
  }

  /** A solution of the rewritten list, read with all its targets, solves the
      original one exactly if its stores miss the marked nodes. */
  lemma ReadingIsSound(sys: System, lab: seq<set<nat>>, root: seq<nat>, nonptr: seq<bool>, cons': seq<Constraint>, s: Assignment)
    requires Legal(sys) && Consistent(sys, lab) && MergedPtr(sys.root, lab, root, nonptr) && RewrittenBy(sys.cons, root, nonptr, cons')
    requires Solution(System(sys.n, root, cons'), s)
    ensures |s| == |nonptr| == sys.n && InNodes(sys.cons, sys.n)
    ensures Solution(sys, PullBack(sys, nonptr, s)) <==> StoresMissMarks(sys, nonptr, s)
  {
    hide MergedByLabel, RewrittenBy, Kept, Rewrite, Satisfied;
    ReadingShape(sys, lab, root, nonptr, cons', s);
    var t := PullBack(sys, nonptr, s);
    assert InRange(t);
    forall c | c in sys.cons
      ensures c.dest < sys.n && c.src < sys.n
      ensures Satisfied(c, t) <==> !c.Store? || nonptr[c.dest] || nonptr[c.src] || MissesMarks(sys, nonptr, s, c)
    {
      ReadingAt(sys, lab, root, nonptr, cons', s, c);
    }
    hide Consistent, MissesMarks;
  }

  lemma ReadingShape(sys: System, lab: seq<set<nat>>, root: seq<nat>, nonptr: seq<bool>, cons': seq<Constraint>, s: Assignment)
    requires Legal(sys) && MergedPtr(sys.root, lab, root, nonptr) && RewrittenBy(sys.cons, root, nonptr, cons')
    requires Solution(System(sys.n, root, cons'), s)
    ensures |s| == |nonptr| == |root| == |lab| == sys.n && InNodes(sys.cons, sys.n) && InRange(s)
    ensures forall i :: 0 <= i < sys.n ==> s[i] == s[sys.root[i]]
  {
    forall i | 0 <= i < sys.n
      ensures s[i] == s[sys.root[i]]
    {
      assert root[i] == root[sys.root[i]];
    }
  }

  lemma ReadingAt(sys: System, lab: seq<set<nat>>, root: seq<nat>, nonptr: seq<bool>, cons': seq<Constraint>, s: Assignment, c: Constraint)
    requires Legal(sys) && Consistent(sys, lab) && MergedPtr(sys.root, lab, root, nonptr) && RewrittenBy(sys.cons, root, nonptr, cons')
    requires Solution(System(sys.n, root, cons'), s) && c in sys.cons
    requires |s| == |nonptr| == sys.n && InRange(s)
    ensures c.dest < sys.n && c.src < sys.n && InRange(PullBack(sys, nonptr, s))
    ensures Satisfied(c, PullBack(sys, nonptr, s)) <==>
      !c.Store? || nonptr[c.dest] || nonptr[c.src] || MissesMarks(sys, nonptr, s, c)
  {
    var t := PullBack(sys, nonptr, s);
    assert LegalConstraint(c, sys.n) && sys.root[c.dest] == c.dest && sys.root[c.src] == c.src;
    if !nonptr[c.dest] && !nonptr[c.src] {
      assert Satisfied(c, s) by { KeptSatisfied(sys, root, nonptr, cons', s, c); }
    }
    hide MergedPtr, RewrittenBy, Solution, Rewrite;
    assert nonptr[c.dest] ==> 0 in lab[c.dest] by { MarkedZero(sys.root, lab, root, nonptr, c.dest); }
    MarkedZero(sys.root, lab, root, nonptr, c.src);
    if c.Store? && !nonptr[c.dest] && !nonptr[c.src] && !MissesMarks(sys, nonptr, s, c) {
      var x :| x in s[c.dest] && x != I2P && x < sys.n && nonptr[sys.root[x]];
      assert t[x] == {} && x in t[c.dest] && t[c.src] != {};
    }
  }

  // Solutions without marked nodes.

  /** Nothing mentions the marked nodes, which are values and their own
      representatives. */
  ghost predicate Unmentioned(sys: System, kind: seq<Kind>, marked: seq<bool>) {
    && |marked| == |kind| == sys.n == |sys.root|
    && forall i :: 0 <= i < sys.n && marked[i] ==> Isolated(sys, kind, i)
  }

  ghost predicate Isolated(sys: System, kind: seq<Kind>, i: nat)
    requires i < |kind| == |sys.root|
  {
    kind[i] == Val && sys.root[i] == i && forall c :: c in sys.cons ==> Without(sys.root, c, i)
  }

  ghost predicate Without(root: seq<nat>, c: Constraint, i: nat) {
    c.dest < |root| && c.src < |root| && c.dest != i && c.src != i && root[c.dest] != i && root[c.src] != i
  }

  /** Targets have their address taken in the list, and marked nodes have none. */
  ghost predicate Clean(sys: System, marked: seq<bool>, s: Assignment) {
    && |s| == |marked|
    && (forall i, x :: 0 <= i < |s| && x in s[i] ==> IsTaken(sys.cons, x))
    && (forall i :: 0 <= i < |s| && marked[i] ==> s[i] == {})
  }

  /** What is left of an assignment when it is made clean. */
  ghost function Cleaned(sys: System, marked: seq<bool>, s: Assignment): (t: Assignment)
    requires |s| == |marked| == |sys.root| && forall i :: 0 <= i < |s| ==> sys.root[i] < |s|
  {
    seq(|s|, i requires 0 <= i < |s| => if marked[sys.root[i]] then {} else set x | x in s[i] && IsTaken(sys.cons, x))
  }

  /** The least solution is clean. */
  lemma LeastIsClean(sys: System, kind: seq<Kind>, marked: seq<bool>, s: Assignment)
    requires LeastSolution(sys, s) && Unmentioned(sys, kind, marked)
    requires forall i :: 0 <= i < sys.n ==> sys.root[i] < sys.n && sys.root[sys.root[i]] == sys.root[i]
    ensures Clean(sys, marked, s)
  {
    var t := Cleaned(sys, marked, s);
    assert InRange(t);
    forall c | c in sys.cons
      ensures c.dest < |t| && c.src < |t| && Satisfied(c, t)
    {
      CleanedSatisfies(sys, kind, marked, s, c);
    }
    hide Satisfied, Isolated, IsTaken;
    assert Solution(sys, t) && Included(s, t);
  }

  lemma CleanedSatisfies(sys: System, kind: seq<Kind>, marked: seq<bool>, s: Assignment, c: Constraint)
    requires Solution(sys, s) && Unmentioned(sys, kind, marked) && c in sys.cons
    requires InRange(Cleaned(sys, marked, s))
    ensures c.dest < sys.n && c.src < sys.n && Satisfied(c, Cleaned(sys, marked, s))
  {
    var t := Cleaned(sys, marked, s);
    assert Satisfied(c, s) && forall b :: b in sys.cons && b.src < sys.n && b.dest < sys.n ==> NotMarked(sys, marked, b);
    assert NotMarked(sys, marked, c) && (c.AddrOf? ==> IsTaken(sys.cons, c.src));
    hide Isolated;
    if c.Store? {
      forall x | x in t[c.dest] && x != I2P
        ensures t[c.src] <= t[x]
      {
        var b :| b in sys.cons && b.AddrOf? && b.src == x;
        assert NotMarked(sys, marked, b);
      }
    }
  }

  ghost predicate NotMarked(sys: System, marked: seq<bool>, c: Constraint)
    requires |marked| == |sys.root| && c.dest < |marked| && c.src < |marked|
  {
    sys.root[c.dest] < |marked| && sys.root[c.src] < |marked| && !marked[sys.root[c.dest]] && !marked[sys.root[c.src]]
  }

  /** After rewriting, the marked nodes are not mentioned. */
  lemma MarksUnmentioned(sys: System, kind: seq<Kind>, lab: seq<set<nat>>, root: seq<nat>, nonptr: seq<bool>, cons': seq<Constraint>)
    requires Legal(sys) && Consistent(sys, lab) && MergedPtr(sys.root, lab, root, nonptr) && RewrittenBy(sys.cons, root, nonptr, cons')
    requires |kind| == sys.n && forall i :: 0 <= i < sys.n && 0 in lab[i] ==> kind[i] == Val && sys.root[i] == i
    ensures Unmentioned(System(sys.n, root, cons'), kind, nonptr)
  {
    var sys' := System(sys.n, root, cons');
    hide Satisfied, Consistent;
    forall i | 0 <= i < sys.n && nonptr[i]
      ensures Isolated(sys', kind, i)
    {
      MarkedAlone(sys, lab, root, nonptr, i);
      forall c' | c' in cons'
        ensures Without(root, c', i)
      {
        var c :| c in sys.cons && Kept(c, root, nonptr) && Rewrite(c, root) == c';
        assert root[root[c.dest]] == root[c.dest] && root[root[c.src]] == root[c.src];
      }
    }
  }

  /** A marked node keeps to itself. */
  lemma MarkedAlone(sys: System, lab: seq<set<nat>>, root: seq<nat>, nonptr: seq<bool>, i: nat)
    requires Legal(sys) && MergedPtr(sys.root, lab, root, nonptr) && i < sys.n && nonptr[i] && sys.root[i] == i
    ensures root[i] == i
    ensures forall j :: 0 <= j < sys.n && root[j] == i && sys.root[j] == j ==> j == i
  {
    var r := root[i];
    assert sys.root[r] == r && root[r] == r;
  }

  /** A clean solution of the rewritten list solves the original. */
  lemma CleanReadsBack(sys: System, lab: seq<set<nat>>, root: seq<nat>, nonptr: seq<bool>, cons': seq<Constraint>, s: Assignment)
    requires Legal(sys) && Consistent(sys, lab) && MergedPtr(sys.root, lab, root, nonptr) && RewrittenBy(sys.cons, root, nonptr, cons')
    requires Solution(System(sys.n, root, cons'), s) && Clean(System(sys.n, root, cons'), nonptr, s)
    ensures |s| == sys.n && PullBack(sys, nonptr, s) == s && Solution(sys, s)
  {
    RewritingIsSound(sys, lab, root, nonptr, cons', s);
    hide Satisfied, Consistent, Solution;
    var t := TakenPullBack(sys, nonptr, s);
    forall i | 0 <= i < sys.n
      ensures t[i] == s[i] && PullBack(sys, nonptr, s)[i] == s[i]
    {
      SameRead(sys, lab, root, nonptr, cons', s, i);
      forall x | x in s[i]
        ensures IsTaken(sys.cons, x)
      {
        TakenBefore(sys.cons, root, nonptr, cons', x);
      }
    }
    assert t == s;
  }

  lemma SameRead(sys: System, lab: seq<set<nat>>, root: seq<nat>, nonptr: seq<bool>, cons': seq<Constraint>, s: Assignment, i: nat)
    requires Legal(sys) && MergedPtr(sys.root, lab, root, nonptr) && i < sys.n
    requires Solution(System(sys.n, root, cons'), s) && Clean(System(sys.n, root, cons'), nonptr, s)
    ensures nonptr[sys.root[i]] ==> s[i] == {}
  {
    var m := sys.root[i];
    assert s[i] == s[root[i]] && s[m] == s[root[m]] && root[m] == root[i];
  }

  // The rewritten list as the next one to work on.

  /** No object whose address is taken has been merged into another node. */
  ghost predicate ObjectsStay(sys: System) {
    forall c :: c in sys.cons && c.AddrOf? ==> c.src < |sys.root| && sys.root[c.src] == c.src
  }

  /** The objects whose address is taken have no offline node. */
  ghost predicate ObjectsApart(sys: System, kind: seq<Kind>) {
    forall c :: c in sys.cons && c.AddrOf? ==> c.src < |kind| && kind[c.src] == NoNode
  }

  /** The pass can run again exactly if the objects stay, and they do if they
      have no offline node. */
  lemma StaysPrepared(sys: System, kind: seq<Kind>, lab: seq<set<nat>>, root: seq<nat>, nonptr: seq<bool>, cons': seq<Constraint>)
    requires Prepared(sys, kind) && MergedPtr(sys.root, lab, root, nonptr) && RewrittenBy(sys.cons, root, nonptr, cons')
    requires forall i :: 0 <= i < sys.n ==> (lab[i] == {} <==> kind[i] == NoNode || sys.root[i] != i)
    ensures Prepared(System(sys.n, root, cons'), kind) <==> ObjectsStay(System(sys.n, root, cons'))
    ensures ObjectsApart(sys, kind) ==> ObjectsStay(System(sys.n, root, cons')) && ObjectsApart(System(sys.n, root, cons'), kind)
  {
    var sys' := System(sys.n, root, cons');
    StaysLegal(sys, kind, lab, root, nonptr);
    forall c' | c' in cons'
      ensures c'.AddrOf? ==> c'.src < sys.n && (ObjectsApart(sys, kind) ==> root[c'.src] == c'.src && kind[c'.src] == NoNode)
      ensures !c'.AddrOf? || root[c'.src] == c'.src ==> StaysAt(sys', kind, c')
    {
      StaysEach(sys, kind, lab, root, nonptr, cons', c');
    }
    hide MergedByLabel, RewrittenBy, LegalPartition, LegalConstraint;
  }

  lemma StaysEach(sys: System, kind: seq<Kind>, lab: seq<set<nat>>, root: seq<nat>, nonptr: seq<bool>, cons': seq<Constraint>, c': Constraint)
    requires Prepared(sys, kind) && MergedPtr(sys.root, lab, root, nonptr) && RewrittenBy(sys.cons, root, nonptr, cons') && c' in cons'
    requires forall i :: 0 <= i < sys.n ==> (lab[i] == {} <==> kind[i] == NoNode || sys.root[i] != i)
    requires |root| == sys.n && LegalPartition(root)
    ensures c'.AddrOf? ==> c'.src < sys.n && (ObjectsApart(sys, kind) ==> root[c'.src] == c'.src && kind[c'.src] == NoNode)
    ensures !c'.AddrOf? || root[c'.src] == c'.src ==> StaysAt(System(sys.n, root, cons'), kind, c')
  {
    hide MergedByLabel, LegalPartition;
    var c :| c in sys.cons && Kept(c, root, nonptr) && Rewrite(c, root) == c';
    assert LegalConstraint(c, sys.n) && sys.root[c.dest] == c.dest && sys.root[c.src] == c.src;
    hide RewrittenBy;
    StaysSame(sys, kind, lab, root, nonptr, c.dest);
    StaysSame(sys, kind, lab, root, nonptr, c.src);
    StaysRange(root, c.dest);
    StaysRange(root, c.src);
  }

  lemma StaysRange(root: seq<nat>, i: nat)
    requires LegalPartition(root) && i < |root|
    ensures root[i] < |root| && root[root[i]] == root[i] && (root[i] == 0 <==> i == 0) && (root[i] == I2P <==> i == I2P)
  {
  }

  ghost predicate StaysAt(sys: System, kind: seq<Kind>, c: Constraint)
    requires |sys.root| == |kind| == sys.n
  {
    && LegalConstraint(c, sys.n) && sys.root[c.dest] == c.dest && sys.root[c.src] == c.src
    && (c.AddrOf? ==> kind[c.src] != Val)
    && ((c.Load? || c.Store?) && kind[c.dest] != NoNode ==> kind[c.src] != NoNode)
  }

  /** Only nodes with offline nodes are merged. */
  lemma StaysSame(sys: System, kind: seq<Kind>, lab: seq<set<nat>>, root: seq<nat>, nonptr: seq<bool>, i: nat)
    requires Legal(sys) && |kind| == sys.n && MergedPtr(sys.root, lab, root, nonptr) && i < sys.n && sys.root[i] == i
    requires forall j :: 0 <= j < sys.n ==> (lab[j] == {} <==> kind[j] == NoNode || sys.root[j] != j)
    ensures root[i] < sys.n && root[root[i]] == root[i] && (kind[i] == NoNode ==> root[i] == i)
    ensures kind[i] != NoNode ==> kind[root[i]] != NoNode
  {
    var r := root[i];
    assert sys.root[r] == r && root[r] == r;
  }

  lemma StaysLegal(sys: System, kind: seq<Kind>, lab: seq<set<nat>>, root: seq<nat>, nonptr: seq<bool>)
    requires Legal(sys) && |kind| == sys.n && kind[0] == NoNode && kind[I2P] == NoNode && MergedPtr(sys.root, lab, root, nonptr)
    requires forall i :: 0 <= i < sys.n ==> (lab[i] == {} <==> kind[i] == NoNode || sys.root[i] != i)
    ensures |root| == sys.n && LegalPartition(root)
  {
    StaysSame(sys, kind, lab, root, nonptr, 0);
    StaysSame(sys, kind, lab, root, nonptr, I2P);
    forall i | 0 <= i < sys.n
      ensures (root[i] == 0 <==> i == 0) && (root[i] == I2P <==> i == I2P)
    {
      var a := sys.root[i];
      assert root[i] == root[a] && sys.root[a] == a;
      assert root[i] == 0 ==> root[a] == root[0];
      assert root[i] == I2P ==> root[a] == root[I2P];
    }
  }

  /** An address taken after rewriting was taken before. */
  lemma TakenBefore(cons: seq<Constraint>, root: seq<nat>, nonptr: seq<bool>, cons': seq<Constraint>, x: nat)
    requires RewrittenBy(cons, root, nonptr, cons') && IsTaken(cons', x)
    ensures IsTaken(cons, x)
  {
    var c' :| c' in cons' && c'.AddrOf? && c'.src == x;
    var c :| c in cons && Kept(c, root, nonptr) && Rewrite(c, root) == c';
  }
}
