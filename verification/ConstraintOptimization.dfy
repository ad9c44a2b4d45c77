/** Everything that is done to a constraint list: value numbering as long as it
    pays, factoring, and solving. */
module ConstraintOptimization {
  import opened Constraints
  import opened HvnGraph
  import opened HvnMeaning
  import opened HvnReading
  import opened HvnPass
  import opened HvnLimits
  import Factoring
  import Solver
  import UnionFind

  /** How many constraints a pass must remove for another one to follow. */
  const MIN_DEL: nat := 100

  /** What every pass starts from. */
  ghost predicate Ready(sys: System, kind: seq<Kind>, marked: seq<bool>) {
    Prepared(sys, kind) && ObjectsApart(sys, kind) && Unmentioned(sys, kind, marked)
  }

  /** How a list relates to the one it was made from. */
  ghost predicate Traces(sys0: System, sys: System, marked: seq<bool>) {
    && sys.n == sys0.n && InNodes(sys0.cons, sys0.n) && InNodes(sys.cons, sys.n)
    && (forall t :: Solution(sys, t) && Clean(sys, marked, t) ==> Solution(sys0, t))
    && (forall s :: LeastSolution(sys0, s) ==> LeastTraced(sys0, sys, marked, s))
  }

  ghost predicate LeastTraced(sys0: System, sys: System, marked: seq<bool>, s: Assignment)
    requires sys.n == sys0.n && InNodes(sys0.cons, sys0.n) && InNodes(sys.cons, sys.n)
  {
    && |s| == sys0.n && (LeastSolution(sys, s) <==> Exact(sys.root, marked, s))
    && (Grounded(sys0, s) ==> Exact(sys.root, marked, s) && Grounded(sys, s))
  }

  ghost predicate Grows(marked: seq<bool>, marked': seq<bool>) {
    |marked| == |marked'| && forall i :: 0 <= i < |marked| && marked[i] ==> marked'[i]
  }

  lemma TracesSelf(sys: System, marked: seq<bool>)
    requires Legal(sys) && |marked| == sys.n && forall i :: 0 <= i < sys.n ==> !marked[i]
    ensures Traces(sys, sys, marked)
  {
    hide Satisfied, LegalConstraint;
    assert InNodes(sys.cons, sys.n) by { LegalNodes(sys); }
    forall s | LeastSolution(sys, s)
      ensures LeastTraced(sys, sys, marked, s)
    {
    }
  }

  lemma LegalNodes(sys: System)
    requires Legal(sys)
    ensures InNodes(sys.cons, sys.n)
  {
    forall c | c in sys.cons
      ensures c.dest < sys.n && c.src < sys.n
    {
      assert LegalConstraint(c, sys.n);
    }
  }

  /** One more pass. */
  lemma TracesMore(sys0: System, kind: seq<Kind>, sys: System, marked: seq<bool>, sys': System, marked': seq<bool>)
    requires Traces(sys0, sys, marked) && Preserved(sys, kind, sys', marked') && Grows(marked, marked')
    ensures Traces(sys0, sys', marked')
  {
    hide Satisfied, Grounded, Unmentioned, ObjectsStay, ObjectsApart, Prepared, TakenPullBack, StoresMissMarks, InNodes, IsTaken;
    assert |sys.root| == sys.n == |marked'|;
    forall t | Solution(sys', t) && Clean(sys', marked', t)
      ensures Solution(sys0, t)
    {
      assert ReadAt(sys, sys', marked', t);
      assert Clean(sys, marked, t);
    }
    hide ReadAt, Clean;
    forall s | LeastSolution(sys0, s)
      ensures LeastTraced(sys0, sys', marked', s)
    {
      LeastTracedMore(sys0, sys, marked, sys', marked', s);
    }
  }

  lemma LeastTracedMore(sys0: System, sys: System, marked: seq<bool>, sys': System, marked': seq<bool>, s: Assignment)
    requires Traces(sys0, sys, marked) && ReadsBack(sys, sys', marked') && KeepsLeast(sys, sys', marked') && Grows(marked, marked')
    requires LeastSolution(sys0, s)
    ensures LeastTraced(sys0, sys', marked', s)
  {
    assert LeastTraced(sys0, sys, marked, s);
    hide Traces, Grounded, InNodes, ReadAt;
    assert forall t :: LeastSolution(sys', t) ==> Clean(sys', marked', t);
    hide ReadsBack;
    if LeastSolution(sys', s) {
      CleanIsExact(sys', marked', s);
    }
    hide Solution, Included, Clean;
    if Exact(sys'.root, marked', s) {
      ExactBefore(sys.root, marked, sys'.root, marked', s);
    }
  }

  lemma ExactBefore(root: seq<nat>, marked: seq<bool>, root': seq<nat>, marked': seq<bool>, s: Assignment)
    requires Exact(root', marked', s) && Coarser(root, root') && Grows(marked, marked')
    ensures Exact(root, marked, s)
  {
    forall i | 0 <= i < |s|
      ensures root[i] < |s| && s[i] == s[root[i]] && (marked[i] ==> s[i] == {})
    {
      assert s[i] == s[root'[i]] && s[root[i]] == s[root'[root[i]]];
    }
  }

  lemma ReadyMore(sys: System, kind: seq<Kind>, sys': System, marked': seq<bool>)
    requires ObjectsApart(sys, kind) && RunsAgain(sys, kind, sys', marked')
    ensures Ready(sys', kind, marked')
  {
  }

  // Which passes are made.

  /** A constraint list, and the nodes marked so far. */
  datatype Stage = Stage(sys: System, marked: seq<bool>)

  /** One pass of value numbering leads from `a` to `b`. */
  ghost predicate Stepped(kind: seq<Kind>, keepSets: bool, a: Stage, b: Stage) {
    exists nb, g, val, s, lab, own :: Worked(a.sys, kind, nb, g, val, s, lab, b.sys, b.marked, keepSets, own)
  }

  ghost predicate Removes(a: Stage, b: Stage, minDel: nat) {
    |a.sys.cons| - |b.sys.cons| >= minDel
  }

  /** Passes that removed at least `minDel` constraints each, except for the
      last one, after which there are no more. */
  ghost predicate Rounds(kind: seq<Kind>, keepSets: bool, minDel: nat, stages: seq<Stage>, more: bool) {
    && |stages| >= (if more then 1 else 2)
    && forall i :: 0 <= i < |stages| - 1 ==> RoundAt(kind, keepSets, minDel, stages, more, i)
  }

  ghost predicate RoundAt(kind: seq<Kind>, keepSets: bool, minDel: nat, stages: seq<Stage>, more: bool, i: nat)
    requires i < |stages| - 1
  {
    && Stepped(kind, keepSets, stages[i], stages[i + 1])
    && (Removes(stages[i], stages[i + 1], minDel) <==> more || i < |stages| - 2)
  }

  lemma OneMoreRound(kind: seq<Kind>, keepSets: bool, minDel: nat, stages: seq<Stage>, s: Stage)
    requires Rounds(kind, keepSets, minDel, stages, true) && Stepped(kind, keepSets, stages[|stages| - 1], s)
    ensures Rounds(kind, keepSets, minDel, stages + [s], Removes(stages[|stages| - 1], s, minDel))
  {
    hide Stepped;
    var stages', more := stages + [s], Removes(stages[|stages| - 1], s, minDel);
    forall i | 0 <= i < |stages'| - 1
      ensures RoundAt(kind, keepSets, minDel, stages', more, i)
    {
      if i < |stages| - 1 {
        assert RoundAt(kind, keepSets, minDel, stages, true, i);
      }
    }
  }

  /** Value numbering. */
  method Pass(kind: seq<Kind>, cons: seq<Constraint>, uf: UnionFind.Partition, before: seq<bool>, keepSets: bool, ghost sys0: System)
      returns (nonptr: seq<bool>, cons': seq<Constraint>)
    requires uf.Valid() && |uf.rep| == |uf.root| == |kind| && 2 * |kind| < UnionFind.NODE_RANK_MIN
    requires Ready(System(|kind|, uf.root, cons), kind, before) && Traces(sys0, System(|kind|, uf.root, cons), before)
    modifies uf
    ensures uf.Valid() && |uf.rep| == |uf.root| == |kind| && |cons'| <= |cons|
    ensures Ready(System(|kind|, uf.root, cons'), kind, nonptr) && Traces(sys0, System(|kind|, uf.root, cons'), nonptr)
    ensures Stepped(kind, keepSets, Stage(old(System(|kind|, uf.root, cons)), before), Stage(System(|kind|, uf.root, cons'), nonptr))
  {
    hide UnionFind.Encodes, Prepared, ObjectsApart, Isolated, Traces, ReadsBack, KeepsLeast, RunsAgain, Worked;
    ghost var sys := System(|kind|, uf.root, cons);
    nonptr, cons' := Hvn(kind, cons, uf, before, keepSets, sys);
    ghost var sys' := System(|kind|, uf.root, cons');
    TracesMore(sys0, kind, sys, before, sys', nonptr);
    ReadyMore(sys, kind, sys', nonptr);
  }

  /** Value numbering, for as long as it removes at least `minDel` constraints. */
  method Hr(kind: seq<Kind>, cons: seq<Constraint>, uf: UnionFind.Partition, before: seq<bool>, keepSets: bool, minDel: nat, ghost sys0: System)
      returns (nonptr: seq<bool>, cons': seq<Constraint>, ghost stages: seq<Stage>)
    requires 0 < minDel
    requires uf.Valid() && |uf.rep| == |uf.root| == |kind| && 2 * |kind| < UnionFind.NODE_RANK_MIN
    requires Ready(System(|kind|, uf.root, cons), kind, before) && Traces(sys0, System(|kind|, uf.root, cons), before)
    modifies uf
    ensures uf.Valid() && |uf.rep| == |uf.root| == |kind| && |cons'| <= |cons|
    ensures Ready(System(|kind|, uf.root, cons'), kind, nonptr) && Traces(sys0, System(|kind|, uf.root, cons'), nonptr)
    ensures Rounds(kind, keepSets, minDel, stages, false) && stages[0] == Stage(old(System(|kind|, uf.root, cons)), before)
    ensures stages[|stages| - 1] == Stage(System(|kind|, uf.root, cons'), nonptr)
  {
    hide UnionFind.Encodes, Ready, Traces, Stepped, RoundAt;
    nonptr, cons' := before, cons;
    stages := [Stage(System(|kind|, uf.root, cons), before)];
    var more := true;
    while more
      invariant uf.Valid() && |uf.rep| == |uf.root| == |kind| && |cons'| <= |cons|
      invariant Ready(System(|kind|, uf.root, cons'), kind, nonptr) && Traces(sys0, System(|kind|, uf.root, cons'), nonptr)
      invariant Rounds(kind, keepSets, minDel, stages, more) && stages[0] == Stage(old(System(|kind|, uf.root, cons)), before)
      invariant stages[|stages| - 1] == Stage(System(|kind|, uf.root, cons'), nonptr)
      decreases |cons'|, more
    {
      var prev := |cons'|;
      nonptr, cons' := Pass(kind, cons', uf, nonptr, keepSets, sys0);
      ghost var now := Stage(System(|kind|, uf.root, cons'), nonptr);
      OneMoreRound(kind, keepSets, minDel, stages, now);
      stages := stages + [now];
      more := prev - |cons'| >= minDel;
    }
  }

  /** What the least solution of the final list says about the first one: it
      solves it and is the least one to do so exactly if that is equal on the
      nodes that were merged and empty on those that were marked. */
  ghost predicate Optimized(sys0: System, root: seq<nat>, marked: seq<bool>, t: Assignment)
    requires InNodes(sys0.cons, sys0.n)
  {
    && sys0.n <= |t| && sys0.n <= |root| && Solution(sys0, t[..sys0.n])
    && forall s :: LeastSolution(sys0, s) ==>
         && |s| == sys0.n && Included(s, t[..sys0.n])
         && (t[..sys0.n] == s <==> Exact(root[..sys0.n], marked, s))
         && (Grounded(sys0, s) ==> t[..sys0.n] == s)
  }

  lemma FinallyOptimized(sys0: System, kind: seq<Kind>, sys: System, marked: seq<bool>, root': seq<nat>, t: Assignment)
    requires Ready(sys, kind, marked) && Traces(sys0, sys, marked) && sys.root <= root'
    requires sys.n <= |t| && LeastSolution(sys, t[..sys.n])
    ensures Optimized(sys0, root', marked, t)
  {
    var r := t[..sys.n];
    hide Grounded, InNodes, Satisfied;
    assert Clean(sys, marked, r) by { LeastIsClean(sys, kind, marked, r); }
    hide Clean, Unmentioned, ObjectsApart;
    assert root'[..sys.n] == sys.root;
    forall s | LeastSolution(sys0, s)
      ensures |s| == sys0.n && Included(s, r) && (r == s <==> Exact(sys.root, marked, s)) && (Grounded(sys0, s) ==> r == s)
    {
      assert LeastTraced(sys0, sys, marked, s);
      if LeastSolution(sys, s) {
        LeastIsUnique(sys, s, r);
      }
    }
  }

  /** What optimizing a list consists of: one pass with single labels, rounds
      with label sets, and factoring. */
  ghost predicate AllSteps(kind: seq<Kind>, first: Stage, stages: seq<Stage>, cons': seq<Constraint>, n': nat, l2t: map<nat, nat>, s2t: map<nat, nat>) {
    && Rounds(kind, true, MIN_DEL, stages, false) && Stepped(kind, false, first, stages[0])
    && Factoring.FactoredAs(stages[|stages| - 1].sys.cons, |kind|, cons', n', l2t, s2t)
  }

  /** Optimizes the constraint list. */
  method ConsOpt(kind: seq<Kind>, cons: seq<Constraint>, uf: UnionFind.Partition, ghost sys0: System)
      returns (nonptr: seq<bool>, cons': seq<Constraint>, ghost stages: seq<Stage>, ghost l2t: map<nat, nat>, ghost s2t: map<nat, nat>)
    requires uf.Valid() && |uf.rep| == |uf.root| == |kind| && 3 * |kind| <= UnionFind.NODE_RANK_MIN
    requires sys0 == System(|kind|, uf.root, cons) && Prepared(sys0, kind) && ObjectsApart(sys0, kind)
    modifies uf
    ensures uf.Valid() && Legal(System(|uf.root|, uf.root, cons')) && InNodes(cons, |kind|)
    ensures forall t :: LeastSolution(System(|uf.root|, uf.root, cons'), t) ==> Optimized(sys0, uf.root, nonptr, t)
    ensures AllSteps(kind, Stage(sys0, seq(|kind|, i => false)), stages, cons', |uf.root|, l2t, s2t)
    ensures stages[|stages| - 1].marked == nonptr && stages[|stages| - 1].sys.root <= uf.root
    ensures forall t :: LeastSolution(System(|uf.root|, uf.root, cons'), t) ==>
      |kind| <= |t| && LeastSolution(stages[|stages| - 1].sys, t[..|kind|])
  {
    hide UnionFind.Encodes, Ready, Traces, ObjectsApart, LeastSolution, Optimized, Factoring.Conservative, Factoring.FactoredAs, Stepped, RoundAt;
    nonptr := seq(|kind|, i => false);
    ReadyStart(sys0, kind, nonptr);
    nonptr, cons' := Pass(kind, cons, uf, nonptr, false, sys0);
    nonptr, cons', stages := Hr(kind, cons', uf, nonptr, true, MIN_DEL, sys0);
    ghost var sys := System(|kind|, uf.root, cons');
    assert Legal(sys) by { ReadyLegal(sys, kind, nonptr); }
    cons', l2t, s2t := Factoring.FactorLoadsAndStores(cons', uf, sys);
    forall t | LeastSolution(System(|uf.root|, uf.root, cons'), t)
      ensures Optimized(sys0, uf.root, nonptr, t)
    {
      FinallyOptimized(sys0, kind, sys, nonptr, uf.root, t);
    }
  }

  lemma ReadyStart(sys: System, kind: seq<Kind>, marked: seq<bool>)
    requires Prepared(sys, kind) && ObjectsApart(sys, kind)
    requires |marked| == |kind| && forall i :: 0 <= i < |marked| ==> !marked[i]
    ensures Ready(sys, kind, marked) && Traces(sys, sys, marked) && InNodes(sys.cons, sys.n)
  {
    hide Traces, ObjectsApart;
    TracesSelf(sys, marked);
    LegalNodes(sys);
  }

  lemma ReadyLegal(sys: System, kind: seq<Kind>, marked: seq<bool>)
    requires Ready(sys, kind, marked)
    ensures Legal(sys)
  {
  }

  /** The whole analysis: what is computed solves the constraint list and
      contains its least solution; it is the least solution if the stores of
      that are grounded, and for every list in which stores are anchored. */
  method OptimizeAndSolve(kind: seq<Kind>, cons: seq<Constraint>, uf: UnionFind.Partition, ghost sys0: System)
      returns (pts: seq<set<nat>>, ghost stages: seq<Stage>)
    requires uf.Valid() && |uf.rep| == |uf.root| == |kind| && 3 * |kind| <= UnionFind.NODE_RANK_MIN
    requires sys0 == System(|kind|, uf.root, cons) && Prepared(sys0, kind) && ObjectsApart(sys0, kind)
    modifies uf
    ensures Solution(sys0, pts) && InNodes(cons, |kind|)
    ensures forall s :: LeastSolution(sys0, s) ==>
      |s| == sys0.n && Included(s, pts) && (Grounded(sys0, s) ==> pts == s)
    ensures Anchored(cons) ==> LeastSolution(sys0, pts)
    ensures Rounds(kind, true, MIN_DEL, stages, false) && Stepped(kind, false, Stage(sys0, seq(|kind|, i => false)), stages[0])
    ensures LeastSolution(stages[|stages| - 1].sys, pts)
  {
    hide UnionFind.Encodes, Prepared, ObjectsApart, LeastSolution, Anchored, Grounded, Legal, Stepped, RoundAt,
      Factoring.FactoredAs;
    var n := |kind|;
    var nonptr, cons';
    ghost var l2t, s2t;
    nonptr, cons', stages, l2t, s2t := ConsOpt(kind, cons, uf, sys0);
    ghost var root := uf.root;
    var t := Solver.Analyze(uf, cons');
    assert Optimized(sys0, root, nonptr, t);
    pts := t[..n];
    LegalAll(sys0, kind);
    ghost var s := LeastExists(sys0);
    if Anchored(cons) {
      AnchoredIsGrounded(sys0, s) by { LeastSolves(sys0, s); }
    }
  }

  lemma LeastSolves(sys: System, s: Assignment)
    requires LeastSolution(sys, s)
    ensures Solution(sys, s)
  {
  }
}
