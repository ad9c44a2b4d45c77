/** Inclusion constraints between points-to sets, and what it means to solve a
    list of them. */
module Constraints {

  /** The unknown target of pointers cast from integers; nothing is ever read
      from it or written to it. */
  const I2P: nat := 1

  datatype Constraint =
    | AddrOf(dest: nat, src: nat)
    | Copy(dest: nat, src: nat)
    | Load(dest: nat, src: nat)
    | Store(dest: nat, src: nat)

  /** A points-to set for every node. */
  type Assignment = seq<set<nat>>

  /** A constraint list over nodes 0..n-1 of which some were already unified:
      `root` sends each node to the representative of its class. */
  datatype System = System(n: nat, root: seq<nat>, cons: seq<Constraint>)

  predicate Mentions(c: Constraint, n: nat) {
    0 < c.dest < n && 0 < c.src < n
  }

  /** What a constraint list promises: no constraint mentions node 0, only an
      address-of may mention i2p, and no copy is from a node to itself. */
  predicate LegalConstraint(c: Constraint, n: nat) {
    && Mentions(c, n)
    && (!c.AddrOf? ==> c.dest != I2P && c.src != I2P)
    && (c.Copy? ==> c.dest != c.src)
  }

  /** Representatives are fixed points, and neither node 0 nor i2p is ever
      unified with anything. */
  ghost predicate LegalPartition(root: seq<nat>) {
    && (forall i :: 0 <= i < |root| ==> root[i] < |root|)
    && (forall i :: 0 <= i < |root| ==> root[root[i]] == root[i])
    && (forall i :: 0 <= i < |root| ==> (root[i] == 0 <==> i == 0) && (root[i] == I2P <==> i == I2P))
  }

  ghost predicate Legal(sys: System) {
    && sys.n > I2P
    && |sys.root| == sys.n
    && LegalPartition(sys.root)
    && (forall c :: c in sys.cons ==>
          LegalConstraint(c, sys.n) && sys.root[c.dest] == c.dest && sys.root[c.src] == c.src)
  }

  /** The inclusion that a constraint asks for. */
  ghost predicate Satisfied(c: Constraint, s: Assignment)
    requires c.dest < |s| && c.src < |s|
    requires forall i, x :: 0 <= i < |s| && x in s[i] ==> x < |s|
  {
    match c
    case AddrOf(d, o) => o in s[d]
    case Copy(d, o) => s[o] <= s[d]
    case Load(d, o) => forall x :: x in s[o] && x != I2P ==> s[x] <= s[d]
    case Store(d, o) => forall x :: x in s[d] && x != I2P ==> s[o] <= s[x]
  }

  ghost predicate InRange(s: Assignment) {
    forall i, x :: 0 <= i < |s| && x in s[i] ==> x < |s|
  }

  ghost predicate Solution(sys: System, s: Assignment) {
    && |s| == sys.n == |sys.root|
    && InRange(s)
    && (forall i :: 0 <= i < |s| ==> sys.root[i] < |s| && s[i] == s[sys.root[i]])
    && (forall c :: c in sys.cons ==> c.dest < |s| && c.src < |s| && Satisfied(c, s))
  }

  ghost predicate Included(s: Assignment, t: Assignment) {
    |s| == |t| && forall i :: 0 <= i < |s| ==> s[i] <= t[i]
  }

  ghost predicate LeastSolution(sys: System, s: Assignment) {
    Solution(sys, s) && forall t :: Solution(sys, t) ==> Included(s, t)
  }

  /** What node `i` can be dereferenced to. */
  ghost function Deref(s: Assignment, i: nat): (r: set<nat>)
    requires i < |s|
  {
    set x, y | x in s[i] && x != I2P && x < |s| && y in s[x] :: y
  }

  lemma LeastIsUnique(sys: System, s: Assignment, t: Assignment)
    requires LeastSolution(sys, s) && LeastSolution(sys, t)
    ensures s == t
  {
    assert Included(s, t) && Included(t, s);
    assert forall i :: 0 <= i < |s| ==> s[i] == t[i];
  }

  // Chains of copies.

  ghost predicate CopyStep(cons: seq<Constraint>, a: nat, b: nat) {
    Copy(b, a) in cons
  }

  ghost predicate IsCopyChain(cons: seq<Constraint>, p: seq<nat>) {
    p != [] && forall i :: 0 <= i < |p| - 1 ==> CopyStep(cons, p[i], p[i + 1])
  }

  /** The copies of the list lead from node `a` to node `b`. */
  ghost predicate CopyLeads(cons: seq<Constraint>, a: nat, b: nat) {
    exists p :: IsCopyChain(cons, p) && p[0] == a && p[|p| - 1] == b
  }

  // What holds in every solution of a system.

  /** Node `a` points to no more than node `b` does. */
  ghost predicate Below(sys: System, a: nat, b: nat) {
    a < sys.n && b < sys.n && forall s :: Solution(sys, s) ==> s[a] <= s[b]
  }

  /** Node `i` points to `x`. */
  ghost predicate PointsTo(sys: System, i: nat, x: nat) {
    i < sys.n && x < sys.n && forall s :: Solution(sys, s) ==> x in s[i]
  }

  /** Constraint `c` is satisfied. */
  ghost predicate Implied(sys: System, c: Constraint) {
    c.dest < sys.n && c.src < sys.n && forall s :: Solution(sys, s) ==> Satisfied(c, s)
  }

  lemma BelowTransitive(sys: System, a: nat, b: nat, c: nat)
    requires Below(sys, a, b) && Below(sys, b, c)
    ensures Below(sys, a, c)
  {
  }

  lemma PointsToBelow(sys: System, a: nat, b: nat, x: nat)
    requires PointsTo(sys, a, x) && Below(sys, a, b)
    ensures PointsTo(sys, b, x)
  {
  }

  /** A load through `x` is a copy from `x`. */
  lemma LoadIsCopy(sys: System, c: Constraint, x: nat)
    requires c.Load? && Implied(sys, c) && PointsTo(sys, c.src, x) && x != I2P
    ensures Below(sys, x, c.dest)
  {
  }

  /** A store through `x` is a copy to `x`. */
  lemma StoreIsCopy(sys: System, c: Constraint, x: nat)
    requires c.Store? && Implied(sys, c) && PointsTo(sys, c.dest, x) && x != I2P
    ensures Below(sys, c.src, x)
  {
  }

  /** The endpoints of a load or store may be replaced by equivalent nodes. */
  lemma ImpliedRewrite(sys: System, c: Constraint, d: nat, o: nat)
    requires Implied(sys, c) && (c.Load? || c.Store?)
    requires Below(sys, c.dest, d) && Below(sys, d, c.dest)
    requires Below(sys, c.src, o) && Below(sys, o, c.src)
    ensures Implied(sys, c.(dest := d, src := o))
  {
  }

  lemma GivenIsImplied(sys: System, c: Constraint)
    requires Legal(sys) && c in sys.cons
    ensures Implied(sys, c)
    ensures c.Copy? ==> Below(sys, c.src, c.dest)
    ensures c.AddrOf? ==> PointsTo(sys, c.dest, c.src)
  {
  }

  // The least solution exists.

  /** What every solution has in common. */
  ghost function Common(sys: System): Assignment {
    seq(sys.n, (i: nat) => set x: nat | x < sys.n && PointsTo(sys, i, x))
  }

  ghost function AllNodes(n: nat): (r: set<nat>)
    ensures forall x :: x in r <==> 0 <= x < n
  {
    if n == 0 then {} else AllNodes(n - 1) + {n - 1}
  }

  ghost function Everything(n: nat): Assignment {
    seq(n, i => AllNodes(n))
  }

  lemma EverythingSolves(sys: System)
    requires Legal(sys)
    ensures Solution(sys, Everything(sys.n))
  {
  }

  lemma CommonSatisfies(sys: System, c: Constraint)
    requires Legal(sys) && c in sys.cons && InRange(Common(sys))
    ensures c.dest < sys.n && c.src < sys.n && Satisfied(c, Common(sys))
  {
  }

  /** Every constraint list has a least solution. */
  lemma LeastExists(sys: System) returns (s: Assignment)
    requires Legal(sys)
    ensures LeastSolution(sys, s)
  {
    s := Common(sys);
    EverythingSolves(sys);
    forall i | 0 <= i < sys.n
      ensures sys.root[i] < |s| && s[i] == s[sys.root[i]]
    {
      forall x
        ensures x in s[i] <==> x in s[sys.root[i]]
      {
        assert forall t :: Solution(sys, t) ==> t[i] == t[sys.root[i]];
      }
    }
    assert InRange(s);
    forall c | c in sys.cons
      ensures c.dest < |s| && c.src < |s| && Satisfied(c, s)
    {
      CommonSatisfies(sys, c);
    }
    forall t | Solution(sys, t)
      ensures Included(s, t)
    {
      forall i | 0 <= i < |s|
        ensures s[i] <= t[i]
      {
      }
    }
  }
}
