/** The offline graph of pointer-equivalence detection, and what the labels
    given to its nodes are worth. */
module OfflineGraph {
  import opened Tarjan

  /** One node per variable (and per dereferenced variable): what it includes,
      what it includes only as a dereference, the labels it starts with, and
      whether something unknown may flow into it. Edges lead from a node to
      the nodes it includes. Node 0 is not used. */
  datatype Graph = Graph(direct: seq<set<nat>>, implied: seq<set<nat>>, pre: seq<set<nat>>, indirect: seq<bool>)

  ghost predicate WellFormed(g: Graph) {
    && |g.direct| == |g.implied| == |g.pre| == |g.indirect|
    && (forall v :: 0 <= v < |g.direct| ==> EdgesFormed(g, v))
  }

  ghost predicate EdgesFormed(g: Graph, v: nat)
    requires |g.direct| == |g.implied| == |g.pre| && v < |g.direct|
  {
    (forall e :: e in Succ(g, v) ==> 0 < e < |g.direct|) && 0 !in g.pre[v]
  }

  ghost function Succ(g: Graph, v: nat): set<nat>
    requires v < |g.direct| == |g.implied|
  {
    g.direct[v] + g.implied[v]
  }

  /** What each label stands for. */
  type Meaning = map<nat, set<nat>>

  /** A value for every node under which every edge is an inclusion and every
      starting label, which names a target, stands for part of its node. */
  ghost predicate Fits(g: Graph, val: seq<set<nat>>, mean: Meaning) {
    WellFormed(g) && |val| == |g.direct| && forall v :: 0 <= v < |val| ==> FitsAt(g, val, mean, v)
  }

  ghost predicate FitsAt(g: Graph, val: seq<set<nat>>, mean: Meaning, v: nat)
    requires WellFormed(g) && |val| == |g.direct| && v < |val|
  {
    && (forall w :: w in Succ(g, v) && w < |val| ==> val[w] <= val[v])
    && (forall l :: l in g.pre[v] ==> l in mean && l in mean[l] && mean[l] <= val[v])
  }

  // Paths.

  ghost predicate IsEdge(g: Graph, a: nat, b: nat) {
    a < |g.direct| == |g.implied| && b < |g.direct| && b in Succ(g, a)
  }

  ghost predicate IsPath(g: Graph, p: seq<nat>) {
    && p != [] && (forall i :: 0 <= i < |p| ==> p[i] < |g.direct|)
    && forall i :: 0 <= i < |p| - 1 ==> IsEdge(g, p[i], p[i + 1])
  }

  /** A path leads from `a` to `b`. */
  ghost predicate Reach(g: Graph, a: nat, b: nat) {
    exists p :: IsPath(g, p) && p[0] == a && p[|p| - 1] == b
  }

  lemma ReachSelf(g: Graph, a: nat)
    requires a < |g.direct|
    ensures Reach(g, a, a)
  {
    assert IsPath(g, [a]);
  }

  lemma ReachEdge(g: Graph, a: nat, b: nat)
    requires IsEdge(g, a, b)
    ensures Reach(g, a, b)
  {
    var p := [a, b];
    assert IsPath(g, p) && p[0] == a && p[|p| - 1] == b;
  }

  lemma ReachTransitive(g: Graph, a: nat, b: nat, c: nat)
    requires Reach(g, a, b) && Reach(g, b, c)
    ensures Reach(g, a, c)
  {
    var p :| IsPath(g, p) && p[0] == a && p[|p| - 1] == b;
    var q :| IsPath(g, q) && q[0] == b && q[|q| - 1] == c;
    var r := p + q[1..];
    forall i | 0 <= i < |r| - 1
      ensures IsEdge(g, r[i], r[i + 1])
    {
      if i < |p| - 1 {
        assert IsEdge(g, p[i], p[i + 1]);
      } else {
        assert r[i] == q[i - (|p| - 1)] && IsEdge(g, q[i - (|p| - 1)], q[i - (|p| - 1) + 1]);
      }
    }
    assert IsPath(g, r) && r[0] == a && r[|r| - 1] == c;
  }

  /** The first node leads to the second. */
  ghost function Leads(g: Graph): Relation {
    iset q: (nat, nat) | Reach(g, q.0, q.1)
  }

  lemma LeadsTransitive(g: Graph)
    ensures Transitive(Leads(g))
  {
    forall a, b, c
      ensures Composes(Leads(g), a, b, c)
    {
      if Reach(g, a, b) && Reach(g, b, c) {
        ReachTransitive(g, a, b, c);
      }
    }
  }

  /** A node includes what it leads to. */
  lemma {:induction false} PathIncludes(g: Graph, val: seq<set<nat>>, mean: Meaning, p: seq<nat>)
    requires Fits(g, val, mean) && IsPath(g, p)
    ensures p[0] < |val| && p[|p| - 1] < |val| && val[p[|p| - 1]] <= val[p[0]]
    decreases |p|
  {
    if |p| > 1 {
      var q := p[1..];
      assert forall i :: 0 <= i < |q| ==> q[i] == p[i + 1];
      PathIncludes(g, val, mean, q);
      assert IsEdge(g, p[0], p[0 + 1]) && FitsAt(g, val, mean, p[0]);
    }
  }

  lemma ReachIncludes(g: Graph, val: seq<set<nat>>, mean: Meaning, a: nat, b: nat)
    requires Fits(g, val, mean) && Reach(g, a, b)
    ensures a < |val| && b < |val| && val[b] <= val[a]
  {
    var p :| IsPath(g, p) && p[0] == a && p[|p| - 1] == b;
    PathIncludes(g, val, mean, p);
  }

  /** The union of what some labels stand for; label 0 stands for nothing. */
  ghost function Worth(mean: Meaning, ls: set<nat>): set<nat> {
    set l, x | l in ls && l in mean && x in mean[l] :: x
  }

  // The state of the search: the merged nodes and their labels, and when each
  // component was closed.

  datatype Off = Off(
    root: seq<nat>, direct: seq<set<nat>>, implied: seq<set<nat>>, labels: seq<set<nat>>, indirect: seq<bool>,
    next: nat, memo: map<set<nat>, nat>, roots: set<nat>, mean: Meaning, when: map<nat, nat>)

  ghost predicate Sizes(g: Graph, s: Off) {
    |g.direct| == |s.root| == |s.direct| == |s.implied| == |s.labels| == |s.indirect|
  }

  /** Fresh labels are really fresh, and a label that stands for a set of
      labels is worth what they are. */
  ghost predicate TableOk(s: Off) {
    && (forall l :: l in s.mean ==> 0 < l < s.next)
    && (forall ls :: ls in s.memo ==> MemoOk(s.memo[ls], s.mean, ls))
  }

  ghost predicate MemoOk(l: nat, mean: Meaning, ls: set<nat>) {
    l in mean && mean[l] == Worth(mean, ls) && forall k :: k in ls ==> k in mean
  }

  ghost predicate KnownLabels(mean: Meaning, ls: set<nat>) {
    && ls != {} && (0 in ls ==> ls == {0})
    && (forall l :: l in ls && l != 0 ==> l in mean)
  }

  /** The labels `ls` of node `v` are worth no more than its value, and exactly
      that if it is indirect; they cover its starting labels. */
  ghost predicate NodeLabelled(g: Graph, val: seq<set<nat>>, mean: Meaning, ls: set<nat>, v: nat)
    requires WellFormed(g) && |val| == |g.direct| && v < |val|
  {
    && KnownLabels(mean, ls)
    && Worth(mean, ls) <= val[v]
    && (g.indirect[v] ==> 0 !in ls && val[v] <= Worth(mean, ls))
    && (forall l :: l in g.pre[v] ==> 0 !in ls && l in mean && mean[l] <= Worth(mean, ls))
  }

  /** The labels of a node cover those of a node it includes. */
  ghost predicate Covers(mean: Meaning, ls: set<nat>, below: set<nat>) {
    Worth(mean, below) <= Worth(mean, ls) && (0 in ls ==> 0 in below)
  }

  ghost predicate EdgeLabelled(s: Off, v: nat, w: nat)
    requires |s.labels| == |s.root| && v < |s.root|
  {
    && s.root[v] < |s.root| && w < |s.root| && s.root[w] in s.roots && s.root[w] < |s.root|
    && Covers(s.mean, s.labels[s.root[v]], s.labels[s.root[w]])
  }

  ghost predicate Labelled(g: Graph, val: seq<set<nat>>, s: Off, v: nat)
    requires WellFormed(g) && |val| == |g.direct| && Sizes(g, s) && v < |val|
  {
    && s.root[v] < |s.root|
    && NodeLabelled(g, val, s.mean, s.labels[s.root[v]], v)
    && (forall w :: w in g.direct[v] ==> EdgeLabelled(s, v, w))
  }

  /** Node `v` and its representative lead to each other, and its edges lead to
      components that were closed no later. */
  ghost predicate Placed(g: Graph, s: Off, v: nat)
    requires WellFormed(g) && Sizes(g, s) && v < |s.root|
  {
    && s.root[v] in s.when && Reach(g, v, s.root[v]) && Reach(g, s.root[v], v)
    && forall w :: w in Succ(g, v) ==> Sooner(s, w, v)
  }

  ghost predicate Sooner(s: Off, w: nat, v: nat) {
    && w < |s.root| && v < |s.root| && s.root[w] in s.when && s.root[v] in s.when
    && s.when[s.root[w]] <= s.when[s.root[v]]
  }

  /** Components are closed one after the other. */
  ghost predicate WhenOk(s: Off) {
    InOrder(s.roots, s.when)
  }

  /** Nothing has happened to node `v` yet. */
  ghost predicate Untouched(g: Graph, s: Off, v: nat)
    requires WellFormed(g) && Sizes(g, s) && v < |s.root|
  {
    && s.root[v] == v && s.direct[v] == g.direct[v] && s.implied[v] == g.implied[v]
    && s.labels[v] == g.pre[v] && s.indirect[v] == g.indirect[v]
  }

  ghost predicate NodeState(g: Graph, val: seq<set<nat>>, s: Off, t: Search, v: nat)
    requires WellFormed(g) && |val| == |g.direct| == |t.num| && Sizes(g, s) && v < |val|
  {
    && (s.root[v] in s.roots ==> t.num[v] > 0 && Labelled(g, val, s, v) && Placed(g, s, v))
    && (s.root[v] !in s.roots ==> Untouched(g, s, v))
  }

  ghost predicate AllFollowed(t: Search, v: nat, es: set<nat>) {
    forall w :: w in es ==> Followed(t, v, w)
  }

  ghost predicate OffOk(g: Graph, val: seq<set<nat>>, s: Off, t: Search) {
    && Fits(g, val, s.mean) && Sizes(g, s) && TableOk(s) && WhenOk(s)
    && |t.num| == |g.direct| && Inv(Leads(g), t) && Collapsing(s.root, t, s.roots)
    && (forall v :: 0 <= v < |val| ==> NodeState(g, val, s, t, v))
    && (forall v :: v in t.stack ==> v < |val| && AllFollowed(t, v, Succ(g, v)))
  }

  // Meanings only grow.

  ghost predicate Extends(mean: Meaning, mean': Meaning) {
    forall l :: l in mean ==> l in mean' && mean'[l] == mean[l]
  }

  lemma WorthSame(mean: Meaning, mean': Meaning, ls: set<nat>)
    requires Extends(mean, mean') && 0 !in mean' && forall l :: l in ls && l != 0 ==> l in mean
    ensures Worth(mean', ls) == Worth(mean, ls)
  {
  }

  lemma WorthWithin(mean: Meaning, ls: set<nat>, b: set<nat>)
    requires forall l :: l in ls && l in mean ==> mean[l] <= b
    ensures Worth(mean, ls) <= b
  {
  }

  lemma WorthHas(mean: Meaning, ls: set<nat>, l: nat)
    requires l in ls && l in mean
    ensures mean[l] <= Worth(mean, ls)
  {
  }

  lemma WorthOne(mean: Meaning, l: nat)
    requires l in mean
    ensures Worth(mean, {l}) == mean[l]
  {
  }

  // Labelling a collapsed component.

  /** The labels that reach representative `m` over the edges `es`. */
  ghost function Incoming(s: Off, m: nat, es: set<nat>): set<nat>
    requires |s.labels| == |s.root| && InRange(s, es)
  {
    set w, l | w in es && s.root[w] != m && 0 !in s.labels[s.root[w]] && l in s.labels[s.root[w]] :: l
  }

  ghost predicate InRange(s: Off, es: set<nat>) {
    forall w :: w in es ==> w < |s.root| && s.root[w] < |s.root|
  }

  /** What labelling must find: the component of `m` is collapsed, and its
      neighbours are labelled with parts of its value `b`. */
  ghost predicate Ripe(s: Off, m: nat, b: set<nat>) {
    && |s.labels| == |s.root| == |s.direct| == |s.indirect| && m < |s.root| && TableOk(s) && InRange(s, s.direct[m])
    && 0 !in s.labels[m] && (forall l :: l in s.labels[m] ==> l in s.mean && s.mean[l] <= b)
    && (forall w :: w in s.direct[m] && s.root[w] != m ==> NeighbourRipe(s, w, b))
  }

  ghost predicate NeighbourRipe(s: Off, w: nat, b: set<nat>)
    requires |s.labels| == |s.root| && w < |s.root| && s.root[w] < |s.root|
  {
    KnownLabels(s.mean, s.labels[s.root[w]]) && Worth(s.mean, s.labels[s.root[w]]) <= b
  }

  /** What labelling must deliver: labels `ls` for `m`, with the tables
      extended to `s'`. */
  ghost predicate Ripened(s: Off, m: nat, b: set<nat>, s': Off, ls: set<nat>)
    requires Ripe(s, m, b)
  {
    && s' == s.(next := s'.next, memo := s'.memo, mean := s'.mean)
    && TableOk(s') && Extends(s.mean, s'.mean)
    && KnownLabels(s'.mean, ls) && Worth(s'.mean, ls) <= b
    && (s.indirect[m] ==> 0 !in ls && b <= Worth(s'.mean, ls))
    && (forall l :: l in s.labels[m] ==> 0 !in ls && s.mean[l] <= Worth(s'.mean, ls))
    && (forall w :: w in s.direct[m] && s.root[w] != m ==> Covers(s'.mean, ls, s.labels[s.root[w]]))
  }

  /** Everything that reaches `m`, itself included, is known and part of `b`. */
  lemma IncomingKnown(s: Off, m: nat, b: set<nat>, ls: set<nat>)
    requires Ripe(s, m, b) && ls == s.labels[m] + Incoming(s, m, s.direct[m])
    ensures 0 !in ls && (forall l :: l in ls ==> l in s.mean && s.mean[l] <= b)
  {
  }

  /** Replacing what reaches `m` by labels of the same worth. */
  lemma RipenDirect(s: Off, m: nat, b: set<nat>, s': Off, all: set<nat>, ls: set<nat>)
    requires Ripe(s, m, b) && all == s.labels[m] + Incoming(s, m, s.direct[m]) && !s.indirect[m]
    requires s' == s.(next := s'.next, memo := s'.memo, mean := s'.mean) && TableOk(s') && Extends(s.mean, s'.mean)
    requires KnownLabels(s'.mean, ls) && Worth(s'.mean, ls) == Worth(s.mean, all)
    requires 0 in ls <==> all == {}
    ensures Ripened(s, m, b, s', ls)
  {
  }

  /** Giving an indirect node a label of its own that stands for its value. */
  lemma RipenIndirect(s: Off, m: nat, b: set<nat>, s': Off, all: set<nat>, ls: set<nat>)
    requires Ripe(s, m, b) && all == s.labels[m] + Incoming(s, m, s.direct[m]) && s.indirect[m]
    requires s' == s.(next := s.next + 1, mean := s.mean[s.next := b]) && 0 < s.next
    requires s.next in ls && ls <= all + {s.next}
    ensures Ripened(s, m, b, s', ls)
  {
    hide Incoming;
    IncomingKnown(s, m, b, all);
    FreshTable(s, b);
    hide TableOk;
    WorthHas(s'.mean, ls, s.next);
    forall l | l in ls && l in s'.mean
      ensures s'.mean[l] <= b
    {
    }
    hide Worth;
    WorthWithin(s'.mean, ls, b);
    forall w | w in s.direct[m] && s.root[w] != m
      ensures Covers(s'.mean, ls, s.labels[s.root[w]])
    {
      assert NeighbourRipe(s, w, b);
      WorthSame(s.mean, s'.mean, s.labels[s.root[w]]);
    }
  }

  lemma FreshTable(s: Off, b: set<nat>)
    requires TableOk(s) && 0 < s.next
    ensures var s' := s.(next := s.next + 1, mean := s.mean[s.next := b]);
      TableOk(s') && Extends(s.mean, s'.mean) && 0 !in s'.mean && s.next !in s.mean
  {
    hide Worth;
    var s' := s.(next := s.next + 1, mean := s.mean[s.next := b]);
    forall ls | ls in s.memo
      ensures MemoOk(s.memo[ls], s'.mean, ls)
    {
      assert MemoOk(s.memo[ls], s.mean, ls);
      WorthSame(s.mean, s'.mean, ls);
    }
  }

  /** Giving a set of labels a label of its own. */
  lemma MemoTable(s: Off, all: set<nat>)
    requires TableOk(s) && 0 < s.next && (forall l :: l in all ==> l in s.mean)
    ensures var s' := s.(next := s.next + 1, memo := s.memo[all := s.next], mean := s.mean[s.next := Worth(s.mean, all)]);
      TableOk(s') && Extends(s.mean, s'.mean) && Worth(s'.mean, {s.next}) == Worth(s.mean, all)
  {
    FreshTable(s, Worth(s.mean, all));
    var mean' := s.mean[s.next := Worth(s.mean, all)];
    hide Worth;
    WorthSame(s.mean, mean', all);
    WorthOne(mean', s.next);
  }
}
