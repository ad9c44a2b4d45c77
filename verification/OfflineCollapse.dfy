/** Collapsing and labelling a component of an offline graph. */
module OfflineCollapse {
  import opened Tarjan
  import opened OfflineGraph
  import opened OfflineSearch
  import UnionFind

  /** Everything that the nodes `c` hold. */
  ghost function UnionOf(sets: seq<set<nat>>, c: set<nat>): set<nat> {
    set v, e | v in c && v < |sets| && e in sets[v] :: e
  }

  /** Node `m` holds what the nodes `c` started with. */
  ghost predicate Gathered(g: Graph, s: Off, c: set<nat>, m: nat)
    requires WellFormed(g) && Sizes(g, s) && m < |s.root|
  {
    && s.direct[m] == UnionOf(g.direct, c) && s.implied[m] == UnionOf(g.implied, c)
    && s.labels[m] == UnionOf(g.pre, c)
    && (s.indirect[m] <==> exists v :: v in c && v < |g.indirect| && g.indirect[v])
  }

  ghost predicate SameNode(s: Off, s': Off, q: nat)
    requires q < |s.direct| == |s.implied| == |s.labels| == |s.indirect|
    requires q < |s'.direct| == |s'.implied| == |s'.labels| == |s'.indirect|
  {
    s'.direct[q] == s.direct[q] && s'.implied[q] == s.implied[q] && s'.labels[q] == s.labels[q] && s'.indirect[q] == s.indirect[q]
  }

  /** The component is merged down to height `j` of the stack. */
  ghost predicate Popped(g: Graph, s0: Off, s: Off, t: Search, n: nat, base: nat, j: nat, m: nat) {
    && WellFormed(g) && Sizes(g, s0) && Sizes(g, s)
    && base <= j <= |t.stack| && m in Component(t, n, j) && m < |s.root|
    && Joined(s0.root, s.root, Component(t, n, j), m)
    && Gathered(g, s, Component(t, n, j), m)
    && (forall q :: 0 <= q < |s.root| && q !in Component(t, n, j) ==> SameNode(s0, s, q))
    && s.next == s0.next && s.memo == s0.memo && s.roots == s0.roots && s.mean == s0.mean && s.when == s0.when
  }

  /** Merging `c` into `p`. */
  ghost function Merged(s: Off, p: nat, c: nat): Off
    requires p < |s.direct| == |s.implied| == |s.labels| == |s.indirect| && c < |s.direct|
  {
    s.(root := UnionFind.Relabel(s.root, c, p),
       direct := s.direct[p := s.direct[p] + s.direct[c]][c := {}],
       implied := s.implied[p := s.implied[p] + s.implied[c]][c := {}],
       labels := s.labels[p := s.labels[p] + s.labels[c]][c := {}],
       indirect := s.indirect[p := s.indirect[p] || s.indirect[c]])
  }

  lemma UnionOne(sets: seq<set<nat>>, v: nat)
    requires v < |sets|
    ensures UnionOf(sets, {v}) == sets[v]
  {
  }

  ghost predicate AtRoot(g: Graph, val: seq<set<nat>>, s: Off, t0: Search, t: Search, n: nat) {
    Exploring(g, val, s, t0, t, n, SuccOf(g, n)) && t.low[n] == t.num[n]
  }

  /** A member of the component leads to the node that was visited first and
      back. */
  lemma MemberReach(g: Graph, val: seq<set<nat>>, s: Off, t0: Search, t: Search, n: nat, v: nat)
    requires AtRoot(g, val, s, t0, t, n) && v in Component(t, n, |t0.stack|)
    ensures Reach(g, n, v) && Reach(g, v, n)
  {
    hide NodeState, FitsAt, EdgesFormed, TableOk, Reach;
    if v != n {
      var i :| |t0.stack| <= i < |t.stack| && t.stack[i] == v;
      ComponentTied(Leads(g), t, n, |t0.stack|, i);
    } else {
      ReachSelf(g, n);
    }
  }

  /** A member of the component is untouched so far, and has the value of the
      node that was visited first. */
  lemma MemberTied(g: Graph, val: seq<set<nat>>, s: Off, t0: Search, t: Search, n: nat, v: nat)
    requires AtRoot(g, val, s, t0, t, n) && v in Component(t, n, |t0.stack|)
    ensures v < |s.root| && s.root[v] == v && v !in s.roots && Untouched(g, s, v)
    ensures n < |val| && v < |val| && val[v] == val[n]
  {
    hide Labelled, Placed, Reach, FitsAt, EdgesFormed, TableOk, PairOk;
    MemberReach(g, val, s, t0, t, n, v);
    ReachIncludes(g, val, s.mean, n, v);
    ReachIncludes(g, val, s.mean, v, n);
    OpenNum(g, val, s, t, v);
    assert NodeState(g, val, s, t, v);
  }

  lemma PopStart(g: Graph, val: seq<set<nat>>, s: Off, t0: Search, t: Search, n: nat)
    requires AtRoot(g, val, s, t0, t, n)
    ensures Popped(g, s, s, t, n, |t0.stack|, |t.stack|, n)
  {
    assert Component(t, n, |t.stack|) == {n};
    assert n in Component(t, n, |t0.stack|);
    MemberTied(g, val, s, t0, t, n, n);
    hide Inv, Collapsing, NodeState;
    UnionOne(g.direct, n);
    UnionOne(g.implied, n);
    UnionOne(g.pre, n);
  }

  /** The next node on the stack is not merged yet. */
  lemma PopNext(g: Graph, val: seq<set<nat>>, s0: Off, s: Off, t0: Search, t: Search, n: nat, j: nat, m: nat)
    requires AtRoot(g, val, s0, t0, t, n) && Popped(g, s0, s, t, n, |t0.stack|, j, m) && |t0.stack| < j
    ensures var v := t.stack[j - 1];
      && v < |s.root| && v !in Component(t, n, j) && Component(t, n, j - 1) == Component(t, n, j) + {v}
      && s.root[v] == v && s.root[m] == m && m != v && Untouched(g, s, v)
  {
    var v := t.stack[j - 1];
    PopsApart(Leads(g), t, n, |t0.stack|, j);
    PopsAreMembers(t, n, |t0.stack|, j);
    MemberTied(g, val, s0, t0, t, n, v);
    MemberTied(g, val, s0, t0, t, n, m);
    hide AtRoot, Component, Gathered;
    assert SameNode(s0, s, v);
  }

  lemma GatheredMore(g: Graph, s: Off, k: set<nat>, m: nat, v: nat, p: nat, c: nat)
    requires WellFormed(g) && Sizes(g, s) && m < |s.root| && v < |s.root| && m != v
    requires Gathered(g, s, k, m) && Untouched(g, s, v) && ((p == m && c == v) || (p == v && c == m))
    ensures Gathered(g, Merged(s, p, c), k + {v}, p)
  {
  }

  lemma PopMerge(g: Graph, val: seq<set<nat>>, s0: Off, s: Off, t0: Search, t: Search, n: nat, j: nat, m: nat, p: nat, c: nat)
    requires AtRoot(g, val, s0, t0, t, n) && Popped(g, s0, s, t, n, |t0.stack|, j, m) && |t0.stack| < j
    requires (p == m && c == t.stack[j - 1]) || (p == t.stack[j - 1] && c == m)
    ensures p < |s.direct| && c < |s.direct|
    ensures Popped(g, s0, Merged(s, p, c), t, n, |t0.stack|, j - 1, p)
  {
    hide AtRoot, Component, Gathered, Untouched, UnionFind.Relabel, EdgesFormed;
    PopNext(g, val, s0, s, t0, t, n, j, m);
    var v, k := t.stack[j - 1], Component(t, n, j);
    JoinStep(s0.root, s.root, k, m, v, p, c);
    GatheredMore(g, s, k, m, v, p, c);
    forall q | 0 <= q < |s.root| && q !in k + {v}
      ensures SameNode(s0, Merged(s, p, c), q)
    {
      assert SameNode(s0, s, q);
    }
  }

  // Labelling.

  /** An edge of a member leads into the component or to a labelled node. */
  lemma ComponentEdge(g: Graph, val: seq<set<nat>>, s: Off, t0: Search, t: Search, n: nat, v: nat, w: nat)
    requires AtRoot(g, val, s, t0, t, n) && v in Component(t, n, |t0.stack|) && w in SuccOf(g, v)
    ensures w < |s.root| && (w in Component(t, n, |t0.stack|) || s.root[w] in s.roots)
  {
    hide NodeState, PairOk, FitsAt, EdgesFormed, TableOk;
    if v != n {
      var i :| |t0.stack| <= i < |t.stack| && t.stack[i] == v;
      assert v in t.stack && AllFollowed(t, v, Succ(g, v));
    }
    assert Followed(t, v, w);
    assert Settled(s.root, t, s.roots, w);
    MemberNums(Leads(g), t, n, |t0.stack|, w);
  }

  /** The edges of the component seen from its representative. */
  lemma MergedEdge(g: Graph, val: seq<set<nat>>, s0: Off, s: Off, t0: Search, t: Search, n: nat, m: nat, v: nat, w: nat)
    requires AtRoot(g, val, s0, t0, t, n) && Popped(g, s0, s, t, n, |t0.stack|, |t0.stack|, m)
    requires v in Component(t, n, |t0.stack|) && w in SuccOf(g, v)
    ensures w < |s.root| && s.root[w] < |s.root|
    ensures s.root[w] == m || (s.root[w] == s0.root[w] && s0.root[w] in s0.roots && SameNode(s0, s, s0.root[w]))
  {
    ComponentEdge(g, val, s0, t0, t, n, v, w);
    assert m in Component(t, n, |t0.stack|) && Exploring(g, val, s0, t0, t, n, SuccOf(g, n));
    RootInRange(g, val, s0, t, w);
    if w in Component(t, n, |t0.stack|) {
      MemberTied(g, val, s0, t0, t, n, w);
    }
    hide AtRoot, Exploring, Component, Gathered;
  }

  /** The neighbours of the component are labelled with parts of its value. */
  lemma NeighbourLabelled(g: Graph, val: seq<set<nat>>, s: Off, t0: Search, t: Search, n: nat, v: nat, w: nat)
    requires AtRoot(g, val, s, t0, t, n) && v in Component(t, n, |t0.stack|)
    requires w in SuccOf(g, v) && w < |s.root| && s.root[w] in s.roots
    ensures n < |val| && s.root[w] < |s.labels| && KnownLabels(s.mean, s.labels[s.root[w]])
    ensures Worth(s.mean, s.labels[s.root[w]]) <= val[n]
  {
    hide Inv, Collapsing, TableOk, EdgesFormed, Worth;
    MemberTied(g, val, s, t0, t, n, v);
    assert NodeState(g, val, s, t, w) && FitsAt(g, val, s.mean, v);
  }

  lemma StartLabels(g: Graph, val: seq<set<nat>>, s: Off, t0: Search, t: Search, n: nat, v: nat, l: nat)
    requires AtRoot(g, val, s, t0, t, n) && v in Component(t, n, |t0.stack|) && v < |g.pre| && l in g.pre[v]
    ensures l != 0 && l in s.mean && n < |val| && s.mean[l] <= val[n]
  {
    hide Inv, Collapsing, TableOk, NodeState, Worth;
    MemberTied(g, val, s, t0, t, n, v);
    assert FitsAt(g, val, s.mean, v) && EdgesFormed(g, v);
  }

  lemma PoppedRipe(g: Graph, val: seq<set<nat>>, s0: Off, s: Off, t0: Search, t: Search, n: nat, m: nat)
    requires AtRoot(g, val, s0, t0, t, n) && Popped(g, s0, s, t, n, |t0.stack|, |t0.stack|, m)
    ensures n < |val| && Ripe(s, m, val[n])
  {
    RipeTables(g, val, s0, t0, t, n);
    hide AtRoot, Component, TableOk, Worth, EdgesFormed, Leads;
    var c := Component(t, n, |t0.stack|);
    forall w | w in s.direct[m]
      ensures w < |s.root| && s.root[w] < |s.root|
      ensures s.root[w] != m ==> NeighbourRipe(s, w, val[n])
    {
      var v :| v in c && v < |g.direct| && w in g.direct[v];
      MergedEdge(g, val, s0, s, t0, t, n, m, v, w);
      if s.root[w] != m {
        NeighbourLabelled(g, val, s0, t0, t, n, v, w);
      }
    }
    forall l | l in s.labels[m]
      ensures l != 0 && l in s.mean && s.mean[l] <= val[n]
    {
      var v :| v in c && v < |g.pre| && l in g.pre[v];
      StartLabels(g, val, s0, t0, t, n, v, l);
    }
  }

  lemma RipeTables(g: Graph, val: seq<set<nat>>, s: Off, t0: Search, t: Search, n: nat)
    requires AtRoot(g, val, s, t0, t, n)
    ensures TableOk(s) && WhenOk(s) && n < |val| == |g.direct| == |t.num|
  {
  }

  /** Giving `m` the labels `ls` closes its component. */
  ghost function Closed(s: Off, m: nat, ls: set<nat>): Off
    requires m < |s.labels|
  {
    s.(labels := s.labels[m := ls], roots := s.roots + {m}, when := s.when[m := |s.when|])
  }

  /** A member of the component is labelled. */
  lemma MemberLabelled(g: Graph, val: seq<set<nat>>, s0: Off, s: Off, t0: Search, t: Search, n: nat, m: nat, s1: Off, ls: set<nat>, v: nat)
    requires AtRoot(g, val, s0, t0, t, n) && Popped(g, s0, s, t, n, |t0.stack|, |t0.stack|, m)
    requires n < |val| && Ripe(s, m, val[n]) && Ripened(s, m, val[n], s1, ls)
    requires v in Component(t, n, |t0.stack|)
    ensures Sizes(g, s1) && WellFormed(g) && |val| == |g.direct| && v < |val| && Closed(s1, m, ls).root[v] == m
    ensures Labelled(g, val, Closed(s1, m, ls), v)
  {
    MemberTied(g, val, s0, t0, t, n, v);
    RipeTables(g, val, s0, t0, t, n);
    hide AtRoot, Component, TableOk, Worth, EdgesFormed, Leads, Ripe, UnionFind.Relabel;
    var s' := Closed(s1, m, ls);
    MemberNode(g, val, s0, s, t, n, m, |t0.stack|, s1, ls, v);
    forall w | w in g.direct[v]
      ensures EdgeLabelled(s', v, w)
    {
      MemberEdge(g, val, s0, s, t0, t, n, m, s1, ls, v, w);
    }
  }

  lemma MemberEdge(g: Graph, val: seq<set<nat>>, s0: Off, s: Off, t0: Search, t: Search, n: nat, m: nat, s1: Off, ls: set<nat>, v: nat, w: nat)
    requires AtRoot(g, val, s0, t0, t, n) && Popped(g, s0, s, t, n, |t0.stack|, |t0.stack|, m)
    requires n < |val| && Ripe(s, m, val[n]) && Ripened(s, m, val[n], s1, ls)
    requires v in Component(t, n, |t0.stack|) && v < |g.direct| && w in g.direct[v]
    requires Sizes(g, s1) && v < |s1.root| && Closed(s1, m, ls).root[v] == m
    ensures EdgeLabelled(Closed(s1, m, ls), v, w)
  {
    MemberTied(g, val, s0, t0, t, n, v);
    hide AtRoot, Component, TableOk, Worth, EdgesFormed, Leads, Ripe, UnionFind.Relabel;
    MergedEdge(g, val, s0, s, t0, t, n, m, v, w);
    assert w in s.direct[m];
    if s.root[w] != m {
      assert Covers(s1.mean, ls, s.labels[s.root[w]]);
    }
  }

  lemma MemberNode(g: Graph, val: seq<set<nat>>, s0: Off, s: Off, t: Search, n: nat, m: nat, base: nat, s1: Off, ls: set<nat>, v: nat)
    requires Popped(g, s0, s, t, n, base, base, m) && |val| == |g.direct|
    requires n < |val| && Ripe(s, m, val[n]) && Ripened(s, m, val[n], s1, ls)
    requires v in Component(t, n, base) && v < |val| && val[v] == val[n]
    ensures NodeLabelled(g, val, s1.mean, ls, v)
  {
    hide Component, TableOk, Worth, EdgesFormed, Ripe;
    forall l | l in g.pre[v]
      ensures 0 !in ls && l in s1.mean && s1.mean[l] <= Worth(s1.mean, ls)
    {
      assert l in s.labels[m];
      RipeStart(s, m, val[n], l);
    }
  }

  lemma RipeStart(s: Off, m: nat, b: set<nat>, l: nat)
    requires Ripe(s, m, b) && l in s.labels[m]
    ensures l in s.mean
  {
  }

  // What was closed before stays as it was.

  ghost predicate Persists(s: Off, s': Off) {
    && |s'.root| == |s.root| == |s.labels| == |s'.labels|
    && Extends(s.mean, s'.mean) && 0 !in s'.mean && s.roots <= s'.roots
    && (forall w :: 0 <= w < |s.root| && s.root[w] in s.roots ==>
          s'.root[w] == s.root[w] && s.root[w] < |s.labels| && KnownLabels(s.mean, s.labels[s.root[w]]))
    && (forall c :: c in s.roots && c < |s.labels| ==> s'.labels[c] == s.labels[c])
    && (forall c :: c in s.when ==> c in s'.when && s'.when[c] == s.when[c])
    && s.when.Keys == s.roots
  }

  /** A node labelled before stays labelled. */
  lemma StillLabelled(g: Graph, val: seq<set<nat>>, s: Off, s': Off, v: nat)
    requires WellFormed(g) && |val| == |g.direct| && Sizes(g, s) && Sizes(g, s') && v < |val|
    requires Labelled(g, val, s, v) && s.root[v] in s.roots && Persists(s, s')
    ensures Labelled(g, val, s', v)
  {
    hide Worth, EdgesFormed;
    WorthSame(s.mean, s'.mean, s.labels[s.root[v]]);
    forall w | w in g.direct[v]
      ensures EdgeLabelled(s', v, w)
    {
      assert EdgeLabelled(s, v, w);
      WorthSame(s.mean, s'.mean, s.labels[s.root[w]]);
    }
  }

  lemma StillPlaced(g: Graph, s: Off, s': Off, v: nat)
    requires WellFormed(g) && Sizes(g, s) && Sizes(g, s') && v < |s.root|
    requires Placed(g, s, v) && s.root[v] in s.roots && Persists(s, s')
    ensures Placed(g, s', v)
  {
    hide Reach, EdgesFormed, KnownLabels;
    forall w | w in Succ(g, v)
      ensures Sooner(s', w, v)
    {
      assert Sooner(s, w, v);
    }
  }

  lemma LabelsKnown(g: Graph, val: seq<set<nat>>, s: Off, t: Search, w: nat)
    requires OffOk(g, val, s, t) && w < |s.root| && s.root[w] in s.roots
    ensures s.root[w] < |s.labels| && KnownLabels(s.mean, s.labels[s.root[w]])
  {
    assert NodeState(g, val, s, t, w);
  }

  /** What is outside the component is as it was. */
  lemma OutsideRoots(g: Graph, val: seq<set<nat>>, s0: Off, s: Off, t0: Search, t: Search, n: nat, m: nat, v: nat)
    requires AtRoot(g, val, s0, t0, t, n) && Popped(g, s0, s, t, n, |t0.stack|, |t0.stack|, m)
    requires v < |s.root| && v !in Component(t, n, |t0.stack|)
    ensures s.root[v] == s0.root[v] && SameNode(s0, s, v) && m !in s0.roots
    ensures s0.root[v] in s0.roots ==> s0.root[v] != m && s0.root[v] !in Component(t, n, |t0.stack|)
  {
    var c := Component(t, n, |t0.stack|);
    RootInRange(g, val, s0, t, v);
    MemberTied(g, val, s0, t0, t, n, m);
    assert NodeState(g, val, s0, t, v);
    if s0.root[v] in c {
      MemberTied(g, val, s0, t0, t, n, s0.root[v]);
    }
  }

  lemma PoppedPersists(g: Graph, val: seq<set<nat>>, s0: Off, s: Off, t0: Search, t: Search, n: nat, m: nat)
    requires AtRoot(g, val, s0, t0, t, n) && Popped(g, s0, s, t, n, |t0.stack|, |t0.stack|, m)
    ensures |val| == |g.direct| == |t.num| && Persists(s0, s) && m !in s0.roots && WhenOk(s)
  {
    hide AtRoot, Component, Worth, EdgesFormed, Leads, Gathered, KnownLabels, TableOk, WhenOk, Untouched;
    RipeTables(g, val, s0, t0, t, n);
    NoZero(s0);
    WhenKeys(s0);
    SameWhen(s0, s);
    MemberTied(g, val, s0, t0, t, n, m);
    forall w | 0 <= w < |s.root|
      ensures s0.root[w] in s0.roots ==>
        s.root[w] == s0.root[w] && s0.root[w] < |s0.labels| && KnownLabels(s0.mean, s0.labels[s0.root[w]])
      ensures w in s0.roots ==> s.labels[w] == s0.labels[w]
    {
      OutsideAt(g, val, s0, s, t0, t, n, m, w);
    }
  }

  lemma WhenKeys(s: Off)
    requires WhenOk(s)
    ensures s.when.Keys == s.roots
  {
  }

  lemma SameWhen(s: Off, s': Off)
    requires WhenOk(s) && s'.when == s.when && s'.roots == s.roots
    ensures WhenOk(s')
  {
  }

  lemma ClosedPersists(s0: Off, s: Off, m: nat, b: set<nat>, s1: Off, ls: set<nat>)
    requires Persists(s0, s) && WhenOk(s) && Ripe(s, m, b) && Ripened(s, m, b, s1, ls) && m !in s0.roots && s.roots == s0.roots
    ensures m < |s1.labels| && Persists(s0, Closed(s1, m, ls)) && WhenOk(Closed(s1, m, ls))
  {
    hide Worth, KnownLabels, WhenOk, TableOk, Ripe;
    RipeSizes(s, m, b);
    NoZero(s1);
    ClosedWhen(s, Closed(s1, m, ls), m);
  }

  lemma RipeSizes(s: Off, m: nat, b: set<nat>)
    requires Ripe(s, m, b)
    ensures m < |s.labels| == |s.root|
  {
  }

  lemma NoZero(s: Off)
    requires TableOk(s)
    ensures 0 !in s.mean
  {
  }

  /** The component that is closed now is closed last. */
  lemma ClosedWhen(s: Off, s': Off, m: nat)
    requires WhenOk(s) && m !in s.roots && s'.when == s.when[m := |s.when|] && s'.roots == s.roots + {m}
    ensures WhenOk(s') && s.when.Keys == s.roots
    ensures forall c :: c in s.when ==> c in s'.when && s'.when[c] == s.when[c]
  {
    InOrderMore(s.roots, s.when, m);
  }

  lemma OutsideState(g: Graph, val: seq<set<nat>>, s0: Off, s: Off, t0: Search, t: Search, n: nat, m: nat, s1: Off, ls: set<nat>, v: nat)
    requires AtRoot(g, val, s0, t0, t, n) && Popped(g, s0, s, t, n, |t0.stack|, |t0.stack|, m)
    requires n < |val| && Ripe(s, m, val[n]) && Ripened(s, m, val[n], s1, ls)
    requires v < |val| && v !in Component(t, n, |t0.stack|)
    ensures WellFormed(g) && |val| == |g.direct| == |t.num| && Sizes(g, Closed(s1, m, ls))
    ensures NodeState(g, val, Closed(s1, m, ls), t, v)
  {
    var s' := Closed(s1, m, ls);
    PoppedPersists(g, val, s0, s, t0, t, n, m);
    ClosedPersists(s0, s, m, val[n], s1, ls);
    assert NodeState(g, val, s0, t, v);
    OutsideRoots(g, val, s0, s, t0, t, n, m, v);
    hide AtRoot, Component, Worth, EdgesFormed, Leads, Ripe, Gathered, Labelled, Placed, Persists;
    if s0.root[v] in s0.roots {
      StillLabelled(g, val, s0, s', v);
      StillPlaced(g, s0, s', v);
    }
  }

  /** A member of the component is placed after everything it leads to. */
  lemma MemberPlaced(g: Graph, val: seq<set<nat>>, s0: Off, s: Off, t0: Search, t: Search, n: nat, m: nat, s1: Off, ls: set<nat>, v: nat)
    requires AtRoot(g, val, s0, t0, t, n) && Popped(g, s0, s, t, n, |t0.stack|, |t0.stack|, m)
    requires n < |val| && Ripe(s, m, val[n]) && Ripened(s, m, val[n], s1, ls)
    requires v in Component(t, n, |t0.stack|)
    ensures WellFormed(g) && Sizes(g, Closed(s1, m, ls)) && v < |s1.root| && Placed(g, Closed(s1, m, ls), v)
  {
    hide AtRoot, Component, Worth, EdgesFormed, Leads, Ripe, Gathered, Reach, Persists, UnionFind.Relabel, TableOk, KnownLabels;
    var s' := Closed(s1, m, ls);
    RipeTables(g, val, s0, t0, t, n);
    MemberTied(g, val, s0, t0, t, n, v);
    MemberReach(g, val, s0, t0, t, n, v);
    MemberReach(g, val, s0, t0, t, n, m);
    ReachTransitive(g, v, n, m);
    ReachTransitive(g, m, n, v);
    PoppedPersists(g, val, s0, s, t0, t, n, m);
    ClosedPersists(s0, s, m, val[n], s1, ls);
    forall w | w in Succ(g, v)
      ensures Sooner(s', w, v)
    {
      MergedEdge(g, val, s0, s, t0, t, n, m, v, w);
    }
  }

  lemma OutsideAt(g: Graph, val: seq<set<nat>>, s0: Off, s: Off, t0: Search, t: Search, n: nat, m: nat, w: nat)
    requires AtRoot(g, val, s0, t0, t, n) && Popped(g, s0, s, t, n, |t0.stack|, |t0.stack|, m) && w < |s.root|
    ensures s0.root[w] in s0.roots ==> s.root[w] == s0.root[w]
    ensures s0.root[w] in s0.roots ==> s0.root[w] < |s0.labels| && KnownLabels(s0.mean, s0.labels[s0.root[w]])
    ensures w in s0.roots ==> s.labels[w] == s0.labels[w] && w != m
  {
    if w in Component(t, n, |t0.stack|) {
      MemberTied(g, val, s0, t0, t, n, w);
    } else {
      OutsideRoots(g, val, s0, s, t0, t, n, m, w);
    }
    if s0.root[w] in s0.roots {
      LabelsKnown(g, val, s0, t, w);
    }
    MemberTied(g, val, s0, t0, t, n, m);
  }

  lemma CloseNodes(g: Graph, val: seq<set<nat>>, s0: Off, s: Off, t0: Search, t: Search, n: nat, m: nat, s1: Off, ls: set<nat>, v: nat)
    requires AtRoot(g, val, s0, t0, t, n) && Popped(g, s0, s, t, n, |t0.stack|, |t0.stack|, m)
    requires n < |val| && Ripe(s, m, val[n]) && Ripened(s, m, val[n], s1, ls) && v < |val|
    ensures WellFormed(g) && |val| == |g.direct| == |t.num| && Sizes(g, Closed(s1, m, ls))
    ensures NodeState(g, val, Closed(s1, m, ls), Close(t, n, |t0.stack|), v)
  {
    if v in Component(t, n, |t0.stack|) {
      MemberVisited(g, val, s0, t0, t, n, v);
      MemberLabelled(g, val, s0, s, t0, t, n, m, s1, ls, v);
      MemberPlaced(g, val, s0, s, t0, t, n, m, s1, ls, v);
    } else {
      OutsideState(g, val, s0, s, t0, t, n, m, s1, ls, v);
    }
    hide AtRoot, Popped, Component, Worth, Ripe, Labelled, Placed, Ripened;
  }

  lemma MemberVisited(g: Graph, val: seq<set<nat>>, s: Off, t0: Search, t: Search, n: nat, v: nat)
    requires AtRoot(g, val, s, t0, t, n) && v in Component(t, n, |t0.stack|)
    ensures v < |t.num| == |val| && t.num[v] > 0
  {
    MemberTied(g, val, s, t0, t, n, v);
    OpenNum(g, val, s, t, v);
  }

  /** Followed edges stay followed when a component is closed. */
  lemma CloseStack(g: Graph, val: seq<set<nat>>, s: Off, t0: Search, t: Search, n: nat, v: nat)
    requires AtRoot(g, val, s, t0, t, n) && v in Close(t, n, |t0.stack|).stack
    ensures v < |val| && AllFollowed(Close(t, n, |t0.stack|), v, SuccOf(g, v))
  {
  }

  lemma ExploreClosed(g: Graph, val: seq<set<nat>>, s0: Off, s: Off, t0: Search, t: Search, n: nat, m: nat, s1: Off, ls: set<nat>)
    requires AtRoot(g, val, s0, t0, t, n) && Popped(g, s0, s, t, n, |t0.stack|, |t0.stack|, m)
    requires n < |val| && Ripe(s, m, val[n]) && Ripened(s, m, val[n], s1, ls)
    ensures m < |s1.labels| && Visited(g, val, Closed(s1, m, ls), t0, Close(t, n, |t0.stack|), n)
  {
    hide AtRoot, Component, Worth, Ripe, Gathered, Inv, Collapsing, NodeState, EdgesFormed, FitsAt, Persists, Descended;
    var s', t' := Closed(s1, m, ls), Close(t, n, |t0.stack|);
    ClosedSearch(g, val, s0, s, t0, t, n, m);
    forall v | 0 <= v < |val|
      ensures NodeState(g, val, s', t', v)
    {
      CloseNodes(g, val, s0, s, t0, t, n, m, s1, ls, v);
    }
    forall v | v in t'.stack
      ensures v < |val| && AllFollowed(t', v, SuccOf(g, v))
    {
      CloseStack(g, val, s0, t0, t, n, v);
    }
    FitsMore(g, val, s0.mean, s1.mean);
    PoppedPersists(g, val, s0, s, t0, t, n, m);
    ClosedPersists(s0, s, m, val[n], s1, ls);
  }

  lemma FitsMore(g: Graph, val: seq<set<nat>>, mean: Meaning, mean': Meaning)
    requires Fits(g, val, mean) && Extends(mean, mean')
    ensures Fits(g, val, mean')
  {
    forall v | 0 <= v < |val|
      ensures FitsAt(g, val, mean', v)
    {
      assert FitsAt(g, val, mean, v);
    }
  }

  lemma ClosedSearch(g: Graph, val: seq<set<nat>>, s0: Off, s: Off, t0: Search, t: Search, n: nat, m: nat)
    requires AtRoot(g, val, s0, t0, t, n) && Popped(g, s0, s, t, n, |t0.stack|, |t0.stack|, m)
    ensures var t' := Close(t, n, |t0.stack|);
      && Fits(g, val, s0.mean) && |t'.num| == |g.direct| && Inv(Leads(g), t') && Collapsing(s.root, t', s0.roots + {m})
      && t'.path == t0.path && |t0.num| == |t0.low| && n < |t0.num| && Descended(t0, t', n)
      && s.root[n] == m && t'.low[n] == t'.num[n]
  {
    hide NodeState, FitsAt, EdgesFormed, TableOk, NodeOk, PairOk, Settled, Gathered;
    CloseKeeps(Leads(g), t, n, |t0.stack|);
    CloseCollapsing(Leads(g), s0.root, s.root, t, s0.roots, n, |t0.stack|, m);
    assert t.path - {n} == t0.path;
    assert n in Component(t, n, |t0.stack|);
    MemberTied(g, val, s0, t0, t, n, n);
  }

  lemma IncomingMore(s: Off, m: nat, es: set<nat>, w: nat)
    requires |s.labels| == |s.root| && InRange(s, es) && w < |s.root| && s.root[w] < |s.root|
    ensures InRange(s, es + {w})
    ensures Incoming(s, m, es + {w}) == Incoming(s, m, es) +
              if s.root[w] != m && 0 !in s.labels[s.root[w]] then s.labels[s.root[w]] else {}
  {
  }

  lemma SearchStart(g: Graph, val: seq<set<nat>>, s: Off, t: Search)
    requires Fits(g, val, s.mean) && Sizes(g, s) && s.memo == map[] && s.roots == {} && s.when == map[]
    requires forall l :: l in s.mean ==> 0 < l < s.next
    requires forall v :: 0 <= v < |s.root| ==> s.root[v] == v
    requires s.direct == g.direct && s.implied == g.implied && s.labels == g.pre && s.indirect == g.indirect
    requires |t.num| == |t.low| == |g.direct| && t.path == {} && t.stack == [] && 0 < t.clock
    requires forall v :: 0 <= v < |t.num| ==> t.num[v] == 0 == t.low[v]
    ensures OffOk(g, val, s, t)
  {
    LeadsTransitive(g);
    hide Leads, FitsAt, EdgesFormed;
  }

  lemma SameIncoming(s: Off, s': Off, m: nat, es: set<nat>)
    requires |s.labels| == |s.root| && InRange(s, es) && s'.root == s.root && s'.labels == s.labels
    ensures InRange(s', es) && Incoming(s', m, es) == Incoming(s, m, es)
  {
  }

  /** Labels that reach a direct node are worth the same when nothing is
      written as label 0. */
  lemma DirectWorth(s: Off, all: set<nat>, ls: set<nat>)
    requires TableOk(s) && 0 !in all && ls == (if all == {} then {0} else all) && forall l :: l in all ==> l in s.mean
    ensures KnownLabels(s.mean, ls) && Worth(s.mean, ls) == Worth(s.mean, all) && (0 in ls <==> all == {})
    ensures Extends(s.mean, s.mean)
  {
  }

  lemma MemoFound(s: Off, all: set<nat>)
    requires TableOk(s) && all in s.memo
    ensures KnownLabels(s.mean, {s.memo[all]}) && 0 !in {s.memo[all]} && Worth(s.mean, {s.memo[all]}) == Worth(s.mean, all)
  {
  }

  lemma PoppedSizes(g: Graph, s0: Off, s: Off, t: Search, n: nat, base: nat, j: nat, m: nat)
    requires Popped(g, s0, s, t, n, base, j, m)
    ensures m < |s.root| == |s.direct| == |s.implied| == |s.labels| == |s.indirect|
  {
  }

  /** The stack holds the component down to where it was, and nothing below. */
  lemma PopGuard(g: Graph, val: seq<set<nat>>, s: Off, t0: Search, t: Search, n: nat, j: nat)
    requires AtRoot(g, val, s, t0, t, n) && j <= |t.stack|
    ensures |t0.stack| <= |t.stack| && n < |t.num|
    ensures 0 < j && |t0.stack| <= j ==>
              t.stack[j - 1] < |t.low| && (t.low[t.stack[j - 1]] >= t.num[n] <==> |t0.stack| < j)
  {
    hide NodeState, PairOk, FitsAt, EdgesFormed, TableOk, Settled;
    if 0 < j {
      var v := t.stack[j - 1];
      assert v in t.stack && NodeOk(Leads(g), t, v);
    }
  }
}
