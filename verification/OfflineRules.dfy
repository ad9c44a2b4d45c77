/** Which labels a component gets, exactly. */
module OfflineRules {
  import opened Tarjan
  import opened OfflineGraph
  import opened OfflineSearch
  import opened OfflineCollapse

  /** The labels that component `c` starts with or that reach it over direct
      edges. */
  ghost function LabelsInto(g: Graph, s: Off, c: nat): set<nat> {
    StartsIn(g, s, c) + ComesIn(g, s, c)
  }

  ghost function StartsIn(g: Graph, s: Off, c: nat): set<nat> {
    set u, l | 0 < u < |s.root| && s.root[u] == c && u < |g.pre| && l in g.pre[u] :: l
  }

  ghost function ComesIn(g: Graph, s: Off, c: nat): set<nat> {
    set u, w, l | 0 < u < |s.root| && s.root[u] == c && u < |g.direct| && w in g.direct[u] && l in SentBy(s, c, w) :: l
  }

  /** What node `w` gives to component `c`: its labels, if it is in another
      component and not labelled 0. */
  ghost function SentBy(s: Off, c: nat, w: nat): set<nat> {
    if w < |s.root| && s.root[w] < |s.labels| && s.root[w] != c && 0 !in s.labels[s.root[w]] then s.labels[s.root[w]] else {}
  }

  ghost predicate IsIndirect(g: Graph, s: Off, c: nat) {
    exists u :: 0 < u < |s.root| && u < |g.indirect| && s.root[u] == c && g.indirect[u]
  }

  ghost function OrZero(ls: set<nat>): set<nat> {
    if ls == {} then {0} else ls
  }

  /** The labels of a component that `all` reach: with sets, all of them and
      its own label if it is indirect; otherwise one label, its own if it is
      indirect, the only one, or the number of the set. */
  ghost function NewLabels(keep: bool, all: set<nat>, indirect: bool, own: nat, memo: map<set<nat>, nat>): set<nat> {
    if keep then OrZero(all + if indirect then {own} else {})
    else if indirect then {own}
    else if |all| <= 1 then OrZero(all)
    else if all in memo then {memo[all]}
    else {}
  }

  /** Component `c` has its labels by that rule. */
  ghost predicate RuleAt(g: Graph, s: Off, keep: bool, own: map<nat, nat>, c: nat) {
    && c < |s.labels| && s.labels[c] != {} && (c in own <==> IsIndirect(g, s, c))
    && s.labels[c] == NewLabels(keep, LabelsInto(g, s, c), c in own, if c in own then own[c] else 0, s.memo)
  }

  ghost predicate NoStart(g: Graph, l: nat) {
    forall v :: 0 <= v < |g.pre| ==> l !in g.pre[v]
  }

  /** Own labels and numbers of sets are all different, and none is a label
      that some node starts with. */
  ghost predicate Distinct(g: Graph, s: Off, own: map<nat, nat>) {
    && (forall c :: c in own ==> c in s.roots && own[c] in s.mean && NoStart(g, own[c]))
    && (forall c, d :: c in own && d in own && own[c] == own[d] ==> c == d)
    && (forall a :: a in s.memo ==> s.memo[a] in s.mean && NoStart(g, s.memo[a]))
    && (forall a, b :: a in s.memo && b in s.memo && s.memo[a] == s.memo[b] ==> a == b)
    && (forall c, a :: c in own && a in s.memo ==> own[c] != s.memo[a])
  }

  ghost predicate AllRuled(g: Graph, s: Off, keep: bool, own: map<nat, nat>) {
    Distinct(g, s, own) && forall c :: c in s.roots ==> RuleAt(g, s, keep, own, c)
  }

  // Closing a component.

  /** How the numbers of sets may change. */
  ghost predicate MemoMore(s: Off, s': Off) {
    s'.memo == s.memo || exists all :: all !in s.memo && s'.memo == s.memo[all := s.next]
  }

  /** What labelling representative `m` delivers. */
  ghost predicate ByRule(keep: bool, s: Off, m: nat, s': Off, ls: set<nat>)
    requires |s.labels| == |s.root| == |s.direct| == |s.indirect| && m < |s.root| && InRange(s, s.direct[m])
  {
    && ls == NewLabels(keep, s.labels[m] + Incoming(s, m, s.direct[m]), s.indirect[m], s.next, s'.memo)
    && MemoMore(s, s') && (s.indirect[m] ==> s'.memo == s.memo)
  }

  ghost function OwnMore(s: Off, m: nat, own: map<nat, nat>): map<nat, nat>
    requires m < |s.indirect|
  {
    if s.indirect[m] then own[m := s.next] else own
  }

  /** Node `u` is in component `c` exactly if it was, and its edges give the
      component what they gave. */
  ghost predicate SameMember(g: Graph, s: Off, s': Off, c: nat, u: nat)
    requires u < |s.root| == |s'.root|
  {
    && (s'.root[u] == c <==> s.root[u] == c)
    && (s.root[u] == c && u < |g.direct| ==> forall w :: w in g.direct[u] ==> SentBy(s', c, w) == SentBy(s, c, w))
  }

  lemma SameInto(g: Graph, s: Off, s': Off, c: nat)
    requires |s.root| == |s'.root| && forall u :: 0 <= u < |s.root| ==> SameMember(g, s, s', c, u)
    ensures LabelsInto(g, s', c) == LabelsInto(g, s, c) && (IsIndirect(g, s', c) <==> IsIndirect(g, s, c))
  {
    hide SentBy;
    forall u | 0 <= u < |s.root|
      ensures s'.root[u] == c <==> s.root[u] == c
      ensures s.root[u] == c && u < |g.direct| ==> forall w :: w in g.direct[u] ==> SentBy(s', c, w) == SentBy(s, c, w)
    {
      assert SameMember(g, s, s', c, u);
    }
    assert StartsIn(g, s', c) == StartsIn(g, s, c);
    assert ComesIn(g, s', c) == ComesIn(g, s, c);
  }

  /** Which nodes are in an old component, and what reaches it, is as before. */
  lemma OldInto(g: Graph, val: seq<set<nat>>, s0: Off, s: Off, t0: Search, t: Search, n: nat, m: nat, s1: Off, ls: set<nat>, c: nat)
    requires AtRoot(g, val, s0, t0, t, n) && Popped(g, s0, s, t, n, |t0.stack|, |t0.stack|, m)
    requires n < |val| && Ripe(s, m, val[n]) && Ripened(s, m, val[n], s1, ls) && c in s0.roots && m < |s1.labels|
    requires Persists(s0, Closed(s1, m, ls))
    ensures LabelsInto(g, Closed(s1, m, ls), c) == LabelsInto(g, s0, c)
    ensures IsIndirect(g, Closed(s1, m, ls), c) <==> IsIndirect(g, s0, c)
  {
    var s' := Closed(s1, m, ls);
    hide AtRoot, Popped, Component, Worth, Gathered, TableOk, Ripe, SentBy, Persists;
    assert s'.root == s.root && |s.root| == |s0.root| by { PoppedRoots(g, s0, s, t, n, |t0.stack|, m); }
    hide Ripened;
    forall u | 0 <= u < |s0.root|
      ensures SameMember(g, s0, s', c, u)
    {
      OldMember(g, val, s0, s, t0, t, n, m, c, u);
      if s0.root[u] == c {
        forall w | w in g.direct[u]
          ensures SentBy(s', c, w) == SentBy(s0, c, w)
        {
          OldSent(s0, s', c, w);
        }
      }
    }
    SameInto(g, s0, s', c);
  }

  lemma PoppedRoots(g: Graph, s0: Off, s: Off, t: Search, n: nat, base: nat, m: nat)
    requires Popped(g, s0, s, t, n, base, base, m)
    ensures |s.root| == |s0.root| == |s.labels| == |s.direct| == |s.indirect| && m < |s.root|
    ensures s.next == s0.next && s.memo == s0.memo && s.mean == s0.mean && s.roots == s0.roots
  {
  }

  lemma OldSent(s: Off, s': Off, c: nat, w: nat)
    requires Persists(s, s') && w < |s.root| && s.root[w] in s.roots
    ensures SentBy(s', c, w) == SentBy(s, c, w)
  {
  }

  lemma OldMember(g: Graph, val: seq<set<nat>>, s0: Off, s: Off, t0: Search, t: Search, n: nat, m: nat, c: nat, u: nat)
    requires AtRoot(g, val, s0, t0, t, n) && Popped(g, s0, s, t, n, |t0.stack|, |t0.stack|, m)
    requires c in s0.roots && u < |s0.root|
    ensures |g.direct| == |s0.root| == |s.root| && (s.root[u] == c <==> s0.root[u] == c)
    ensures s0.root[u] == c ==> forall w :: w in g.direct[u] ==> w < |s0.root| && s0.root[w] in s0.roots
  {
    MemberTied(g, val, s0, t0, t, n, m);
    assert NodeState(g, val, s0, t, u);
    hide AtRoot, Exploring, Gathered;
    if s0.root[u] in Component(t, n, |t0.stack|) {
      MemberTied(g, val, s0, t0, t, n, s0.root[u]);
    }
    if s0.root[u] == c {
      forall w | w in g.direct[u]
        ensures w < |s0.root| && s0.root[w] in s0.roots
      {
        assert EdgeLabelled(s0, u, w);
      }
    }
  }

  /** The new component consists of the nodes merged. */
  lemma NewMember(g: Graph, val: seq<set<nat>>, s0: Off, s: Off, t0: Search, t: Search, n: nat, m: nat, u: nat)
    requires AtRoot(g, val, s0, t0, t, n) && Popped(g, s0, s, t, n, |t0.stack|, |t0.stack|, m)
    requires u < |s0.root|
    ensures u < |s.root| && (s.root[u] == m <==> u in Component(t, n, |t0.stack|))
    ensures u in Component(t, n, |t0.stack|) ==> 0 < u
  {
    var c := Component(t, n, |t0.stack|);
    MemberTied(g, val, s0, t0, t, n, m);
    if s0.root[u] in c {
      MemberTied(g, val, s0, t0, t, n, s0.root[u]);
      assert NodeState(g, val, s0, t, u);
    }
    if u in c {
      MemberTied(g, val, s0, t0, t, n, u);
      MemberReach(g, val, s0, t0, t, n, u);
      NotZero(g, n, u);
    }
  }

  lemma NotZero(g: Graph, a: nat, b: nat)
    requires WellFormed(g) && Reach(g, a, b) && 0 < a
    ensures 0 < b
  {
    var p :| IsPath(g, p) && p[0] == a && p[|p| - 1] == b;
    if |p| > 1 {
      assert IsEdge(g, p[|p| - 2], p[|p| - 2 + 1]) && EdgesFormed(g, p[|p| - 2]);
    }
  }

  lemma NewInto(g: Graph, val: seq<set<nat>>, s0: Off, s: Off, t0: Search, t: Search, n: nat, m: nat, s1: Off, ls: set<nat>)
    requires AtRoot(g, val, s0, t0, t, n) && Popped(g, s0, s, t, n, |t0.stack|, |t0.stack|, m)
    requires n < |val| && Ripe(s, m, val[n]) && Ripened(s, m, val[n], s1, ls)
    ensures m < |s1.labels| && LabelsInto(g, Closed(s1, m, ls), m) == s.labels[m] + Incoming(s, m, s.direct[m])
    ensures IsIndirect(g, Closed(s1, m, ls), m) <==> s.indirect[m]
  {
    var s', c := Closed(s1, m, ls), Component(t, n, |t0.stack|);
    forall u | 0 <= u < |s0.root|
      ensures u < |s.root| && (s.root[u] == m <==> u in c) && (u in c ==> 0 < u)
    {
      NewMember(g, val, s0, s, t0, t, n, m, u);
    }
    hide AtRoot, Component, Worth, EdgesFormed, KnownLabels, TableOk;
    NewParts(g, s, s', c, m);
  }

  lemma NewParts(g: Graph, s: Off, s': Off, c: set<nat>, m: nat)
    requires WellFormed(g) && Sizes(g, s) && m < |s.root| && Gathered(g, s, c, m) && InRange(s, s.direct[m])
    requires s'.root == s.root && |s'.labels| == |s.labels| && forall q :: 0 <= q < |s.labels| && q != m ==> s'.labels[q] == s.labels[q]
    requires forall u :: u in c ==> 0 < u < |s.root|
    requires forall u :: 0 <= u < |s.root| ==> (s.root[u] == m <==> u in c)
    ensures LabelsInto(g, s', m) == s.labels[m] + Incoming(s, m, s.direct[m])
    ensures IsIndirect(g, s', m) <==> s.indirect[m]
  {
    assert StartsIn(g, s', m) == s.labels[m];
    hide StartsIn, EdgesFormed;
    forall l
      ensures l in ComesIn(g, s', m) <==> l in Incoming(s, m, s.direct[m])
    {
      if l in ComesIn(g, s', m) {
        var u, w :| 0 < u < |s'.root| && s'.root[u] == m && w in g.direct[u] && l in SentBy(s', m, w);
        assert w in s.direct[m];
      }
      if l in Incoming(s, m, s.direct[m]) {
        var w :| w in s.direct[m] && s.root[w] != m && 0 !in s.labels[s.root[w]] && l in s.labels[s.root[w]];
        var u :| u in c && u < |g.direct| && w in g.direct[u];
        assert l in SentBy(s', m, w);
      }
    }
  }

  lemma FreshNext(g: Graph, val: seq<set<nat>>, s: Off)
    requires Fits(g, val, s.mean) && TableOk(s)
    ensures s.next !in s.mean && NoStart(g, s.next)
  {
    forall v | 0 <= v < |g.pre|
      ensures s.next !in g.pre[v]
    {
      assert FitsAt(g, val, s.mean, v);
    }
  }

  /** Labels stay different. */
  lemma DistinctMore(g: Graph, val: seq<set<nat>>, s0: Off, s': Off, own: map<nat, nat>, m: nat, indirect: bool)
    requires Distinct(g, s0, own) && Fits(g, val, s0.mean) && TableOk(s0) && TableOk(s') && Extends(s0.mean, s'.mean)
    requires m !in s0.roots && s'.roots == s0.roots + {m}
    requires MemoMore(s0, s') && (indirect ==> s'.memo == s0.memo && s0.next in s'.mean)
    ensures Distinct(g, s', if indirect then own[m := s0.next] else own)
  {
    FreshNext(g, val, s0);
    hide Worth, NoStart, Fits;
    assert forall a :: a in s'.memo ==> MemoOk(s'.memo[a], s'.mean, a);
  }

  lemma OwnKnown(s: Off, m: nat, b: set<nat>, s1: Off, ls: set<nat>, keep: bool)
    requires Ripe(s, m, b) && Ripened(s, m, b, s1, ls) && ByRule(keep, s, m, s1, ls) && 0 < s.next && s.indirect[m]
    ensures s.next in s1.mean
  {
    hide Worth, Incoming;
    assert s.next in ls;
  }

  lemma NewRule(g: Graph, s: Off, s1: Off, keep: bool, m: nat, ls: set<nat>, own: map<nat, nat>)
    requires |s.labels| == |s.root| == |s.direct| == |s.indirect| == |s1.labels| && m < |s.root| && InRange(s, s.direct[m])
    requires ByRule(keep, s, m, s1, ls) && ls != {} && m !in own
    requires LabelsInto(g, Closed(s1, m, ls), m) == s.labels[m] + Incoming(s, m, s.direct[m])
    requires IsIndirect(g, Closed(s1, m, ls), m) <==> s.indirect[m]
    ensures RuleAt(g, Closed(s1, m, ls), keep, OwnMore(s, m, own), m)
  {
    hide LabelsInto, Incoming, IsIndirect;
  }

  lemma OldRule(g: Graph, s: Off, s': Off, keep: bool, own: map<nat, nat>, own': map<nat, nat>, c: nat)
    requires RuleAt(g, s, keep, own, c) && MemoMore(s, s') && c < |s'.labels| && s'.labels[c] == s.labels[c]
    requires LabelsInto(g, s', c) == LabelsInto(g, s, c) && (IsIndirect(g, s', c) <==> IsIndirect(g, s, c))
    requires (c in own' <==> c in own) && (c in own ==> own'[c] == own[c])
    ensures RuleAt(g, s', keep, own', c)
  {
    hide LabelsInto, IsIndirect;
  }

  lemma RulesClosed(g: Graph, val: seq<set<nat>>, s0: Off, s: Off, t0: Search, t: Search, n: nat, m: nat, s1: Off, ls: set<nat>,
                    keep: bool, own: map<nat, nat>)
    requires AtRoot(g, val, s0, t0, t, n) && Popped(g, s0, s, t, n, |t0.stack|, |t0.stack|, m)
    requires n < |val| && Ripe(s, m, val[n]) && Ripened(s, m, val[n], s1, ls)
    requires AllRuled(g, s0, keep, own) && ByRule(keep, s, m, s1, ls) && 0 < s.next
    ensures m < |s1.labels| && AllRuled(g, Closed(s1, m, ls), keep, OwnMore(s, m, own))
  {
    hide AtRoot, Popped, Ripe, LabelsInto, IsIndirect, Incoming, NewLabels, Distinct, RuleAt, Worth, TableOk, KnownLabels;
    PoppedRoots(g, s0, s, t, n, |t0.stack|, m);
    PoppedPersists(g, val, s0, s, t0, t, n, m);
    RipeSizes(s, m, val[n]);
    ClosedPersists(s0, s, m, val[n], s1, ls);
    ClosedDistinct(g, val, s0, s, t0, t, n, m, s1, ls, keep, own);
    NewInto(g, val, s0, s, t0, t, n, m, s1, ls);
    assert ls != {} by { SomeLabels(s, m, val[n], s1, ls); }
    InRipe(s, m, val[n]);
    NewRule(g, s, s1, keep, m, ls, own);
    var s', own' := Closed(s1, m, ls), OwnMore(s, m, own);
    forall c | c in s0.roots
      ensures RuleAt(g, s', keep, own', c)
    {
      OldInto(g, val, s0, s, t0, t, n, m, s1, ls, c);
      assert RuleAt(g, s0, keep, own, c);
      KeptLabels(g, s0, s', keep, own, c);
      OldRule(g, s0, s', keep, own, own', c);
    }
  }

  lemma SomeLabels(s: Off, m: nat, b: set<nat>, s1: Off, ls: set<nat>)
    requires Ripe(s, m, b) && Ripened(s, m, b, s1, ls)
    ensures ls != {}
  {
  }

  lemma InRipe(s: Off, m: nat, b: set<nat>)
    requires Ripe(s, m, b)
    ensures |s.labels| == |s.root| == |s.direct| == |s.indirect| && m < |s.root| && InRange(s, s.direct[m])
  {
  }

  lemma ComponentClosed(g: Graph, val: seq<set<nat>>, s0: Off, s: Off, t0: Search, t: Search, n: nat, m: nat, s1: Off, ls: set<nat>,
                        keep: bool, own: map<nat, nat>)
    requires AtRoot(g, val, s0, t0, t, n) && Popped(g, s0, s, t, n, |t0.stack|, |t0.stack|, m)
    requires n < |val| && Ripe(s, m, val[n]) && Ripened(s, m, val[n], s1, ls)
    requires AllRuled(g, s0, keep, own) && ByRule(keep, s, m, s1, ls) && 0 < s.next
    ensures m < |s1.labels| && AllRuled(g, Closed(s1, m, ls), keep, OwnMore(s, m, own))
    ensures Visited(g, val, Closed(s1, m, ls), t0, Close(t, n, |t0.stack|), n)
  {
    hide *;
    RulesClosed(g, val, s0, s, t0, t, n, m, s1, ls, keep, own);
    ExploreClosed(g, val, s0, s, t0, t, n, m, s1, ls);
  }

  lemma KeptLabels(g: Graph, s: Off, s': Off, keep: bool, own: map<nat, nat>, c: nat)
    requires Persists(s, s') && RuleAt(g, s, keep, own, c) && c in s.roots
    ensures c < |s'.labels| && s'.labels[c] == s.labels[c]
  {
    hide LabelsInto, IsIndirect, NewLabels;
  }

  lemma ClosedDistinct(g: Graph, val: seq<set<nat>>, s0: Off, s: Off, t0: Search, t: Search, n: nat, m: nat, s1: Off, ls: set<nat>,
                       keep: bool, own: map<nat, nat>)
    requires AtRoot(g, val, s0, t0, t, n) && Popped(g, s0, s, t, n, |t0.stack|, |t0.stack|, m)
    requires n < |val| && Ripe(s, m, val[n]) && Ripened(s, m, val[n], s1, ls)
    requires Distinct(g, s0, own) && ByRule(keep, s, m, s1, ls) && 0 < s.next
    ensures m < |s1.labels| && Distinct(g, Closed(s1, m, ls), OwnMore(s, m, own)) && m !in own && m !in s0.roots
  {
    hide Worth, Incoming, NewLabels, Fits, Popped, Ripe;
    PoppedRoots(g, s0, s, t, n, |t0.stack|, m);
    RipeSizes(s, m, val[n]);
    if s.indirect[m] {
      OwnKnown(s, m, val[n], s1, ls, keep);
    }
    PoppedPersists(g, val, s0, s, t0, t, n, m);
    RootFits(g, val, s0, t0, t, n);
    hide AtRoot, Persists;
    ClosedTable(s, m, val[n], s1, ls);
    DistinctMore(g, val, s0, Closed(s1, m, ls), own, m, s.indirect[m]);
  }

  lemma RootFits(g: Graph, val: seq<set<nat>>, s: Off, t0: Search, t: Search, n: nat)
    requires AtRoot(g, val, s, t0, t, n)
    ensures Fits(g, val, s.mean) && TableOk(s)
  {
  }

  lemma ClosedTable(s: Off, m: nat, b: set<nat>, s1: Off, ls: set<nat>)
    requires Ripe(s, m, b) && Ripened(s, m, b, s1, ls)
    ensures m < |s1.labels| && TableOk(Closed(s1, m, ls)) && Extends(s.mean, s1.mean)
  {
  }
}
