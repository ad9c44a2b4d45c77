/** What every depth-first search for strongly connected components in this
    project keeps, whatever it does with a component once it is found. */
module Tarjan {
  import UnionFind

  /** One search. `num` is the order in which nodes were first visited (0 for
      never), `low` the least such number a node is known to lead back to,
      `path` the nodes being visited, and `stack` the finished nodes whose
      component is still open. */
  datatype Search = Search(num: seq<nat>, low: seq<nat>, path: set<nat>, stack: seq<nat>, clock: nat)

  ghost predicate Open(t: Search, v: nat) {
    v in t.path || v in t.stack
  }

  type Relation = iset<(nat, nat)>

  ghost predicate Composes(rel: Relation, a: nat, b: nat, c: nat) {
    (a, b) in rel && (b, c) in rel ==> (a, c) in rel
  }

  ghost predicate Transitive(rel: Relation) {
    forall a, b, c :: Composes(rel, a, b, c)
  }

  ghost predicate Sized(t: Search) {
    && |t.num| == |t.low|
    && 0 < t.clock
    && (forall v :: v in t.path ==> v < |t.num|)
    && (forall v :: v in t.stack ==> v < |t.num|)
    && (forall i, j :: 0 <= i < j < |t.stack| ==> t.stack[i] != t.stack[j])
  }

  /** An open node leads to the open node whose number it holds. */
  ghost predicate LeadsTo(rel: Relation, t: Search, v: nat, w: nat)
    requires Sized(t) && v < |t.num|
  {
    w < |t.num| && Open(t, w) && t.num[w] == t.low[v] && (v, w) in rel
  }

  /** An open node was visited and leads back no further than itself; one on
      the stack leads back to an earlier node. */
  ghost predicate NodeOk(rel: Relation, t: Search, v: nat)
    requires Sized(t) && v < |t.num|
  {
    && t.num[v] < t.clock
    && (Open(t, v) ==> 0 < t.num[v] && t.low[v] <= t.num[v] && exists w :: LeadsTo(rel, t, v, w))
    && (v in t.stack ==> v !in t.path && t.low[v] < t.num[v])
  }

  /** Numbers are unique, and a node on the path leads to every open node
      visited after it. */
  ghost predicate PairOk(rel: Relation, t: Search, v: nat, w: nat)
    requires Sized(t) && v < |t.num| && w < |t.num|
  {
    && (0 < t.num[v] == t.num[w] ==> v == w)
    && (v in t.path && Open(t, w) && t.num[v] <= t.num[w] ==> (v, w) in rel)
  }

  ghost predicate Inv(rel: Relation, t: Search) {
    && Transitive(rel)
    && Sized(t)
    && (forall v :: 0 <= v < |t.num| ==> NodeOk(rel, t, v))
    && (forall v, w :: 0 <= v < |t.num| && 0 <= w < |t.num| ==> PairOk(rel, t, v, w))
  }

  /** Node `n` is the last one on the path. */
  ghost predicate IsTop(t: Search, n: nat)
    requires Sized(t)
  {
    n in t.path && forall p :: p in t.path ==> t.num[p] <= t.num[n]
  }

  /** The stack above `base` was visited after `n`, which leads at least as far
      back as all of it; the rest was visited before. */
  ghost predicate Frame(t: Search, n: nat, base: nat)
    requires Sized(t)
  {
    && IsTop(t, n)
    && base <= |t.stack|
    && (forall i :: 0 <= i < base ==> t.stack[i] in t.stack && t.num[t.stack[i]] < t.num[n])
    && (forall i :: base <= i < |t.stack| ==>
          t.stack[i] in t.stack && t.num[n] < t.num[t.stack[i]] && t.low[n] <= t.low[t.stack[i]])
  }

  // The four moves of a search.

  /** Visit a new node. */
  ghost function Enter(t: Search, n: nat): Search
    requires |t.num| == |t.low| && n < |t.num|
  {
    t.(num := t.num[n := t.clock], low := t.low[n := t.clock], path := t.path + {n}, clock := t.clock + 1)
  }

  /** Follow an edge from `n` to an open node. */
  ghost function See(t: Search, n: nat, w: nat): Search
    requires n < |t.low| && w < |t.low|
  {
    if t.low[w] < t.low[n] then t.(low := t.low[n := t.low[w]]) else t
  }

  /** Leave a node that leads back to an earlier one. */
  ghost function Finish(t: Search, n: nat): Search {
    t.(path := t.path - {n}, stack := t.stack + [n])
  }

  /** Leave the first visited node of a component, dropping the rest of the
      component from the stack. */
  ghost function Close(t: Search, n: nat, base: nat): Search
    requires base <= |t.stack|
  {
    t.(path := t.path - {n}, stack := t.stack[..base])
  }

  lemma EnterKeeps(rel: Relation, t: Search, n: nat, from: nat)
    requires Inv(rel, t) && n < |t.num| && t.num[n] == 0
    requires (n, n) in rel
    requires t.path != {} ==> IsTop(t, from) && (from, n) in rel
    ensures Inv(rel, Enter(t, n)) && Frame(Enter(t, n), n, |t.stack|)
  {
    hide NodeOk, PairOk;
    var t' := Enter(t, n);
    forall v | 0 <= v < |t'.num|
      ensures NodeOk(rel, t', v)
    {
      EnterNode(rel, t, n, v);
    }
    forall v, w | 0 <= v < |t'.num| && 0 <= w < |t'.num|
      ensures PairOk(rel, t', v, w)
    {
      EnterPair(rel, t, n, from, v, w);
    }
    EnterFrame(rel, t, n);
  }

  lemma EnterFrame(rel: Relation, t: Search, n: nat)
    requires Inv(rel, t) && n < |t.num| && t.num[n] == 0
    ensures Sized(Enter(t, n)) && Frame(Enter(t, n), n, |t.stack|)
  {
    hide PairOk;
    var t' := Enter(t, n);
    assert NodeOk(rel, t, n);
    forall v | v in t'.path
      ensures v < |t'.num| && t'.num[v] <= t'.num[n]
    {
      assert v != n ==> v in t.path && NodeOk(rel, t, v);
    }
    forall i | 0 <= i < |t.stack|
      ensures t'.stack[i] in t'.stack && t'.num[t'.stack[i]] < t'.num[n]
    {
      assert t.stack[i] in t.stack && NodeOk(rel, t, t.stack[i]);
    }
  }

  lemma EnterNode(rel: Relation, t: Search, n: nat, v: nat)
    requires Inv(rel, t) && n < |t.num| && t.num[n] == 0 && v < |t.num|
    requires (n, n) in rel
    ensures NodeOk(rel, Enter(t, n), v)
  {
    var t' := Enter(t, n);
    assert NodeOk(rel, t, v) && NodeOk(rel, t, n);
    if v == n {
      assert LeadsTo(rel, t', n, n);
    } else if Open(t, v) {
      var w :| LeadsTo(rel, t, v, w);
      assert NodeOk(rel, t, w);
      assert LeadsTo(rel, t', v, w);
    }
  }

  lemma EnterPair(rel: Relation, t: Search, n: nat, from: nat, v: nat, w: nat)
    requires Inv(rel, t) && n < |t.num| && t.num[n] == 0 && v < |t.num| && w < |t.num|
    requires (n, n) in rel
    requires t.path != {} ==> IsTop(t, from) && (from, n) in rel
    ensures PairOk(rel, Enter(t, n), v, w)
  {
    assert PairOk(rel, t, v, w) && NodeOk(rel, t, v) && NodeOk(rel, t, w);
    if v in t.path && w == n {
      assert PairOk(rel, t, v, from) && Composes(rel, v, from, n);
    }
  }

  /** Following an edge also settles the frame of a search that has just
      returned from `w`. */
  lemma SeeKeeps(rel: Relation, t: Search, n: nat, base: nat, w: nat)
    requires Inv(rel, t) && IsTop(t, n) && base <= |t.stack|
    requires forall i :: 0 <= i < base ==> t.stack[i] in t.stack && t.num[t.stack[i]] < t.num[n]
    requires forall i :: base <= i < |t.stack| ==>
               t.stack[i] in t.stack && t.num[n] < t.num[t.stack[i]] &&
               (t.low[n] <= t.low[t.stack[i]] || (w < |t.low| && t.low[w] <= t.low[t.stack[i]]))
    requires w < |t.num| && Open(t, w) && (n, w) in rel
    ensures Inv(rel, See(t, n, w)) && Frame(See(t, n, w), n, base)
    ensures See(t, n, w).low[n] <= t.low[w] <= t.num[w]
  {
    var t' := See(t, n, w);
    assert NodeOk(rel, t, n) && NodeOk(rel, t, w);
    if t' != t {
      var x :| LeadsTo(rel, t, w, x);
      assert Composes(rel, n, w, x);
      assert LeadsTo(rel, t', n, x);
      forall v | 0 <= v < |t'.num|
        ensures NodeOk(rel, t', v)
      {
        SeeNode(rel, t, n, w, v);
      }
      forall v, u | 0 <= v < |t'.num| && 0 <= u < |t'.num|
        ensures PairOk(rel, t', v, u)
      {
        assert PairOk(rel, t, v, u);
      }
    }
  }

  lemma SeeNode(rel: Relation, t: Search, n: nat, w: nat, v: nat)
    requires Inv(rel, t) && n in t.path && w < |t.num| && Open(t, w) && v < |t.num|
    requires t.low[w] < t.low[n] && exists x :: LeadsTo(rel, See(t, n, w), n, x)
    ensures NodeOk(rel, See(t, n, w), v)
  {
    var t' := See(t, n, w);
    assert NodeOk(rel, t, v) && NodeOk(rel, t, n);
    if v != n && Open(t, v) {
      var u :| LeadsTo(rel, t, v, u);
      assert LeadsTo(rel, t', v, u);
    }
  }

  lemma FinishKeeps(rel: Relation, t: Search, n: nat, base: nat)
    requires Inv(rel, t) && Frame(t, n, base) && t.low[n] < t.num[n]
    ensures Inv(rel, Finish(t, n))
  {
    var t' := Finish(t, n);
    assert forall v :: Open(t', v) <==> Open(t, v);
    assert NodeOk(rel, t, n);
    forall v | 0 <= v < |t'.num|
      ensures NodeOk(rel, t', v)
    {
      assert NodeOk(rel, t, v);
      if Open(t, v) {
        var w :| LeadsTo(rel, t, v, w);
        assert LeadsTo(rel, t', v, w);
      }
    }
    forall v, w | 0 <= v < |t'.num| && 0 <= w < |t'.num|
      ensures PairOk(rel, t', v, w)
    {
      assert PairOk(rel, t, v, w);
    }
  }

  /** Every node dropped with the first visited one leads to it and back. */
  lemma ComponentTied(rel: Relation, t: Search, n: nat, base: nat, i: nat)
    requires Inv(rel, t) && Frame(t, n, base) && t.low[n] == t.num[n]
    requires base <= i < |t.stack|
    ensures t.stack[i] in t.stack
    ensures (n, t.stack[i]) in rel && (t.stack[i], n) in rel
    decreases t.num[t.stack[i]]
  {
    var s := t.stack[i];
    assert s in t.stack && NodeOk(rel, t, s) && PairOk(rel, t, n, s);
    var w :| LeadsTo(rel, t, s, w);
    if w in t.path {
      assert PairOk(rel, t, w, n) && NodeOk(rel, t, w);
    } else {
      var j :| 0 <= j < |t.stack| && t.stack[j] == w;
      ComponentTied(rel, t, n, base, j);
      assert Composes(rel, s, w, n);
    }
  }

  /** What is open after a component is closed was visited before it. */
  lemma ClosedOpen(rel: Relation, t: Search, n: nat, base: nat, v: nat)
    requires Inv(rel, t) && Frame(t, n, base) && v < |t.num|
    ensures Open(Close(t, n, base), v) <==> Open(t, v) && t.num[v] < t.num[n]
    ensures Open(t, v) && t.num[v] >= t.num[n] ==> v == n || v in t.stack[base..]
  {
    assert PairOk(rel, t, v, n) && NodeOk(rel, t, v) && NodeOk(rel, t, n);
    if v in t.stack {
      var i :| 0 <= i < |t.stack| && t.stack[i] == v;
      if i < base {
        assert t.stack[..base][i] == v;
      } else {
        assert t.stack[base..][i - base] == v;
      }
    }
  }

  lemma CloseKeeps(rel: Relation, t: Search, n: nat, base: nat)
    requires Inv(rel, t) && Frame(t, n, base) && t.low[n] == t.num[n]
    ensures Inv(rel, Close(t, n, base))
  {
    var t' := Close(t, n, base);
    forall v | 0 <= v < |t'.num|
      ensures NodeOk(rel, t', v)
    {
      ClosedOpen(rel, t, n, base, v);
      assert NodeOk(rel, t, v);
      if Open(t', v) {
        var w :| LeadsTo(rel, t, v, w);
        ClosedOpen(rel, t, n, base, w);
        assert LeadsTo(rel, t', v, w);
      }
    }
    forall v, w | 0 <= v < |t'.num| && 0 <= w < |t'.num|
      ensures PairOk(rel, t', v, w)
    {
      assert PairOk(rel, t, v, w);
    }
  }

  // Collapsing components in a partition as they are closed.

  /** A visited node is open, and then its own representative, or belongs to a
      collapsed component. */
  ghost predicate Settled(root: seq<nat>, t: Search, roots: set<nat>, v: nat)
    requires |root| == |t.num| == |t.low| && v < |root|
  {
    && root[v] < |root|
    && (t.num[v] == 0 <==> t.low[v] == 0)
    && (t.num[v] > 0 && !Open(t, v) ==> root[v] in roots)
    && (Open(t, v) ==> root[v] == v && v !in roots)
    && (v in roots ==> root[v] == v && t.num[v] > 0)
  }

  ghost predicate Collapsing(root: seq<nat>, t: Search, roots: set<nat>) {
    && |root| == |t.num| == |t.low|
    && (forall r :: r in roots ==> r < |root|)
    && (forall v :: 0 <= v < |root| ==> Settled(root, t, roots, v))
  }

  lemma EnterCollapsing(rel: Relation, root: seq<nat>, t: Search, roots: set<nat>, n: nat)
    requires Inv(rel, t) && Collapsing(root, t, roots) && n < |root| && t.num[n] == 0 && root[n] == n
    ensures Collapsing(root, Enter(t, n), roots)
  {
    forall v | 0 <= v < |root|
      ensures Settled(root, Enter(t, n), roots, v)
    {
      assert Settled(root, t, roots, v);
    }
  }

  lemma SeeCollapsing(rel: Relation, root: seq<nat>, t: Search, roots: set<nat>, n: nat, w: nat)
    requires Inv(rel, t) && Collapsing(root, t, roots) && n < |root| && w < |root| && Open(t, n) && Open(t, w)
    ensures Collapsing(root, See(t, n, w), roots)
  {
    assert Settled(root, t, roots, n) && Settled(root, t, roots, w) && NodeOk(rel, t, n) && NodeOk(rel, t, w);
    forall v | 0 <= v < |root|
      ensures Settled(root, See(t, n, w), roots, v)
    {
      assert Settled(root, t, roots, v);
    }
  }

  lemma FinishCollapsing(root: seq<nat>, t: Search, roots: set<nat>, n: nat)
    requires Collapsing(root, t, roots) && n in t.path
    ensures Collapsing(root, Finish(t, n), roots)
  {
    forall v | 0 <= v < |root|
      ensures Settled(root, Finish(t, n), roots, v)
    {
      assert Settled(root, t, roots, v);
    }
  }

  /** The classes of `members` became the class of `m`; nothing else moved. */
  ghost predicate Joined(root: seq<nat>, root': seq<nat>, members: set<nat>, m: nat) {
    && |root'| == |root|
    && forall v :: 0 <= v < |root| ==> root'[v] == if root[v] in members then m else root[v]
  }

  ghost function Component(t: Search, n: nat, base: nat): set<nat>
    requires base <= |t.stack|
  {
    {n} + set s | s in t.stack[base..]
  }

  lemma CloseCollapsing(rel: Relation, root: seq<nat>, root': seq<nat>, t: Search, roots: set<nat>, n: nat, base: nat, m: nat)
    requires Inv(rel, t) && Collapsing(root, t, roots) && Frame(t, n, base)
    requires m in Component(t, n, base) && Joined(root, root', Component(t, n, base), m)
    ensures Collapsing(root', Close(t, n, base), roots + {m})
  {
    var t', c := Close(t, n, base), Component(t, n, base);
    assert m in t.path || m in t.stack;
    forall v | 0 <= v < |root|
      ensures Settled(root', t', roots + {m}, v)
    {
      assert Settled(root, t, roots, v) && Settled(root, t, roots, m) && NodeOk(rel, t, v);
      ClosedOpen(rel, t, n, base, v);
      ClosedOpen(rel, t, n, base, m);
      assert NodeOk(rel, t, m) && NodeOk(rel, t, n);
      MemberNums(rel, t, n, base, v);
      if root[v] in c {
        assert Settled(root, t, roots, root[v]);
      }
    }
  }

  lemma MemberNums(rel: Relation, t: Search, n: nat, base: nat, v: nat)
    requires Inv(rel, t) && Frame(t, n, base) && v < |t.num|
    ensures v in Component(t, n, base) <==> Open(t, v) && t.num[v] >= t.num[n]
  {
    ClosedOpen(rel, t, n, base, v);
    if v in t.stack[base..] {
      var i :| base <= i < |t.stack| && t.stack[i] == v;
      assert t.stack[i] in t.stack;
    }
  }

  /** An edge from open node `v` to `w` was followed. */
  ghost predicate Followed(t: Search, v: nat, w: nat) {
    && |t.num| == |t.low| && v < |t.low| && w < |t.num| && t.num[w] > 0
    && (Open(t, w) ==> t.low[v] <= t.num[w])
  }

  // The order in which components are closed.

  /** Components were closed one after the other. */
  ghost predicate InOrder(roots: set<nat>, when: map<nat, nat>) {
    && when.Keys == roots
    && (forall c :: c in when ==> when[c] < |when|)
    && (forall c, d :: c in when && d in when && when[c] == when[d] ==> c == d)
  }

  lemma InOrderMore(roots: set<nat>, when: map<nat, nat>, m: nat)
    requires InOrder(roots, when) && m !in roots
    ensures InOrder(roots + {m}, when[m := |when|])
    ensures forall c :: c in when ==> c in when[m := |when|] && when[m := |when|][c] == when[c]
  {
    assert when[m := |when|].Keys == when.Keys + {m};
    assert |when[m := |when|].Keys| == |when.Keys| + 1;
  }

  // What a recursive call did.

  /** Earlier visits are untouched; `n` was visited first, and what it left on
      the stack, which ends with `n` itself if it is not closed, leads back no
      further than `n` does. */
  ghost predicate Descended(t: Search, t': Search, n: nat)
    requires |t.num| == |t.low| && n < |t.num|
  {
    && |t'.num| == |t'.low| == |t.num|
    && (forall v :: 0 <= v < |t.num| && t.num[v] > 0 ==> t'.num[v] == t.num[v] && t'.low[v] == t.low[v])
    && t'.num[n] == t.clock < t'.clock
    && t.stack <= t'.stack
    && (n in t'.stack || t'.stack == t.stack)
    && (forall i :: |t.stack| <= i < |t'.stack| ==> LeftBehind(t, t', n, t'.stack[i]))
  }

  ghost predicate LeftBehind(t: Search, t': Search, n: nat, s: nat)
    requires |t'.num| == |t'.low| && n < |t'.num|
  {
    s < |t'.num| && t.clock <= t'.num[s] && t'.low[n] <= t'.low[s]
  }

  /** Classes only grew together, and those of `keep` not at all. */
  ghost predicate Coarser(root: seq<nat>, root': seq<nat>, keep: set<nat>) {
    |root'| == |root| && forall i :: 0 <= i < |root| ==> CoarserAt(root, root', keep, i)
  }

  ghost predicate CoarserAt(root: seq<nat>, root': seq<nat>, keep: set<nat>, i: nat)
    requires |root'| == |root| && i < |root|
  {
    && root[i] < |root| && root'[i] == root'[root[i]]
    && (root[i] in keep || root'[i] in keep ==> root'[i] == root[i])
  }

  /** Nodes visited before are untouched, and `n` was visited next. */
  ghost predicate Begun(t0: Search, t: Search, n: nat) {
    && |t0.num| == |t0.low| == |t.num| == |t.low| && n < |t.num| && t0.num[n] == 0
    && (forall v :: 0 <= v < |t0.num| && t0.num[v] > 0 ==> t.num[v] == t0.num[v] && t.low[v] == t0.low[v])
    && t.num[n] == t0.clock < t.clock
    && t0.stack <= t.stack
  }

  /** The stack as a returned child leaves it. */
  lemma ChildFrame(rel: Relation, t0: Search, t: Search, t': Search, n: nat, d: nat)
    requires Inv(rel, t) && Inv(rel, t') && t'.path == t.path
    requires |t0.stack| <= |t.stack| && Frame(t, n, |t0.stack|)
    requires d < |t.num| && Descended(t, t', d)
    ensures IsTop(t', n) && |t0.stack| <= |t'.stack| && t'.num[n] < t'.num[d]
    ensures forall i :: 0 <= i < |t0.stack| ==> t'.stack[i] in t'.stack && t'.num[t'.stack[i]] < t'.num[n]
    ensures forall i :: |t0.stack| <= i < |t'.stack| ==>
              t'.stack[i] in t'.stack && t'.num[n] < t'.num[t'.stack[i]] &&
              (t'.low[n] <= t'.low[t'.stack[i]] || t'.low[d] <= t'.low[t'.stack[i]])
    ensures t'.low[n] <= t'.num[n]
    ensures t'.stack == t.stack ==> Frame(t', n, |t0.stack|)
  {
    assert NodeOk(rel, t, n);
    forall v | v in t.path || v in t.stack
      ensures v < |t.num| && t'.num[v] == t.num[v] && t'.low[v] == t.low[v]
    {
      assert NodeOk(rel, t, v);
    }
    forall i | 0 <= i < |t'.stack|
      ensures t'.stack[i] in t'.stack
      ensures i < |t.stack| ==> t'.stack[i] == t.stack[i] && t.stack[i] in t.stack
      ensures i >= |t.stack| ==> LeftBehind(t, t', d, t'.stack[i])
    {
    }
  }

  lemma StackLeft(rel: Relation, t0: Search, t: Search, t': Search, n: nat)
    requires Inv(rel, t) && Begun(t0, t, n) && Frame(t, n, |t0.stack|)
    requires t' == Finish(t, n) && n in t'.stack
    ensures Descended(t0, t', n)
  {
    forall i | |t0.stack| <= i < |t'.stack|
      ensures LeftBehind(t0, t', n, t'.stack[i])
    {
      if i < |t.stack| {
        assert t.stack[i] in t.stack;
      }
    }
  }

  ghost function Unvisited(num: seq<nat>): set<nat> {
    set v | 0 <= v < |num| && num[v] == 0
  }

  lemma UnvisitedShrinks(t0: Search, t: Search, n: nat)
    requires Begun(t0, t, n) && 0 < t0.clock
    ensures Unvisited(t.num) < Unvisited(t0.num)
  {
    assert n in Unvisited(t0.num) && n !in Unvisited(t.num);
  }

  // Taking a component from the stack.

  /** Collecting one more member of a component. */
  lemma JoinStep(root0: seq<nat>, root: seq<nat>, members: set<nat>, m: nat, s: nat, p: nat, c: nat)
    requires Joined(root0, root, members, m) && m in members && s !in members
    requires (p == m && c == s) || (p == s && c == m)
    ensures Joined(root0, UnionFind.Relabel(root, c, p), members + {s}, p)
  {
  }

  /** What is merged at any point belongs to the component. */
  lemma PopsAreMembers(t: Search, n: nat, base: nat, j: nat)
    requires base < j <= |t.stack|
    ensures Component(t, n, j) <= Component(t, n, base)
    ensures t.stack[j - 1] in Component(t, n, base)
  {
    assert t.stack[base..][j - 1 - base] == t.stack[j - 1];
    assert t.stack[base..] == t.stack[base..j] + t.stack[j..];
  }

  /** The next node on the stack is not among those taken already. */
  lemma PopsApart(rel: Relation, t: Search, n: nat, base: nat, j: nat)
    requires Inv(rel, t) && Frame(t, n, base) && base < j <= |t.stack|
    ensures t.stack[j - 1] !in Component(t, n, j)
    ensures Component(t, n, j - 1) == Component(t, n, j) + {t.stack[j - 1]}
  {
    var v := t.stack[j - 1];
    assert t.stack[j - 1..] == [v] + t.stack[j..];
    assert v in t.stack && NodeOk(rel, t, v);
  }

  /** A node on the stack leads to an earlier open node. */
  lemma StackLeads(rel: Relation, t: Search, n: nat) returns (i: nat)
    requires Inv(rel, t) && n in t.stack && t.path == {}
    ensures i < |t.stack| && t.stack[i] < |t.num| && n < |t.num| && t.num[t.stack[i]] < t.num[n]
  {
    assert NodeOk(rel, t, n);
    var w :| LeadsTo(rel, t, n, w);
    i :| 0 <= i < |t.stack| && t.stack[i] == w;
  }
}
