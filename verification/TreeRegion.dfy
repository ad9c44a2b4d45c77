/** A region of one operator, taken apart into leaves and reusable nodes and
    put together again. */
module TreeRegion {
  import opened OperatorTree

  /** What a region keeps: its value, its nodes, and the trees below it with
      their nodes and latencies. */
  datatype Kept = Kept(value: int, ids: multiset<nat>, frontier: multiset<nat>, base: multiset<real>, parts: multiset<Tree>)

  /** The trees `f`, combined by operator `o` with the nodes `r`, all of that
      operator, make up `kept`; there is exactly one node fewer than there are
      trees. */
  ghost predicate Assembled(p: Program, o: Op, f: seq<Tree>, r: seq<nat>, kept: Kept) {
    && Legal(p) && AllInRange(p, f)
    && |f| == |r| + 1
    && Fold(o, Total(p, o, f), p.modulus) == kept.value
    && Total(p, o, f).ids + multiset(r) == kept.ids
    && Total(p, o, f).frontier == kept.frontier && Total(p, o, f).base == kept.base
    && Total(p, o, f).parts == kept.parts
    && (forall i :: 0 <= i < |r| ==> 0 < r[i] < |p.op| && p.op[r[i]] == o)
  }

  lemma TotalPair(p: Program, o: Op, l: Tree, r: Tree)
    requires Legal(p) && InRange(p, l) && InRange(p, r)
    ensures AllInRange(p, [l, r]) && Total(p, o, [l, r]) == Plus(Single(p, o, l), Single(p, o, r))
  {
    hide InRange, Single, Plus, Total;
    assert [l, r] == [l] + [r];
    TotalOne(p, o, l);
    TotalOne(p, o, r);
    TotalConcat(p, o, [l], [r]);
  }

  /** Exchanging a branch of the operator for its two children. */
  lemma SplitTotal(p: Program, o: Op, f: seq<Tree>, c: Tree)
    requires Legal(p) && AllInRange(p, f) && InRange(p, c) && c.Branch? && p.op[c.id] == o
    ensures AllInRange(p, f + [c]) && AllInRange(p, f + [c.left, c.right])
    ensures Fold(o, Total(p, o, f + [c]), p.modulus) == Fold(o, Total(p, o, f + [c.left, c.right]), p.modulus)
    ensures Total(p, o, f + [c]).ids == Total(p, o, f + [c.left, c.right]).ids + multiset{c.id}
    ensures Total(p, o, f + [c]).frontier == Total(p, o, f + [c.left, c.right]).frontier
    ensures Total(p, o, f + [c]).base == Total(p, o, f + [c.left, c.right]).base
    ensures Total(p, o, f + [c]).parts == Total(p, o, f + [c.left, c.right]).parts
  {
    var l, r, t := c.left, c.right, Total(p, o, f);
    assert InRange(p, l) && InRange(p, r);
    TotalOne(p, o, c);
    TotalPair(p, o, l, r);
    TotalConcat(p, o, f, [c]);
    TotalConcat(p, o, f, [l, r]);
    PlusCommutes(t, Single(p, o, c));
    PlusCommutes(t, Plus(Single(p, o, l), Single(p, o, r)));
    SplitKeepsValue(p, o, c, t);
    SplitIds(p, o, c, t);
  }

  /** Collecting: the next tree of the work list is a node of the region. */
  lemma TakeApart(p: Program, o: Op, done: seq<Tree>, q: seq<Tree>, r: seq<nat>, kept: Kept)
    requires Assembled(p, o, done + q, r, kept) && q != [] && q[0].Branch?
    requires q[0].id < |p.op| && p.op[q[0].id] == o
    ensures Assembled(p, o, done + (q[1..] + [q[0].left, q[0].right]), r + [q[0].id], kept)
  {
    hide InRange, Single, Plus, Total, Fold;
    var c, f := q[0], done + q[1..];
    ToTheEnd(done, q);
    TotalPermutes(p, o, done + q, f + [c]);
    assert AllInRange(p, f) && InRange(p, c) by { RangeOfAll(p, f, c); }
    RangeOfParts(p, c);
    SplitTotal(p, o, f, c);
    var g' := done + (q[1..] + [c.left, c.right]);
    assert f + [c.left, c.right] == g';
    OneMoreNode(r, c.id);
    assert Total(p, o, g').ids + multiset(r + [c.id]) == kept.ids;
  }

  lemma ToTheEnd(done: seq<Tree>, q: seq<Tree>)
    requires q != []
    ensures multiset(done + q) == multiset(done + q[1..] + [q[0]])
  {
    assert done + q == done + [q[0]] + q[1..];
  }

  lemma RangeOfAll(p: Program, f: seq<Tree>, c: Tree)
    requires AllInRange(p, f + [c])
    ensures AllInRange(p, f) && InRange(p, c)
  {
    hide InRange;
    assert (f + [c])[|f|] == c;
    assert forall i :: 0 <= i < |f| ==> f[i] == (f + [c])[i];
  }

  lemma OneMoreNode(r: seq<nat>, n: nat)
    ensures multiset(r + [n]) == multiset(r) + multiset{n}
  {
  }

  lemma RangeOfParts(p: Program, c: Tree)
    requires InRange(p, c)
    ensures 0 < c.id < |p.op| && (c.Branch? ==> InRange(p, c.left) && InRange(p, c.right))
  {
  }

  lemma RangeOfBranch(p: Program, c: Tree)
    requires c.Branch? && 0 < c.id < |p.op| && InRange(p, c.left) && InRange(p, c.right)
    ensures InRange(p, c)
  {
  }

  /** Rebuilding: the first two trees become the children of the last node. */
  lemma PutTogether(p: Program, o: Op, a: Tree, b: Tree, rest: seq<Tree>, r: seq<nat>, kept: Kept)
    requires Assembled(p, o, [a, b] + rest, r, kept)
    ensures r != [] && Assembled(p, o, rest + [Branch(r[|r| - 1], a, b)], r[..|r| - 1], kept)
  {
    hide InRange, Single, Plus, Total, Fold;
    var n, f := |r| - 1, [a, b] + rest;
    var c := Branch(r[n], a, b);
    assert InRange(p, a) && InRange(p, b) by { assert f[0] == a && f[1] == b; }
    assert AllInRange(p, rest) by { assert forall i :: 0 <= i < |rest| ==> rest[i] == f[i + 2]; }
    RangeOfBranch(p, c);
    TotalPermutes(p, o, f, rest + [a, b]);
    SplitTotal(p, o, rest, c);
    assert multiset(r) == multiset(r[..n]) + multiset{r[n]} by { assert r == r[..n] + [r[n]]; }
    assert Total(p, o, rest + [c]).ids + multiset(r[..n]) == kept.ids;
  }

}
