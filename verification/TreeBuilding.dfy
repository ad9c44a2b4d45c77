/** The state of a region while it is being rebuilt: a list of trees in memory
    and the nodes still to be reused. */
module TreeBuilding {
  import opened LatencyShapes
  import opened OperatorTree
  import opened TreeMemory
  import opened TreeRegion

  ghost predicate Names(ids: seq<nat>, f: seq<Tree>) {
    |ids| == |f| && forall i :: 0 <= i < |f| ==> ids[i] == f[i].id
  }

  ghost predicate AllHold(h: seq<Cell>, f: seq<Tree>) {
    forall i :: 0 <= i < |f| ==> Holds(h, f[i])
  }

  ghost predicate AllTimed(p: Program, h: seq<Cell>, f: seq<Tree>)
    requires Legal(p) && AllInRange(p, f)
  {
    forall i :: 0 <= i < |f| ==> Timed(p, h, f[i])
  }

  ghost predicate Building(p: Program, h: seq<Cell>, o: Op, leaves: seq<nat>, r: seq<nat>, f: seq<Tree>, kept: Kept) {
    && |h| == |p.op| && Names(leaves, f) && Assembled(p, o, f, r, kept) && Simple(kept.ids)
    && AllHold(h, f) && (|f| > 1 ==> AllTimed(p, h, f))
  }

  // No node is used twice.

  lemma CountTwo(p: Program, o: Op, f: seq<Tree>, i: nat, j: nat, x: nat)
    requires Legal(p) && AllInRange(p, f) && i < j < |f|
    ensures Ids(f[i])[x] + Ids(f[j])[x] <= Total(p, o, f).ids[x]
  {
    hide InRange, Total, Ids;
    TotalFront(p, o, f, j);
    TotalFront(p, o, f[..j] + f[j + 1..], i);
  }

  lemma CountOne(p: Program, o: Op, f: seq<Tree>, i: nat, x: nat)
    requires Legal(p) && AllInRange(p, f) && i < |f|
    ensures Ids(f[i])[x] <= Total(p, o, f).ids[x]
  {
    hide InRange, Total, Ids;
    TotalFront(p, o, f, i);
  }

  lemma TreesApart(p: Program, o: Op, f: seq<Tree>, r: seq<nat>, kept: Kept, i: nat, j: nat)
    requires Assembled(p, o, f, r, kept) && Simple(kept.ids) && i < j < |f|
    ensures forall x :: x in Ids(f[i]) ==> x !in Ids(f[j])
    ensures f[i].id != f[j].id
  {
    hide InRange, Total, Ids, Fold;
    forall x | x in Ids(f[i])
      ensures x !in Ids(f[j])
    {
      CountTwo(p, o, f, i, j, x);
      assert kept.ids[x] <= 1;
    }
    RootInIds(f[i]);
    RootInIds(f[j]);
  }

  lemma NodeApart(p: Program, o: Op, f: seq<Tree>, r: seq<nat>, kept: Kept, i: nat, k: nat)
    requires Assembled(p, o, f, r, kept) && Simple(kept.ids) && i < |f| && k < |r|
    ensures r[k] !in Ids(f[i]) && r[k] != f[i].id
  {
    hide InRange, Total, Ids, Fold;
    CountOne(p, o, f, i, r[k]);
    assert r[k] in multiset(r);
    assert kept.ids[r[k]] <= 1;
    RootInIds(f[i]);
  }

  lemma TreeSimple(p: Program, o: Op, f: seq<Tree>, r: seq<nat>, kept: Kept, i: nat)
    requires Assembled(p, o, f, r, kept) && Simple(kept.ids) && i < |f|
    ensures Simple(Ids(f[i])) && forall x :: x in Ids(f[i]) ==> x in kept.ids
  {
    hide InRange, Total, Ids, Fold;
    forall x: nat
      ensures Ids(f[i])[x] <= 1 && (x in Ids(f[i]) ==> x in kept.ids)
    {
      CountOne(p, o, f, i, x);
      assert kept.ids[x] <= 1;
    }
  }

  lemma TreesDistinct(p: Program, o: Op, f: seq<Tree>, r: seq<nat>, kept: Kept)
    requires Assembled(p, o, f, r, kept) && Simple(kept.ids)
    ensures forall i, j :: 0 <= i < j < |f| ==> f[i].id != f[j].id
  {
    hide Assembled, Simple;
    forall i, j | 0 <= i < j < |f|
      ensures f[i].id != f[j].id
    {
      TreesApart(p, o, f, r, kept, i, j);
    }
  }

  // Writing to memory.

  /** Only latencies and costs may differ, and only in `b`. */
  ghost predicate RetimedAt(h: seq<Cell>, h': seq<Cell>, b: multiset<nat>, i: nat)
    requires i < |h| == |h'|
  {
    && SameLinks(h, h', i) && h'[i].parent == h[i].parent
    && (i !in b ==> h'[i] == h[i])
  }

  ghost predicate Retimed(h: seq<Cell>, h': seq<Cell>, b: multiset<nat>) {
    |h'| == |h| && forall i :: 0 <= i < |h| ==> RetimedAt(h, h', b, i)
  }

  lemma {:induction false} HoldsRetimed(h: seq<Cell>, h': seq<Cell>, b: multiset<nat>, t: Tree)
    requires Retimed(h, h', b) && Holds(h, t)
    ensures Holds(h', t)
  {
    assert RetimedAt(h, h', b, t.id);
    if t.Branch? {
      assert RetimedAt(h, h', b, t.left.id) && RetimedAt(h, h', b, t.right.id);
      HoldsRetimed(h, h', b, t.left);
      HoldsRetimed(h, h', b, t.right);
    }
  }

  /** Making `a` and `b` the children of `n`. */
  function Linked(h: seq<Cell>, n: nat, a: nat, b: nat): (h': seq<Cell>)
    requires n < |h| && a < |h| && b < |h|
  {
    var h1 := h[n := h[n].(left := a, right := b)];
    var h2 := h1[a := h1[a].(parent := n)];
    h2[b := h2[b].(parent := n)]
  }

  lemma LinkedAt(h: seq<Cell>, n: nat, a: nat, b: nat, i: nat)
    requires n < |h| && a < |h| && b < |h| && n != a && n != b && a != b && i < |h|
    ensures var c := Linked(h, n, a, b)[i];
      && |Linked(h, n, a, b)| == |h|
      && c.latency == h[i].latency && c.cost == h[i].cost
      && (i != n ==> c.left == h[i].left && c.right == h[i].right)
      && (i != a && i != b ==> c.parent == h[i].parent)
      && (i == n ==> c.left == a && c.right == b)
      && (i == a || i == b ==> c.parent == n)
  {
  }

  /** A tree apart from `n` survives the linking. */
  lemma LinkedHolds(h: seq<Cell>, n: nat, a: nat, b: nat, t: Tree)
    requires n < |h| && a < |h| && b < |h| && n != a && n != b && a != b
    requires Holds(h, t) && Simple(Ids(t)) && n !in Ids(t)
    requires a == t.id || a !in Ids(t)
    requires b == t.id || b !in Ids(t)
    ensures Holds(Linked(h, n, a, b), t)
  {
    hide Ids;
    var h' := Linked(h, n, a, b);
    forall i | i in Ids(t)
      ensures SameLinks(h, h', i) && (i != t.id ==> h'[i].parent == h[i].parent)
    {
      IdsInMemory(h, t, i);
      LinkedAt(h, n, a, b, i);
    }
    HoldsFrame(h, h', t);
  }

  lemma {:induction false} IdsInMemory(h: seq<Cell>, t: Tree, i: nat)
    requires Holds(h, t) && i in Ids(t)
    ensures 0 < i < |h|
  {
    if t.Branch? {
      IdCount(t, i);
      if i in Ids(t.left) {
        IdsInMemory(h, t.left, i);
      } else if i in Ids(t.right) {
        IdsInMemory(h, t.right, i);
      }
    }
  }

  lemma LinkedTimed(p: Program, h: seq<Cell>, n: nat, a: nat, b: nat, t: Tree)
    requires n < |h| && a < |h| && b < |h| && n != a && n != b && a != b
    requires Legal(p) && InRange(p, t) && Holds(h, t) && Timed(p, h, t)
    ensures Timed(p, Linked(h, n, a, b), t)
  {
  }

  /** The last node to be reused, with the first two trees below it. */
  ghost function NewTree(r: seq<nat>, f: seq<Tree>): (c: Tree)
    requires r != [] && |f| > 1
  {
    Branch(r[|r| - 1], f[0], f[1])
  }

  ghost predicate Linkable(h: seq<Cell>, n: nat, a: nat, b: nat) {
    n < |h| && a < |h| && b < |h| && n != a && n != b && a != b
  }

  lemma BuildingLinkable(p: Program, h: seq<Cell>, o: Op, leaves: seq<nat>, r: seq<nat>, f: seq<Tree>, kept: Kept)
    requires Building(p, h, o, leaves, r, f, kept) && |f| > 1
    ensures r != [] && leaves[0] == f[0].id && leaves[1] == f[1].id
    ensures Linkable(h, r[|r| - 1], leaves[0], leaves[1])
    ensures 0 < r[|r| - 1] && p.op[r[|r| - 1]] == o
  {
    hide Total, InRange, Fold, Simple;
    assert Holds(h, f[0]) && Holds(h, f[1]);
    TreesApart(p, o, f, r, kept, 0, 1);
    NodeApart(p, o, f, r, kept, 0, |r| - 1);
    NodeApart(p, o, f, r, kept, 1, |r| - 1);
  }

  /** After linking, every tree is still there. */
  lemma BuildingLinked(p: Program, h: seq<Cell>, o: Op, leaves: seq<nat>, r: seq<nat>, f: seq<Tree>, kept: Kept, k: nat)
    requires Building(p, h, o, leaves, r, f, kept) && |f| > 1 && k < |f|
    requires r != [] && Linkable(h, r[|r| - 1], f[0].id, f[1].id)
    ensures InRange(p, f[k])
    ensures var h' := Linked(h, r[|r| - 1], f[0].id, f[1].id); Holds(h', f[k]) && Timed(p, h', f[k])
  {
    hide Total, InRange, Fold, Simple, Holds, Timed, Linked;
    var n := |r| - 1;
    assert InRange(p, f[k]) && Holds(h, f[k]) && Timed(p, h, f[k]);
    TreeSimple(p, o, f, r, kept, k);
    NodeApart(p, o, f, r, kept, k, n);
    RootApart(p, o, f, r, kept, 0, k);
    RootApart(p, o, f, r, kept, 1, k);
    LinkedHolds(h, r[n], f[0].id, f[1].id, f[k]);
    LinkedTimed(p, h, r[n], f[0].id, f[1].id, f[k]);
  }

  lemma RootApart(p: Program, o: Op, f: seq<Tree>, r: seq<nat>, kept: Kept, i: nat, j: nat)
    requires Assembled(p, o, f, r, kept) && Simple(kept.ids) && i < |f| && j < |f|
    ensures f[i].id == f[j].id || f[i].id !in Ids(f[j])
  {
    hide Assembled, Simple, Ids;
    RootInIds(f[i]);
    if i < j {
      TreesApart(p, o, f, r, kept, i, j);
    } else if j < i {
      TreesApart(p, o, f, r, kept, j, i);
    }
  }

  /** The new tree is there too. */
  lemma NewTreeHolds(p: Program, h: seq<Cell>, o: Op, leaves: seq<nat>, r: seq<nat>, f: seq<Tree>, kept: Kept)
    requires Building(p, h, o, leaves, r, f, kept) && |f| > 1
    requires r != [] && Linkable(h, r[|r| - 1], f[0].id, f[1].id)
    ensures InRange(p, NewTree(r, f))
    ensures Holds(Linked(h, r[|r| - 1], f[0].id, f[1].id), NewTree(r, f))
  {
    BuildingLinked(p, h, o, leaves, r, f, kept, 0);
    BuildingLinked(p, h, o, leaves, r, f, kept, 1);
    hide Total, Fold, Simple, AllTimed, Linked, AllHold, AllInRange;
    var n := r[|r| - 1];
    LinkedAt(h, n, f[0].id, f[1].id, n);
    LinkedAt(h, n, f[0].id, f[1].id, f[0].id);
    LinkedAt(h, n, f[0].id, f[1].id, f[1].id);
  }

  ghost predicate SameOutside(h: seq<Cell>, h': seq<Cell>, b: multiset<nat>) {
    |h'| == |h| && forall i :: 0 <= i < |h| && i !in b ==> h'[i] == h[i]
  }

  /** Where the pieces end up: in memory, with nothing else touched and the top
      node's parent pointer as it was. */
  ghost predicate Landed(p: Program, h: seq<Cell>, h': seq<Cell>, f: seq<Tree>, b: multiset<nat>, top: nat) {
    && Legal(p) && AllInRange(p, f) && AllHold(h', f) && AllTimed(p, h', f) && SameOutside(h, h', b)
    && (top < |h| ==> h'[top].parent == h[top].parent)
  }

  lemma PieceRetimed(p: Program, h: seq<Cell>, h': seq<Cell>, c: Tree, t: Tree)
    requires Legal(p) && InRange(p, t) && Holds(h, t) && Timed(p, h, t) && Retimed(h, h', Ids(c))
    requires forall x :: x in Ids(t) ==> x !in Ids(c)
    ensures Holds(h', t) && Timed(p, h', t)
  {
    hide Ids, Timed, InRange;
    HoldsRetimed(h, h', Ids(c), t);
    forall i | i in Ids(t)
      ensures i < |h| && h'[i].latency == h[i].latency && h'[i].cost == h[i].cost
    {
      IdsInMemory(h, t, i);
      assert RetimedAt(h, h', Ids(c), i);
    }
    TimedFrame(p, h, h', t);
  }

  lemma NewTreeApart(p: Program, o: Op, r: seq<nat>, f: seq<Tree>, kept: Kept, k: nat)
    requires Assembled(p, o, f, r, kept) && Simple(kept.ids) && 1 < k < |f| && r != []
    ensures forall x :: x in Ids(f[k]) ==> x !in Ids(NewTree(r, f))
  {
    hide Assembled, Simple, Ids;
    forall x | x in Ids(f[k])
      ensures x !in Ids(NewTree(r, f))
    {
      TreesApart(p, o, f, r, kept, 0, k);
      TreesApart(p, o, f, r, kept, 1, k);
      assert |r| > 0 by { LastNode(p, o, r, f, kept); }
      NodeApart(p, o, f, r, kept, k, |r| - 1);
      IdCount(NewTree(r, f), x);
    }
  }

  lemma LastNode(p: Program, o: Op, r: seq<nat>, f: seq<Tree>, kept: Kept)
    requires Assembled(p, o, f, r, kept) && |f| > 1
    ensures r != []
  {
  }

  lemma NewTreeIds(p: Program, o: Op, r: seq<nat>, f: seq<Tree>, kept: Kept)
    requires Assembled(p, o, f, r, kept) && |f| > 1 && Simple(kept.ids)
    ensures r != [] && forall x :: x in Ids(NewTree(r, f)) ==> x in kept.ids
  {
    hide Simple, Ids, InRange, Total, Fold;
    var n := |r| - 1;
    forall x | x in Ids(NewTree(r, f))
      ensures x in kept.ids
    {
      IdCount(NewTree(r, f), x);
      TreeSimple(p, o, f, r, kept, 0);
      TreeSimple(p, o, f, r, kept, 1);
      assert r[n] in multiset(r);
    }
  }

  /** Linking the first two trees below the last node and updating the
      latencies of the new tree. */
  lemma BuildingStep(p: Program, h: seq<Cell>, o: Op, leaves: seq<nat>, r: seq<nat>, f: seq<Tree>, kept: Kept, h': seq<Cell>)
    requires Building(p, h, o, leaves, r, f, kept) && |f| > 1
    requires r != [] && Linkable(h, r[|r| - 1], f[0].id, f[1].id)
    requires InRange(p, NewTree(r, f)) && Legal(p)
    requires Retimed(Linked(h, r[|r| - 1], f[0].id, f[1].id), h', Ids(NewTree(r, f)))
    requires Timed(p, h', NewTree(r, f)) && Holds(h', NewTree(r, f))
    ensures Landed(p, h, h', f[2..] + [NewTree(r, f)], kept.ids, r[0])
  {
    hide Building, Linked, NewTree, Retimed, InRange, Holds, Timed, Simple, Assembled, Linkable;
    forall i | 0 <= i < |f| - 2
      ensures InRange(p, f[2..][i]) && Holds(h', f[2..][i]) && Timed(p, h', f[2..][i])
    {
      PieceStays(p, h, o, leaves, r, f, kept, h', i + 2);
    }
    StepFrame(p, h, o, leaves, r, f, kept, h');
  }

  lemma PieceStays(p: Program, h: seq<Cell>, o: Op, leaves: seq<nat>, r: seq<nat>, f: seq<Tree>, kept: Kept, h': seq<Cell>, k: nat)
    requires Building(p, h, o, leaves, r, f, kept) && 1 < k < |f|
    requires r != [] && Linkable(h, r[|r| - 1], f[0].id, f[1].id) && Legal(p)
    requires Retimed(Linked(h, r[|r| - 1], f[0].id, f[1].id), h', Ids(NewTree(r, f)))
    ensures InRange(p, f[k]) && Holds(h', f[k]) && Timed(p, h', f[k])
  {
    hide Building, Linked, NewTree, Retimed, InRange, Holds, Timed, Simple, Assembled;
    BuildingLinked(p, h, o, leaves, r, f, kept, k);
    BuildingParts(p, h, o, leaves, r, f, kept);
    NewTreeApart(p, o, r, f, kept, k);
    PieceRetimed(p, Linked(h, r[|r| - 1], f[0].id, f[1].id), h', NewTree(r, f), f[k]);
  }

  lemma BuildingParts(p: Program, h: seq<Cell>, o: Op, leaves: seq<nat>, r: seq<nat>, f: seq<Tree>, kept: Kept)
    requires Building(p, h, o, leaves, r, f, kept)
    ensures Assembled(p, o, f, r, kept) && Simple(kept.ids) && Legal(p) && AllInRange(p, f) && |h| == |p.op|
  {
  }

  lemma StepFrame(p: Program, h: seq<Cell>, o: Op, leaves: seq<nat>, r: seq<nat>, f: seq<Tree>, kept: Kept, h': seq<Cell>)
    requires Building(p, h, o, leaves, r, f, kept) && |f| > 1
    requires r != [] && Linkable(h, r[|r| - 1], f[0].id, f[1].id)
    requires Retimed(Linked(h, r[|r| - 1], f[0].id, f[1].id), h', Ids(NewTree(r, f)))
    ensures SameOutside(h, h', kept.ids) && (r[0] < |h| ==> h'[r[0]].parent == h[r[0]].parent)
  {
    BuildingParts(p, h, o, leaves, r, f, kept);
    hide Building, InRange, Simple, Assembled, Linked;
    var n := r[|r| - 1];
    var h1 := Linked(h, n, f[0].id, f[1].id);
    var c := NewTree(r, f);
    NewTreeIds(p, o, r, f, kept);
    IdsOfParts(c);
    RootInIds(f[0]);
    RootInIds(f[1]);
    hide Ids;
    forall i | 0 <= i < |h|
      ensures i !in kept.ids ==> h'[i] == h[i]
      ensures i == r[0] ==> h'[i].parent == h[i].parent
    {
      LinkedAt(h, n, f[0].id, f[1].id, i);
      assert RetimedAt(h1, h', Ids(c), i);
      if i == r[0] {
        NodeApart(p, o, f, r, kept, 0, 0);
        NodeApart(p, o, f, r, kept, 1, 0);
      }
    }
  }

  // The greedy choice.

  lemma {:induction false} LaterCount(p: Program, o: Op, f: seq<Tree>, b: real, q: real)
    requires Legal(p) && AllInRange(p, f) && q < b
    requires forall i :: 0 <= i < |f| ==> b <= Latency(p, f[i])
    ensures Total(p, o, f).times[q] == 0
  {
    hide InRange, Latency, Eval, Ids, Frontier, Parts, ShapeOf, Times;
    if f != [] {
      LaterCount(p, o, f[1..], b, q);
    }
  }

  lemma TotalHeads(p: Program, o: Op, f: seq<Tree>)
    requires Legal(p) && AllInRange(p, f) && |f| > 1
    ensures Total(p, o, f).times == multiset{Latency(p, f[0])} + multiset{Latency(p, f[1])} + Total(p, o, f[2..]).times
  {
  }

  ghost predicate Ascending(p: Program, f: seq<Tree>)
    requires Legal(p) && AllInRange(p, f)
  {
    forall i, j :: 0 <= i < j < |f| ==> Latency(p, f[i]) <= Latency(p, f[j])
  }

  lemma AscendingHeads(p: Program, f: seq<Tree>)
    requires Legal(p) && AllInRange(p, f) && Ascending(p, f) && |f| > 1
    ensures Latency(p, f[0]) <= Latency(p, f[1]) && AllInRange(p, f[2..])
    ensures forall i :: 0 <= i < |f[2..]| ==> Latency(p, f[1]) <= Latency(p, f[2..][i])
  {
  }

  /** Combining two earliest trees loses nothing. */
  lemma GreedyStep(p: Program, o: Op, f: seq<Tree>, n: nat, m0: multiset<real>)
    requires Legal(p) && AllInRange(p, f) && |f| > 1 && 0 < n < |p.op| && p.op[n] == o
    requires Ascending(p, f)
    requires NoWorse(Delay(p, o), m0, Total(p, o, f).times)
    ensures AllInRange(p, f[2..] + [Branch(n, f[0], f[1])])
    ensures NoWorse(Delay(p, o), m0, Total(p, o, f[2..] + [Branch(n, f[0], f[1])]).times)
  {
    var c, g := Branch(n, f[0], f[1]), f[2..];
    AscendingHeads(p, f);
    RangeOfBranch(p, c);
    hide *;
    GreedyTimes(p, o, f, c);
    CombineTwo(Delay(p, o), m0, Total(p, o, f).times, Latency(p, f[0]), Latency(p, f[1]),
      Total(p, o, g).times, Total(p, o, g + [c]).times);
  }

  lemma GreedyTimes(p: Program, o: Op, f: seq<Tree>, c: Tree)
    requires Legal(p) && AllInRange(p, f) && |f| > 1 && Ascending(p, f)
    requires InRange(p, c) && c.Branch? && c.left == f[0] && c.right == f[1] && p.op[c.id] == o
    ensures AllInRange(p, f[2..]) && AllInRange(p, f[2..] + [c])
    ensures Combines(Delay(p, o), Total(p, o, f).times, Latency(p, f[0]), Latency(p, f[1]),
              Total(p, o, f[2..]).times, Total(p, o, f[2..] + [c]).times)
  {
    hide InRange, Latency, Total, Delay, Legal, Ascending;
    TotalHeads(p, o, f);
    AscendingHeads(p, f);
    LatencyOfBranch(p, c);
    TotalNext(p, o, f[2..], c);
    LaterRest(p, o, f[2..], Latency(p, f[1]));
  }

  lemma TotalNext(p: Program, o: Op, g: seq<Tree>, c: Tree)
    requires Legal(p) && AllInRange(p, g) && InRange(p, c)
    ensures AllInRange(p, g + [c]) && Total(p, o, g + [c]).times == Total(p, o, g).times + multiset{Latency(p, c)}
  {
    hide InRange, Latency, Eval, Ids, Frontier, Parts, ShapeOf, Times, Total;
    TotalConcat(p, o, g, [c]);
    TotalOne(p, o, c);
  }

  lemma LaterRest(p: Program, o: Op, g: seq<Tree>, b: real)
    requires Legal(p) && AllInRange(p, g) && forall i :: 0 <= i < |g| ==> b <= Latency(p, g[i])
    ensures forall q :: q < b ==> Total(p, o, g).times[q] == 0
  {
    hide InRange, Latency, Total;
    forall q | q < b
      ensures Total(p, o, g).times[q] == 0
    {
      LaterCount(p, o, g, b, q);
    }
  }

  lemma LatencyOfBranch(p: Program, c: Tree)
    requires Legal(p) && InRange(p, c) && c.Branch? && Latency(p, c.left) <= Latency(p, c.right)
    ensures Latency(p, c) == Latency(p, c.right) + Delay(p, p.op[c.id]) && Delay(p, p.op[c.id]) >= 0.0
  {
  }
}
