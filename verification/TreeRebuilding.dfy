/** What each step of rebuilding an operation tree keeps. */
module TreeRebuilding {
  import opened LatencyShapes
  import opened OperatorTree
  import opened TreeMemory
  import opened TreeRegion
  import opened TreeBuilding
  import opened TreeCollecting

  // Lists of leaves.

  /** The order in which leaves are combined: by latency, then by cost. */
  predicate Before(h: seq<Cell>, a: nat, b: nat)
    requires a < |h| && b < |h|
  {
    if h[a].latency != h[b].latency then h[a].latency < h[b].latency else h[a].cost < h[b].cost
  }

  ghost predicate InMemory(h: seq<Cell>, s: seq<nat>) {
    forall i :: 0 <= i < |s| ==> s[i] < |h|
  }

  /** Earlier, or at the same time and no more expensive. */
  ghost predicate NotAfter(a: Cell, b: Cell) {
    a.latency < b.latency || (a.latency == b.latency && a.cost <= b.cost)
  }

  ghost predicate Ordered(h: seq<Cell>, s: seq<nat>)
    requires InMemory(h, s)
  {
    forall i, j :: 0 <= i < j < |s| ==> NotAfter(h[s[i]], h[s[j]])
  }

  function Without(s: seq<nat>, x: nat): (s': seq<nat>) {
    if s == [] then [] else
      var r, y := Without(s[..|s| - 1], x), s[|s| - 1];
      if y == x then r else r + [y]
  }

  lemma {:induction false} WithoutNone(s: seq<nat>, x: nat)
    requires forall i :: 0 <= i < |s| ==> s[i] != x
    ensures Without(s, x) == s
  {
    if s != [] {
      WithoutNone(s[..|s| - 1], x);
    }
  }

  lemma {:induction false} WithoutHead(s: seq<nat>, x: nat)
    requires s != [] && s[0] == x && forall i :: 1 <= i < |s| ==> s[i] != x
    ensures Without(s, x) == s[1..]
  {
    if |s| > 1 {
      var r := s[..|s| - 1];
      WithoutHead(r, x);
      assert s[1..] == r[1..] + [s[|s| - 1]];
    } else {
      assert Without(s[..0], x) == [];
    }
  }

  /** Everything equal to `x` is gone from the first `k` of `leaves`. */
  ghost predicate Removing(leaves: seq<nat>, k: nat, x: nat, s: seq<nat>, i: nat) {
    k <= |leaves| && i == |Without(leaves[..k], x)| && s == Without(leaves[..k], x) + leaves[k..]
  }

  lemma RemoveStart(leaves: seq<nat>, x: nat)
    ensures Removing(leaves, 0, x, leaves, 0)
  {
  }

  lemma RemoveStep(leaves: seq<nat>, k: nat, x: nat, s: seq<nat>, i: nat)
    requires Removing(leaves, k, x, s, i) && i < |s|
    ensures k < |leaves| && Removing(leaves, k + 1, x, if s[i] == x then Erased(s, i) else s, if s[i] == x then i else i + 1)
  {
    var w := Without(leaves[..k], x);
    assert leaves[..k + 1][..k] == leaves[..k];
    assert leaves[k..] == [leaves[k]] + leaves[k + 1..];
    assert s[i] == leaves[k];
    if s[i] == x {
      assert Erased(s, i) == w + leaves[k + 1..];
    } else {
      assert s == w + [leaves[k]] + leaves[k + 1..];
    }
  }

  lemma RemoveEnd(leaves: seq<nat>, k: nat, x: nat, s: seq<nat>)
    requires Removing(leaves, k, x, s, |s|)
    ensures s == Without(leaves, x)
  {
    assert k == |leaves| && leaves[..k] == leaves;
  }

  /** Inserting into an ordered list. */
  lemma InsertOrdered(h: seq<Cell>, s: seq<nat>, k: nat, x: nat)
    requires InMemory(h, s) && Ordered(h, s) && x < |h| && k <= |s|
    requires forall i :: k <= i < |s| ==> Before(h, x, s[i])
    requires k > 0 ==> !Before(h, x, s[k - 1])
    ensures InMemory(h, s[..k] + [x] + s[k..]) && Ordered(h, s[..k] + [x] + s[k..])
  {
  }

  lemma OrderedNone(h: seq<Cell>)
    ensures InMemory(h, []) && Ordered(h, [])
  {
  }

  lemma OrderedAscends(p: Program, h: seq<Cell>, s: seq<nat>, f: seq<Tree>)
    requires Legal(p) && AllInRange(p, f) && Names(s, f) && AllTimed(p, h, f)
    requires InMemory(h, s) && Ordered(h, s)
    ensures Ascending(p, f)
  {
  }

  // Which tree is built.

  /** List `g` is `f` ordered by latency, then by cost. */
  ghost predicate SortedForm(p: Program, f: seq<Tree>, g: seq<Tree>)
    requires Legal(p)
  {
    && multiset(g) == multiset(f) && AllInRange(p, g) && |g| == |f|
    && forall i, j :: 0 <= i < j < |g| ==> NotLater(p, g[i], g[j])
  }

  ghost predicate NotLater(p: Program, a: Tree, b: Tree)
    requires Legal(p) && InRange(p, a) && InRange(p, b)
  {
    Latency(p, a) < Latency(p, b) || (Latency(p, a) == Latency(p, b) && Cost(p, a) <= Cost(p, b))
  }

  /** Tree `t` comes from the list `f` by sorting it and putting the first two
      below the last node of `r`, the first one on the left, again and again. */
  ghost predicate Greedy(p: Program, f: seq<Tree>, r: seq<nat>, t: Tree)
    requires Legal(p)
    decreases |r|
  {
    if r == [] then f == [t]
    else exists g :: SortedForm(p, f, g) && |g| > 1 && Greedy(p, Combined(g, r[|r| - 1]), r[..|r| - 1], t)
  }

  ghost function Combined(g: seq<Tree>, n: nat): (f: seq<Tree>)
    requires |g| > 1
  {
    g[2..] + [Branch(n, g[0], g[1])]
  }

  lemma GreedyBack(p: Program, h: seq<Cell>, f: seq<Tree>, s: seq<nat>, g: seq<Tree>, r: seq<nat>, t: Tree)
    requires Legal(p) && AllInRange(p, g) && Names(s, g) && AllTimed(p, h, g) && InMemory(h, s) && Ordered(h, s)
    requires multiset(g) == multiset(f) && |g| == |f| > 1 && r != []
    requires Greedy(p, Combined(g, r[|r| - 1]), r[..|r| - 1], t)
    ensures Greedy(p, f, r, t)
  {
    hide InRange, Latency, Cost;
    forall i, j | 0 <= i < j < |g|
      ensures NotLater(p, g[i], g[j])
    {
      assert NotAfter(h[s[i]], h[s[j]]);
      TimedRoot(p, h, g[i]);
      TimedRoot(p, h, g[j]);
    }
    assert SortedForm(p, f, g);
  }

  lemma BuildingPermuted(p: Program, h: seq<Cell>, o: Op, s: seq<nat>, f: seq<Tree>, s': seq<nat>, g: seq<Tree>, r: seq<nat>, kept: Kept)
    requires Building(p, h, o, s, r, f, kept) && Names(s', g) && multiset(g) == multiset(f)
    ensures Building(p, h, o, s', r, g, kept) && Total(p, o, g) == Total(p, o, f)
  {
    hide InRange, Total, Holds, Timed, Simple, Fold;
    TotalPermutes(p, o, f, g);
    assert |g| == |multiset(g)| == |multiset(f)| == |f|;
    forall i | 0 <= i < |g|
      ensures Holds(h, g[i]) && (|f| > 1 ==> Timed(p, h, g[i]))
    {
      assert g[i] in multiset(f);
    }
  }

  /** What is built from `f` and `r` is built from `f0` and `r0`. */
  ghost predicate LeadsBack(p: Program, f: seq<Tree>, r: seq<nat>, f0: seq<Tree>, r0: seq<nat>) {
    Legal(p) && forall x :: Greedy(p, f, r, x) ==> Greedy(p, f0, r0, x)
  }

  lemma LeadsBackEnd(p: Program, t: Tree, f0: seq<Tree>, r0: seq<nat>)
    requires LeadsBack(p, [t], [], f0, r0)
    ensures Legal(p) && Greedy(p, f0, r0, t)
  {
    assert Greedy(p, [t], [], t);
  }

  /** The order of the list does not matter as it is sorted first. */
  lemma LeadsBackPermuted(p: Program, f: seq<Tree>, g: seq<Tree>, r: seq<nat>, f0: seq<Tree>, r0: seq<nat>)
    requires LeadsBack(p, f, r, f0, r0) && multiset(g) == multiset(f) && |g| == |f| && r != []
    ensures LeadsBack(p, g, r, f0, r0)
  {
    forall x | Greedy(p, g, r, x)
      ensures Greedy(p, f, r, x)
    {
      var s :| SortedForm(p, g, s) && |s| > 1 && Greedy(p, Combined(s, r[|r| - 1]), r[..|r| - 1], x);
      assert SortedForm(p, f, s);
    }
  }

  lemma LeadsBackStep(p: Program, h: seq<Cell>, o: Op, f: seq<Tree>, s: seq<nat>, r: seq<nat>, kept: Kept, f0: seq<Tree>, r0: seq<nat>)
    requires Building(p, h, o, s, r, f, kept) && |f| > 1 && r != [] && InMemory(h, s) && Ordered(h, s)
    requires LeadsBack(p, f, r, f0, r0)
    ensures LeadsBack(p, f[2..] + [NewTree(r, f)], r[..|r| - 1], f0, r0)
  {
    hide Greedy, Ordered;
    BuildingParts(p, h, o, s, r, f, kept);
    forall x | Greedy(p, f[2..] + [NewTree(r, f)], r[..|r| - 1], x)
      ensures Greedy(p, f, r, x)
    {
      GreedyBack(p, h, f, s, f, r, x);
    }
  }

  /** The list of leaves after a combination. */
  lemma LeavesStep(p: Program, h: seq<Cell>, o: Op, s: seq<nat>, f: seq<Tree>, r: seq<nat>, kept: Kept)
    requires Building(p, h, o, s, r, f, kept) && |f| > 1 && r != []
    ensures Without(Without(s + [r[|r| - 1]], s[0]), s[1]) == s[2..] + [r[|r| - 1]]
  {
    hide Without, Assembled, Simple;
    BuildingParts(p, h, o, s, r, f, kept);
    TreesDistinct(p, o, f, r, kept);
    var n := r[|r| - 1];
    NodeApart(p, o, f, r, kept, 0, |r| - 1);
    NodeApart(p, o, f, r, kept, 1, |r| - 1);
    WithoutHead(s + [n], s[0]);
    assert (s + [n])[1..][1..] == s[2..] + [n];
    WithoutHead((s + [n])[1..], s[1]);
  }

  /** The trees after a combination. */
  lemma BuildingNext(p: Program, h: seq<Cell>, h': seq<Cell>, o: Op, s: seq<nat>, f: seq<Tree>, r: seq<nat>, kept: Kept)
    requires Building(p, h, o, s, r, f, kept) && |f| > 1 && r != []
    requires Landed(p, h, h', f[2..] + [NewTree(r, f)], kept.ids, r[0])
    ensures Building(p, h', o, s[2..] + [r[|r| - 1]], r[..|r| - 1], f[2..] + [NewTree(r, f)], kept)
  {
    hide InRange, Total, Holds, Timed, Simple, Fold, Assembled;
    BuildingParts(p, h, o, s, r, f, kept);
    assert f == [f[0], f[1]] + f[2..];
    PutTogether(p, o, f[0], f[1], f[2..], r, kept);
  }

  /** The trees, their latencies and the nodes a rebuilding begins with. */
  datatype Begun = Begun(trees: seq<Tree>, times: multiset<real>, nodes: seq<nat>)

  /** Where a rebuilding stands that began in memory `h0`. */
  ghost predicate Rebuilding(p: Program, h0: seq<Cell>, h: seq<Cell>, o: Op, b0: Begun,
    s: seq<nat>, f: seq<Tree>, r: seq<nat>, kept: Kept, top: nat) {
    && Building(p, h, o, s, r, f, kept)
    && SameOutside(h0, h, kept.ids)
    && top < |h| && h[top].parent == h0[top].parent
    && top == (if r == [] then s[0] else r[0])
    && NoWorse(Delay(p, o), b0.times, Total(p, o, f).times)
    && LeadsBack(p, f, r, b0.trees, b0.nodes)
  }

  lemma RebuildingSorted(p: Program, h0: seq<Cell>, h: seq<Cell>, o: Op, b0: Begun,
    s: seq<nat>, f: seq<Tree>, s': seq<nat>, g: seq<Tree>, r: seq<nat>, kept: Kept, top: nat)
    requires Rebuilding(p, h0, h, o, b0, s, f, r, kept, top) && |f| > 1
    requires Names(s', g) && multiset(g) == multiset(f)
    ensures Rebuilding(p, h0, h, o, b0, s', g, r, kept, top) && |g| == |f|
  {
    BuildingPermuted(p, h, o, s, f, s', g, r, kept);
    hide Building, NoWorse, Total, SameOutside, LeadsBack;
    assert |g| == |multiset(g)| == |multiset(f)| == |f|;
    BuildingParts(p, h, o, s, r, f, kept);
    OneMore(p, o, f, r, kept);
    LeadsBackPermuted(p, f, g, r, b0.trees, b0.nodes);
  }

  lemma RebuildingStep(p: Program, h0: seq<Cell>, h: seq<Cell>, h': seq<Cell>, o: Op, b0: Begun,
    s: seq<nat>, f: seq<Tree>, r: seq<nat>, kept: Kept, top: nat)
    requires Rebuilding(p, h0, h, o, b0, s, f, r, kept, top) && |f| > 1 && r != []
    requires InMemory(h, s) && Ordered(h, s)
    requires Landed(p, h, h', f[2..] + [NewTree(r, f)], kept.ids, r[0])
    ensures Rebuilding(p, h0, h', o, b0, s[2..] + [r[|r| - 1]], f[2..] + [NewTree(r, f)], r[..|r| - 1], kept, top)
  {
    hide Building, NoWorse, Total, Assembled, Ordered, AllTimed, AllHold, AllInRange, NewTree, LeadsBack;
    BuildingParts(p, h, o, s, r, f, kept);
    BuildingNext(p, h, h', o, s, f, r, kept);
    LastReused(p, h, o, s, f, r, kept);
    SortedStep(p, h, o, b0.times, s, f, r, kept);
    LeadsBackStep(p, h, o, f, s, r, kept, b0.trees, b0.nodes);
  }

  lemma LastReused(p: Program, h: seq<Cell>, o: Op, s: seq<nat>, f: seq<Tree>, r: seq<nat>, kept: Kept)
    requires Building(p, h, o, s, r, f, kept) && r != []
    ensures 0 < r[|r| - 1] < |p.op| && p.op[r[|r| - 1]] == o && |s| == |f| == |r| + 1
  {
  }

  lemma SortedStep(p: Program, h: seq<Cell>, o: Op, m0: multiset<real>, s: seq<nat>, f: seq<Tree>, r: seq<nat>, kept: Kept)
    requires Building(p, h, o, s, r, f, kept) && |f| > 1 && r != []
    requires InMemory(h, s) && Ordered(h, s) && NoWorse(Delay(p, o), m0, Total(p, o, f).times)
    ensures AllInRange(p, f[2..] + [NewTree(r, f)])
    ensures NoWorse(Delay(p, o), m0, Total(p, o, f[2..] + [NewTree(r, f)]).times)
  {
    LastReused(p, h, o, s, f, r, kept);
    hide InRange, NoWorse, Total, Assembled, Ordered, Ascending, Simple, AllHold;
    BuildingParts(p, h, o, s, r, f, kept);
    OrderedAscends(p, h, s, f);
    GreedyStep(p, o, f, r[|r| - 1], m0);
  }

  lemma RebuildingStart(p: Program, h: seq<Cell>, o: Op, s: seq<nat>, f: seq<Tree>, r: seq<nat>, kept: Kept, top: nat)
    requires Building(p, h, o, s, r, f, kept) && top == if r == [] then s[0] else r[0]
    ensures Legal(p) && AllInRange(p, f) && Rebuilding(p, h, h, o, Begun(f, Total(p, o, f).times, r), s, f, r, kept, top)
  {
  }

  /** What the loop needs while more than one leaf is left. */
  lemma RebuildingMany(p: Program, h0: seq<Cell>, h: seq<Cell>, o: Op, b0: Begun,
    s: seq<nat>, f: seq<Tree>, r: seq<nat>, kept: Kept, top: nat)
    requires Rebuilding(p, h0, h, o, b0, s, f, r, kept, top) && |s| > 1
    ensures Building(p, h, o, s, r, f, kept) && InMemory(h, s) && Names(s, f) && |r| == |s| - 1
  {
  }

  /** One tree is left, and no node. */
  lemma RebuildingOne(p: Program, h0: seq<Cell>, h: seq<Cell>, o: Op, b0: Begun,
    s: seq<nat>, f: seq<Tree>, r: seq<nat>, kept: Kept, top: nat)
    requires Rebuilding(p, h0, h, o, b0, s, f, r, kept, top) && |s| <= 1
    ensures r == [] && |f| == 1 == |s| && s[0] == f[0].id == top && Legal(p) && InRange(p, f[0]) && Holds(h, f[0]) && |h| == |p.op|
    ensures Simple(Ids(f[0])) && (forall x :: x in Ids(f[0]) ==> x in kept.ids)
    ensures Assembled(p, o, [f[0]], [], kept) && NoWorse(Delay(p, o), b0.times, multiset{Latency(p, f[0])})
    ensures SameOutside(h0, h, kept.ids) && top < |h| && h[top].parent == h0[top].parent
    ensures Greedy(p, b0.trees, b0.nodes, f[0])
  {
    hide NoWorse, Total, SameOutside, InRange, Simple, Holds, Ids, Fold;
    BuildingParts(p, h, o, s, r, f, kept);
    TreeSimple(p, o, f, r, kept, 0);
    assert f == [f[0]] && r == [];
    TotalOne(p, o, f[0]);
    LeadsBackEnd(p, f[0], b0.trees, b0.nodes);
  }

  lemma RebuildingEnd(p: Program, h0: seq<Cell>, h: seq<Cell>, h': seq<Cell>, b: multiset<nat>, t: Tree)
    requires SameOutside(h0, h, b) && Retimed(h, h', Ids(t)) && t.id < |h| && h[t.id].parent == h0[t.id].parent
    requires forall x :: x in Ids(t) ==> x in b
    ensures SameOutside(h0, h', b) && h'[t.id].parent == h0[t.id].parent
  {
    hide Ids;
    assert RetimedAt(h, h', Ids(t), t.id);
    forall i | 0 <= i < |h|
      ensures i !in b ==> h'[i] == h0[i]
    {
      assert RetimedAt(h, h', Ids(t), i);
    }
  }

  lemma NewTreeSimple(p: Program, o: Op, r: seq<nat>, f: seq<Tree>, kept: Kept)
    requires Assembled(p, o, f, r, kept) && Simple(kept.ids) && |f| > 1 && r != []
    ensures Simple(Ids(NewTree(r, f)))
  {
    var c, n := NewTree(r, f), |r| - 1;
    hide Assembled, Ids;
    TreeSimple(p, o, f, r, kept, 0);
    TreeSimple(p, o, f, r, kept, 1);
    TreesApart(p, o, f, r, kept, 0, 1);
    NodeApart(p, o, f, r, kept, 0, n);
    NodeApart(p, o, f, r, kept, 1, n);
    forall x: nat
      ensures Ids(c)[x] <= 1
    {
      IdCount(c, x);
      assert Ids(f[0])[x] <= 1 && Ids(f[1])[x] <= 1;
    }
  }

  // The whole tree.

  /** `t'` computes what `t` does from the same nodes, no later, and its top
      region has the same frontier. */
  ghost predicate Improves(p: Program, t: Tree, t': Tree)
    requires Legal(p) && InRange(p, t)
  {
    && InRange(p, t') && t'.id == t.id && t'.Branch? == t.Branch?
    && Ids(t') == Ids(t) && Eval(p, t') == Eval(p, t) && Latency(p, t') <= Latency(p, t)
    && Frontier(p, p.op[t.id], t') == Frontier(p, p.op[t.id], t)
  }

  // Every region below the top one.

  /** The head of `c` is below another operator: it stays, and what of its
      region begins on a side is optimal in itself. */
  ghost predicate PartSettled(p: Program, c: Tree)
    requires Legal(p) && InRange(p, c)
    decreases c, 0
  {
    c.Branch? ==>
      && SideOptimal(p, p.op[c.id], c.left) && SideOptimal(p, p.op[c.id], c.right)
      && RegionSettled(p, p.op[c.id], c.left) && RegionSettled(p, p.op[c.id], c.right)
  }

  ghost predicate SideOptimal(p: Program, o: Op, s: Tree)
    requires Legal(p) && InRange(p, s)
  {
    s.Branch? && p.op[s.id] == o ==> Optimal(p, o, s)
  }

  /** So it is with everything just below the region of operator `o`. */
  ghost predicate RegionSettled(p: Program, o: Op, t: Tree)
    requires Legal(p) && InRange(p, t)
    decreases t, 1
  {
    if t.Branch? && p.op[t.id] == o then RegionSettled(p, o, t.left) && RegionSettled(p, o, t.right)
    else PartSettled(p, t)
  }

  lemma {:induction false} SettledByParts(p: Program, o: Op, t: Tree)
    requires Legal(p) && InRange(p, t)
    ensures RegionSettled(p, o, t) <==> forall c :: c in Parts(p, o, t) ==> InRange(p, c) && PartSettled(p, c)
  {
    if t.Branch? && p.op[t.id] == o {
      SettledByParts(p, o, t.left);
      SettledByParts(p, o, t.right);
    }
  }

  /** Rebuilding a region leaves what is below it settled. */
  lemma SettledStays(p: Program, o: Op, t: Tree, t': Tree)
    requires Legal(p) && InRange(p, t) && InRange(p, t') && Parts(p, o, t') == Parts(p, o, t)
    ensures RegionSettled(p, o, t') <==> RegionSettled(p, o, t)
  {
    hide RegionSettled, PartSettled, Parts;
    SettledByParts(p, o, t);
    SettledByParts(p, o, t');
  }

  /** What dealing with tree `t` leaves; `ends` tells whether its head is below
      another operator. */
  ghost predicate Settled(p: Program, t: Tree, ends: bool)
    requires Legal(p) && InRange(p, t)
  {
    RegionSettled(p, p.op[t.id], t) && if ends then PartSettled(p, t) else Optimal(p, p.op[t.id], t)
  }

  /** One side of `t`, which may be in its region. */
  lemma SideSettled(p: Program, o: Op, s: Tree, s': Tree)
    requires Legal(p) && InRange(p, s) && Improves(p, s, s') && Settled(p, s', !(s.Branch? && p.op[s.id] == o))
    ensures RegionSettled(p, o, s') && SideOptimal(p, o, s')
  {
    hide Optimal, Frontier, Ids, Eval, Latency;
  }

  lemma SidesDone(p: Program, t: Tree, l': Tree, r': Tree)
    requires Legal(p) && InRange(p, t) && t.Branch? && Improves(p, t.left, l') && Improves(p, t.right, r')
    requires Settled(p, l', !(t.left.Branch? && p.op[t.left.id] == p.op[t.id]))
    requires Settled(p, r', !(t.right.Branch? && p.op[t.right.id] == p.op[t.id]))
    ensures InRange(p, Branch(t.id, l', r')) && PartSettled(p, Branch(t.id, l', r')) && RegionSettled(p, p.op[t.id], Branch(t.id, l', r'))
  {
    SideSettled(p, p.op[t.id], t.left, l');
    SideSettled(p, p.op[t.id], t.right, r');
    hide SideOptimal, Improves;
    assert InRange(p, l') && InRange(p, r');
  }

  lemma ImprovesParts(p: Program, t: Tree, l': Tree, r': Tree)
    requires Legal(p) && InRange(p, t) && t.Branch? && Improves(p, t.left, l') && Improves(p, t.right, r')
    ensures Improves(p, t, Branch(t.id, l', r'))
  {
    FrontierOfPart(p, p.op[t.id], t.left, l');
    FrontierOfPart(p, p.op[t.id], t.right, r');
    BranchImproved(p, t, l', r');
    hide Frontier, Eval, Latency, Ids;
    assert Frontier(p, p.op[t.id], t) == Frontier(p, p.op[t.id], t.left) + Frontier(p, p.op[t.id], t.right) by {
      FrontierOfBranch(p, t);
    }
    FrontierOfBranch(p, Branch(t.id, l', r'));
  }

  lemma BranchImproved(p: Program, t: Tree, l': Tree, r': Tree)
    requires Legal(p) && InRange(p, t) && t.Branch? && Improves(p, t.left, l') && Improves(p, t.right, r')
    ensures var t' := Branch(t.id, l', r');
      InRange(p, t') && Ids(t') == Ids(t) && Eval(p, t') == Eval(p, t) && Latency(p, t') <= Latency(p, t)
  {
    hide Frontier;
  }

  lemma FrontierOfPart(p: Program, o: Op, t: Tree, t': Tree)
    requires Legal(p) && InRange(p, t) && Improves(p, t, t')
    ensures Frontier(p, o, t') == Frontier(p, o, t)
  {
  }

  lemma FrontierOfBranch(p: Program, t: Tree)
    requires InRange(p, t) && t.Branch?
    ensures Frontier(p, p.op[t.id], t) == Frontier(p, p.op[t.id], t.left) + Frontier(p, p.op[t.id], t.right)
  {
  }

  /** The leaves carry no latency of their own. */
  ghost predicate Ready(h: seq<Cell>, t: Tree) {
    match t
    case Leaf(i) => i < |h| && h[i].latency == 0.0 && h[i].cost == 0
    case Branch(_, l, r) => Ready(h, l) && Ready(h, r)
  }

  /** Memory outside `b` has not changed. */
  lemma {:induction false} TreeOutside(p: Program, h: seq<Cell>, h': seq<Cell>, b: multiset<nat>, t: Tree)
    requires Legal(p) && InRange(p, t) && Holds(h, t) && SameOutside(h, h', b)
    requires forall x :: x in Ids(t) ==> x !in b
    ensures Holds(h', t) && h'[t.id] == h[t.id]
    ensures Timed(p, h, t) ==> Timed(p, h', t)
    ensures Ready(h, t) ==> Ready(h', t)
  {
    RootInIds(t);
    hide Ids, Latency, Cost;
    if t.Branch? {
      IdsOfParts(t);
      TreeOutside(p, h, h', b, t.left);
      TreeOutside(p, h, h', b, t.right);
    }
  }

  lemma SidesApart(t: Tree)
    requires t.Branch? && Simple(Ids(t))
    ensures forall x :: x in Ids(t.left) ==> x !in Ids(t.right)
    ensures t.id !in Ids(t.left) && t.id !in Ids(t.right)
  {
    hide Ids;
    forall x | x in Ids(t.left)
      ensures x !in Ids(t.right)
    {
      IdCount(t, x);
      assert Ids(t)[x] <= 1;
    }
    IdCount(t, t.id);
    assert Ids(t)[t.id] <= 1;
  }

  /** A subtree has been dealt with. */
  ghost predicate Reduced(p: Program, h: seq<Cell>, h': seq<Cell>, t: Tree, t': Tree)
    requires Legal(p) && InRange(p, t)
  {
    && Improves(p, t, t') && Holds(h', t') && Timed(p, h', t') && SameOutside(h, h', Ids(t))
    && t.id < |h| && h'[t.id].parent == h[t.id].parent
  }

  /** Both subtrees of `t` have been dealt with, first the left one. */
  lemma BothReduced(p: Program, h: seq<Cell>, h1: seq<Cell>, h2: seq<Cell>, t: Tree, l': Tree, r': Tree)
    requires Legal(p) && InRange(p, t) && t.Branch? && Holds(h, t) && Simple(Ids(t))
    requires |h| == |p.op| && h[t.id].parent < |h|
    requires Reduced(p, h, h1, t.left, l') && Reduced(p, h1, h2, t.right, r')
    ensures Source(p, h2, Branch(t.id, l', r'))
    ensures SameOutside(h, h2, Ids(t)) && h2[t.id] == h[t.id]
  {
    SidesApart(t);
    IdsOfParts(t);
    RootInIds(t.left);
    RootInIds(t.right);
    hide Ids, Improves, Timed, Holds, InRange;
    LeftStays(p, h1, h2, t, l', r');
    BothFrame(h, h1, h2, t);
    ChildLinks(p, h, t);
    ReducedFacts(p, h, h1, t.left, l');
    ReducedFacts(p, h1, h2, t.right, r');
    BranchHeld(p, h2, t, l', r');
  }

  lemma ChildLinks(p: Program, h: seq<Cell>, t: Tree)
    requires Holds(h, t) && t.Branch? && InRange(p, t)
    ensures t.id < |h| && t.left.id < |h| && t.right.id < |h| && 0 < t.id < |p.op|
    ensures h[t.id].left == t.left.id && h[t.id].right == t.right.id
    ensures h[t.left.id].parent == t.id && h[t.right.id].parent == t.id
    ensures InRange(p, t.left) && InRange(p, t.right)
  {
  }

  lemma ReducedFacts(p: Program, h: seq<Cell>, h': seq<Cell>, t: Tree, t': Tree)
    requires Legal(p) && InRange(p, t) && Reduced(p, h, h', t, t')
    ensures InRange(p, t') && t'.id == t.id && Holds(h', t') && Timed(p, h', t') && Ids(t') == Ids(t)
  {
  }

  /** The left subtree survives what happens to the right one. */
  lemma LeftStays(p: Program, h1: seq<Cell>, h2: seq<Cell>, t: Tree, l': Tree, r': Tree)
    requires Legal(p) && InRange(p, t) && t.Branch? && Simple(Ids(t)) && InRange(p, t.left) && InRange(p, t.right)
    requires Improves(p, t.left, l') && Holds(h1, l') && Timed(p, h1, l') && Reduced(p, h1, h2, t.right, r')
    ensures Holds(h2, l') && Timed(p, h2, l') && t.left.id < |h2| && t.left.id < |h1| && h2[t.left.id] == h1[t.left.id]
  {
    SidesApart(t);
    assert Ids(l') == Ids(t.left) && l'.id == t.left.id && InRange(p, l');
    hide Ids, Improves;
    TreeOutside(p, h1, h2, Ids(t.right), l');
  }

  lemma BothFrame(h: seq<Cell>, h1: seq<Cell>, h2: seq<Cell>, t: Tree)
    requires t.Branch? && Simple(Ids(t)) && t.id < |h|
    requires SameOutside(h, h1, Ids(t.left)) && SameOutside(h1, h2, Ids(t.right))
    ensures SameOutside(h, h2, Ids(t)) && h2[t.id] == h[t.id]
    ensures t.right.id < |h| ==> h1[t.right.id] == h[t.right.id]
  {
  }

  /** The two subtrees are below the root again. */
  lemma BranchHeld(p: Program, h: seq<Cell>, t: Tree, l: Tree, r: Tree)
    requires Legal(p) && t.Branch? && InRange(p, l) && InRange(p, r) && 0 < t.id < |p.op| == |h|
    requires Holds(h, l) && Holds(h, r) && Timed(p, h, l) && Timed(p, h, r)
    requires h[t.id].left == l.id && h[t.id].right == r.id && h[t.id].parent < |h|
    requires l.id < |h| && r.id < |h| && h[l.id].parent == t.id && h[r.id].parent == t.id
    ensures Source(p, h, Branch(t.id, l, r))
  {
  }

  /** A subtree that can be dealt with: its own nodes are fresh and distinct,
      and it hangs where `isLeft` says. */
  ghost predicate Reducible(p: Program, h: seq<Cell>, isLeft: bool, t: Tree) {
    && Legal(p) && InRange(p, t) && Holds(h, t) && |h| == |p.op| && Simple(Ids(t)) && Ready(h, t)
    && t.id < |h| && Hangs(h, isLeft, t)
  }

  ghost predicate Hangs(h: seq<Cell>, isLeft: bool, t: Tree)
    requires t.id < |h|
  {
    var p := h[t.id].parent;
    p < |h| && (p != 0 ==> p !in Ids(t) && t.id == if isLeft then h[p].left else h[p].right)
  }

  lemma LeftReducible(p: Program, h: seq<Cell>, isLeft: bool, t: Tree)
    requires Reducible(p, h, isLeft, t) && t.Branch?
    ensures Reducible(p, h, true, t.left)
    ensures ConsideredLeaf(p, h, t.left.id) <==> !(t.left.Branch? && p.op[t.left.id] == p.op[t.id])
  {
    SidesApart(t);
    SimpleParts(t);
    hide Ids, Simple;
    assert Holds(h, t.left) && Ready(h, t.left) && Hangs(h, true, t.left);
    HeldLeaf(h, t.left);
  }

  lemma RightReducible(p: Program, h: seq<Cell>, h1: seq<Cell>, isLeft: bool, t: Tree, l': Tree)
    requires Reducible(p, h, isLeft, t) && t.Branch? && Reduced(p, h, h1, t.left, l')
    ensures Reducible(p, h1, false, t.right) && h1[t.id] == h[t.id]
    ensures ConsideredLeaf(p, h1, t.right.id) <==> !(t.right.Branch? && p.op[t.right.id] == p.op[t.id])
  {
    SidesApart(t);
    SimpleParts(t);
    hide Ids, Simple, Improves, Timed;
    TreeOutside(p, h, h1, Ids(t.left), t.right);
    HeldLeaf(h1, t.right);
  }

  lemma LeafReduced(p: Program, h: seq<Cell>, isLeft: bool, t: Tree)
    requires Reducible(p, h, isLeft, t) && t.Leaf?
    ensures Reduced(p, h, h, t, t) && Settled(p, t, true)
  {
  }

  lemma KindByIds(a: Tree, b: Tree)
    requires Ids(a) == Ids(b)
    ensures a.Branch? == b.Branch?
  {
  }

  lemma RegionFacts(p: Program, h: seq<Cell>, t: Tree, mid: Tree, leaves: seq<nat>, r: seq<nat>, f: seq<Tree>)
    requires Legal(p) && InRange(p, t) && Improves(p, t, mid)
    requires Building(p, h, p.op[t.id], leaves, r, f, KeptOf(p, p.op[t.id], mid)) && (r == [] ==> f == [mid])
    ensures r == [] ==> leaves != [] && leaves[0] == t.id
    ensures KeptOf(p, p.op[t.id], mid).ids == Ids(mid)
  {
  }

  lemma ImprovedIds(p: Program, t: Tree, t': Tree)
    requires Legal(p) && InRange(p, t) && Improves(p, t, t')
    ensures Ids(t') == Ids(t) && t'.id == t.id && InRange(p, t')
  {
  }

  /** Hanging node `n` where it hangs already changes nothing. */
  lemma HungAlready(h: seq<Cell>, h2: seq<Cell>, h3: seq<Cell>, b: multiset<nat>, isLeft: bool, t: Tree)
    requires t.id < |h| && Hangs(h, isLeft, t) && b == Ids(t) && SameOutside(h, h2, b) && SameOutside(h2, h3, b)
    requires h2[t.id] == h[t.id] && h3[t.id].parent == h2[t.id].parent
    ensures var p := h2[t.id].parent;
      && p < |h3| && h3[t.id := h3[t.id].(parent := p)] == h3
      && (p != 0 && isLeft ==> h3[p := h3[p].(left := t.id)] == h3)
      && (p != 0 && !isLeft ==> h3[p := h3[p].(right := t.id)] == h3)
  {
  }

  /** The region at the top has been rebuilt after both subtrees. */
  lemma RegionReduced(p: Program, t: Tree, mid: Tree, t': Tree, optimal: bool)
    requires Legal(p) && InRange(p, t) && Improves(p, t, mid) && t'.id == t.id && InRange(p, t')
    requires Assembled(p, p.op[t.id], [t'], [], KeptOf(p, p.op[t.id], mid))
    requires !optimal ==> t' == mid
    requires RegionSettled(p, p.op[t.id], mid) && (!optimal ==> PartSettled(p, mid))
    requires optimal ==> NoWorse(Delay(p, p.op[t.id]), Times(ShapeOf(p, p.op[t.id], mid)), multiset{Latency(p, t')})
    ensures Improves(p, t, t') && Settled(p, t', !optimal)
  {
    var o := p.op[t.id];
    hide RegionSettled, PartSettled, InRange, Eval, Latency, Frontier, Parts, ShapeOf, Times, Assembled, NoWorse, Delay, Ids, Optimal;
    if optimal {
      RegionRebuilt(p, o, mid, t');
      SettledStays(p, o, mid, t');
      KindByIds(mid, t');
    }
  }

  // Breadth-first walks.

  lemma WalkStart(h: seq<Cell>, n: nat, t: Tree)
    requires Holds(h, t) && t.id == n
    ensures Names([n][0..], [t]) && AllHold(h, [t])
  {
  }

  /** The list of nodes after the next visit. */
  lemma WalkNext(h: seq<Cell>, nodes: seq<nat>, i: nat, q: seq<Tree>)
    requires i < |nodes| && Names(nodes[i..], q) && AllHold(h, q)
    ensures q != [] && nodes[i] == q[0].id < |h| && AllHold(h, Next(q))
    ensures Names((nodes + KidIds(h[nodes[i]]))[i + 1..], Next(q))
  {
    assert nodes[i..][0] == nodes[i] && Holds(h, q[0]);
    HeldLeaf(h, q[0]);
    var kids := KidIds(h[nodes[i]]);
    assert nodes[i..][1..] == nodes[i + 1..] && (nodes + kids)[i + 1..] == nodes[i + 1..] + kids;
    ChildrenNamed(h, q[0]);
    hide Holds, KidIds;
  }

  /** The children that a cell points to. */
  function KidIds(c: Cell): (r: seq<nat>) {
    if c.left != 0 && c.right != 0 then [c.left, c.right]
    else if c.left != 0 then [c.left]
    else if c.right != 0 then [c.right]
    else []
  }

  lemma ChildrenNamed(h: seq<Cell>, t: Tree)
    requires Holds(h, t)
    ensures AllHold(h, Children(t)) && Names(KidIds(h[t.id]), Children(t))
  {
    if t.Branch? {
      assert Children(t) == [t.left, t.right] && KidIds(h[t.id]) == [t.left.id, t.right.id];
      hide Holds;
    }
  }

  // Latencies from the bottom up.

  /** A stored part of `t` without repeated nodes. */
  ghost predicate Piece(p: Program, h: seq<Cell>, t: Tree, c: Tree) {
    Holds(h, c) && InRange(p, c) && Simple(Ids(c)) && forall x :: x in Ids(c) ==> x in Ids(t)
  }

  lemma PieceParts(p: Program, h: seq<Cell>, t: Tree, c: Tree)
    requires Piece(p, h, t, c) && c.Branch?
    ensures Piece(p, h, t, c.left) && Piece(p, h, t, c.right)
    ensures c.left.id != c.id && c.right.id != c.id
  {
    hide Ids;
    SimpleParts(c);
  }

  lemma {:induction false} QueuePieces(p: Program, h: seq<Cell>, t: Tree, k: nat)
    requires Piece(p, h, t, t)
    ensures forall i :: 0 <= i < |QueueAt(t, k)| ==> Piece(p, h, t, QueueAt(t, k)[i])
  {
    hide Piece;
    if k > 0 {
      QueuePieces(p, h, t, k - 1);
      var q := QueueAt(t, k - 1);
      if q != [] && q[0].Branch? {
        PieceParts(p, h, t, q[0]);
      }
    }
  }

  /** The nodes after the first `k` of the walk are up to date. */
  ghost predicate Walking(p: Program, h0: seq<Cell>, h: seq<Cell>, t: Tree, k: nat) {
    && Legal(p) && |h| == |p.op| && Piece(p, h, t, t) && Retimed(h0, h, Ids(t))
    && AllInRange(p, QueueAt(t, k)) && AllTimed(p, h, QueueAt(t, k))
  }

  lemma WalkNode(p: Program, h0: seq<Cell>, h: seq<Cell>, t: Tree, k: nat)
    requires Walking(p, h0, h, t, k + 1) && QueueAt(t, k) != []
    ensures Piece(p, h, t, QueueAt(t, k)[0])
    ensures var c := QueueAt(t, k)[0];
      c.Branch? ==> Timed(p, h, c.left) && Timed(p, h, c.right) && c.left.id != c.id && c.right.id != c.id
  {
    hide Piece, Timed, InRange, Retimed, Ids;
    QueuePieces(p, h, t, k);
    var q := QueueAt(t, k);
    var c := q[0];
    assert QueueAt(t, k + 1) == q[1..] + Children(c);
    if c.Branch? {
      var q' := QueueAt(t, k + 1);
      assert q'[|q| - 1] == c.left && q'[|q|] == c.right;
      PieceParts(p, h, t, c);
    }
  }

  lemma WalkBegin(p: Program, h: seq<Cell>, t: Tree, nodes: seq<nat>)
    requires Legal(p) && InRange(p, t) && Holds(h, t) && |h| == |p.op| && Simple(Ids(t)) && WalkOf(nodes, t)
    ensures Walking(p, h, h, t, |nodes|)
  {
  }

  lemma WalkPiece(p: Program, h0: seq<Cell>, h: seq<Cell>, t: Tree, k: nat, c: Tree)
    requires Walking(p, h0, h, t, k) && Piece(p, h, t, c)
    ensures Legal(p) && |h| == |p.op| && InRange(p, c) && Holds(h, c) && c.id < |h|
  {
  }

  lemma WalkOver(p: Program, h0: seq<Cell>, h: seq<Cell>, t: Tree)
    requires Walking(p, h0, h, t, 0)
    ensures Legal(p) && InRange(p, t) && Retimed(h0, h, Ids(t)) && Holds(h, t) && Timed(p, h, t)
  {
    assert QueueAt(t, 0) == [t] && [t][0] == t;
  }

  /** The cells after the update of tree `c`'s root. */
  ghost predicate Updated(p: Program, h: seq<Cell>, h': seq<Cell>, c: Tree) {
    && Legal(p) && InRange(p, c) && c.id < |h|
    && h' == h[c.id := h[c.id].(latency := Latency(p, c), cost := Cost(p, c))]
  }

  lemma WalkStep(p: Program, h0: seq<Cell>, h: seq<Cell>, h': seq<Cell>, t: Tree, k: nat)
    requires Walking(p, h0, h, t, k + 1) && QueueAt(t, k) != [] && Updated(p, h, h', QueueAt(t, k)[0])
    ensures Walking(p, h0, h', t, k)
  {
    hide Piece, Timed, Retimed, Ids, Updated, QueueAt, InRange;
    QueuePieces(p, h, t, k);
    var q := QueueAt(t, k);
    forall i | 0 <= i < |q|
      ensures InRange(p, q[i]) && Timed(p, h', q[i])
    {
      assert Piece(p, h, t, q[i]);
      WalkTimed(p, h0, h, h', t, k, i);
    }
    WalkFrame(p, h0, h, h', t, q[0]);
  }

  lemma WalkTimed(p: Program, h0: seq<Cell>, h: seq<Cell>, h': seq<Cell>, t: Tree, k: nat, i: nat)
    requires Walking(p, h0, h, t, k + 1) && i < |QueueAt(t, k)| && Updated(p, h, h', QueueAt(t, k)[0])
    requires Piece(p, h, t, QueueAt(t, k)[i])
    ensures InRange(p, QueueAt(t, k)[i]) && Timed(p, h', QueueAt(t, k)[i])
  {
    hide Retimed, Ids, Latency, Cost;
    var q := QueueAt(t, k);
    var c := q[0];
    WalkNode(p, h0, h, t, k);
    if i > 0 {
      assert QueueAt(t, k + 1)[i - 1] == q[i];
      TimedWrite(p, h, h', q[i], c);
    } else if c.Branch? {
      TimedWrite(p, h, h', c.left, c);
      TimedWrite(p, h, h', c.right, c);
    }
  }

  lemma WalkFrame(p: Program, h0: seq<Cell>, h: seq<Cell>, h': seq<Cell>, t: Tree, c: Tree)
    requires Piece(p, h, t, t) && Retimed(h0, h, Ids(t)) && Updated(p, h, h', c) && Piece(p, h, t, c)
    ensures Retimed(h0, h', Ids(t)) && Piece(p, h', t, t) && |h'| == |h|
  {
    RootInIds(c);
    hide Ids, Latency, Cost;
    forall i | 0 <= i < |h|
      ensures RetimedAt(h0, h', Ids(t), i) && RetimedAt(h, h', Ids(t), i)
    {
      assert RetimedAt(h0, h, Ids(t), i);
    }
    HoldsRetimed(h, h', Ids(t), t);
  }
}
