/** Operation trees laid out in linked nodes, and breadth-first order. */
module TreeMemory {
  import opened LatencyShapes
  import opened OperatorTree

  /** The mutable part of a node; 0 stands for no node. */
  datatype Cell = Cell(parent: nat, left: nat, right: nat, latency: real, cost: int)

  /** The cells hold tree `t`: child pointers and the parent pointers of
      children agree with it. */
  ghost predicate Holds(h: seq<Cell>, t: Tree) {
    && 0 < t.id < |h|
    && match t
       case Leaf(i) => h[i].left == 0 && h[i].right == 0
       case Branch(i, l, r) =>
         && Holds(h, l) && Holds(h, r)
         && h[i].left == l.id && h[i].right == r.id
         && h[l.id].parent == i && h[r.id].parent == i
  }

  lemma HeldLeaf(h: seq<Cell>, t: Tree)
    requires Holds(h, t)
    ensures t.Leaf? <==> h[t.id].left == 0
    ensures t.Leaf? <==> h[t.id].right == 0
    ensures t.Branch? ==> h[t.id].left == t.left.id && h[t.id].right == t.right.id
  {
  }

  ghost predicate Simple(b: multiset<nat>) {
    forall i :: b[i] <= 1
  }

  /** A tree is determined by its root node. */
  lemma {:induction false} HoldsUnique(h: seq<Cell>, a: Tree, b: Tree)
    requires Holds(h, a) && Holds(h, b) && a.id == b.id
    ensures a == b
  {
    if a.Branch? {
      HoldsUnique(h, a.left, b.left);
      HoldsUnique(h, a.right, b.right);
    }
  }

  /** Cell `i` has the same pointers in both. */
  ghost predicate SameLinks(h: seq<Cell>, h': seq<Cell>, i: nat) {
    i < |h| == |h'| && h'[i].left == h[i].left && h'[i].right == h[i].right
  }

  /** A tree survives changes elsewhere, and to its root's parent pointer. */
  lemma {:induction false} HoldsFrame(h: seq<Cell>, h': seq<Cell>, t: Tree)
    requires Holds(h, t) && |h'| == |h|
    requires forall i :: i in Ids(t) ==> SameLinks(h, h', i)
    requires forall i :: i in Ids(t) && i != t.id ==> i < |h| && h'[i].parent == h[i].parent
    requires Simple(Ids(t))
    ensures Holds(h', t)
  {
    RootInIds(t);
    hide Ids;
    match t
    case Leaf(_) =>
    case Branch(i, l, r) =>
      SimpleParts(t);
      HoldsFrame(h, h', l);
      HoldsFrame(h, h', r);
  }

  lemma IdCount(t: Tree, i: nat)
    requires t.Branch?
    ensures Ids(t)[i] == (if i == t.id then 1 else 0) + Ids(t.left)[i] + Ids(t.right)[i]
  {
  }

  lemma RootInIds(t: Tree)
    ensures t.id in Ids(t)
  {
  }

  lemma IdsOfParts(t: Tree)
    requires t.Branch?
    ensures forall i :: i in Ids(t.left) || i in Ids(t.right) || i == t.id ==> i in Ids(t)
  {
  }

  lemma SimpleParts(t: Tree)
    requires t.Branch? && Simple(Ids(t))
    ensures Simple(Ids(t.left)) && Simple(Ids(t.right))
    ensures t.left.id in Ids(t.left) && t.right.id in Ids(t.right)
    ensures forall i :: i in Ids(t.left) || i in Ids(t.right) ==> i in Ids(t) && i != t.id
  {
    RootInIds(t.left);
    RootInIds(t.right);
    hide Ids;
    forall i: nat
      ensures Ids(t.left)[i] <= 1 && Ids(t.right)[i] <= 1
      ensures i in Ids(t.left) || i in Ids(t.right) ==> i in Ids(t) && i != t.id
    {
      IdCount(t, i);
      assert Ids(t)[i] <= 1;
    }
  }

  /** The stored latencies and costs of a whole tree are right. */
  ghost predicate Timed(p: Program, h: seq<Cell>, t: Tree)
    requires Legal(p) && InRange(p, t)
  {
    && t.id < |h| && h[t.id].latency == Latency(p, t) && h[t.id].cost == Cost(p, t)
    && (t.Branch? ==> Timed(p, h, t.left) && Timed(p, h, t.right))
  }

  lemma TimedRoot(p: Program, h: seq<Cell>, t: Tree)
    requires Legal(p) && InRange(p, t) && Timed(p, h, t)
    ensures t.id < |h| && h[t.id].latency == Latency(p, t) && h[t.id].cost == Cost(p, t)
  {
  }

  lemma {:induction false} TimedFrame(p: Program, h: seq<Cell>, h': seq<Cell>, t: Tree)
    requires Legal(p) && InRange(p, t) && Timed(p, h, t) && |h'| == |h|
    requires forall i :: i in Ids(t) ==> i < |h| && h'[i].latency == h[i].latency && h'[i].cost == h[i].cost
    ensures Timed(p, h', t)
  {
    RootInIds(t);
    hide Ids;
    if t.Branch? {
      IdsOfParts(t);
      TimedFrame(p, h, h', t.left);
      TimedFrame(p, h, h', t.right);
    }
  }

  /** Writing the right latency and cost into the root of one stored tree spoils none. */
  lemma {:induction false} TimedWrite(p: Program, h: seq<Cell>, h': seq<Cell>, t: Tree, c: Tree)
    requires Legal(p) && InRange(p, t) && InRange(p, c) && Holds(h, t) && Holds(h, c) && Timed(p, h, t)
    requires |h'| == |h| && h'[c.id].latency == Latency(p, c) && h'[c.id].cost == Cost(p, c)
    requires forall i :: 0 <= i < |h| && i != c.id ==> h'[i] == h[i]
    ensures Timed(p, h', t)
  {
    if t.id == c.id {
      HoldsUnique(h, t, c);
    }
    if t.Branch? {
      TimedWrite(p, h, h', t.left, c);
      TimedWrite(p, h, h', t.right, c);
    }
  }

  // Breadth-first order.

  function Children(t: Tree): (c: seq<Tree>) {
    match t
    case Leaf(_) => []
    case Branch(_, l, r) => [l, r]
  }

  function Size(t: Tree): (n: nat)
    ensures n >= 1
  {
    match t
    case Leaf(_) => 1
    case Branch(_, l, r) => 1 + Size(l) + Size(r)
  }

  function Sizes(q: seq<Tree>): (n: nat) {
    if q == [] then 0 else Size(q[0]) + Sizes(q[1..])
  }

  lemma {:induction false} SizesConcat(a: seq<Tree>, b: seq<Tree>)
    ensures Sizes(a + b) == Sizes(a) + Sizes(b)
  {
    if a == [] {
      assert a + b == b;
    } else {
      SizesConcat(a[1..], b);
      assert (a + b)[1..] == a[1..] + b;
    }
  }

  /** Visiting the first tree of a queue. */
  ghost function Next(q: seq<Tree>): (q': seq<Tree>)
    requires q != []
  {
    q[1..] + Children(q[0])
  }

  lemma SizesStep(q: seq<Tree>)
    requires q != []
    ensures Sizes(Next(q)) == Sizes(q) - 1
  {
    SizesConcat(q[1..], Children(q[0]));
    if q[0].Branch? {
      var l, r := q[0].left, q[0].right;
      assert [l, r] == [l] + [r];
      SizesConcat([l], [r]);
    }
  }

  /** The queue of a breadth-first walk of `t` after `k` visits. */
  ghost function QueueAt(t: Tree, k: nat): (q: seq<Tree>) {
    if k == 0 then [t] else
      var q := QueueAt(t, k - 1);
      if q == [] then [] else Next(q)
  }

  ghost predicate VisitedAt(t: Tree, k: nat, n: nat) {
    QueueAt(t, k) != [] && QueueAt(t, k)[0].id == n
  }

  /** `nodes` lists the walk of `t`. */
  ghost predicate WalkOf(nodes: seq<nat>, t: Tree) {
    && QueueAt(t, |nodes|) == []
    && forall k :: 0 <= k < |nodes| ==> VisitedAt(t, k, nodes[k])
  }

  function Erased(s: seq<nat>, i: nat): (r: seq<nat>)
    requires i < |s|
    ensures |r| == |s| - 1 && forall j :: 0 <= j < i ==> r[j] == s[j]
  {
    s[..i] + s[i + 1..]
  }

  // The same walk without the leaves.

  function Inner(q: seq<Tree>): (s: seq<Tree>) {
    if q == [] then [] else (if q[0].Branch? then [q[0]] else []) + Inner(q[1..])
  }

  lemma Associates<T>(a: seq<T>, b: seq<T>, c: seq<T>)
    ensures (a + b) + c == a + (b + c)
  {
  }

  lemma InnerStep(q: seq<Tree>)
    requires q != []
    ensures Inner(q) == (if q[0].Branch? then [q[0]] else []) + Inner(q[1..])
  {
  }

  lemma {:induction false} InnerConcat(a: seq<Tree>, b: seq<Tree>)
    ensures Inner(a + b) == Inner(a) + Inner(b)
  {
    if a == [] {
      assert a + b == b;
    } else {
      hide Inner;
      InnerConcat(a[1..], b);
      assert (a + b)[1..] == a[1..] + b && (a + b)[0] == a[0];
      InnerStep(a);
      InnerStep(a + b);
      Associates(if a[0].Branch? then [a[0]] else [], Inner(a[1..]), Inner(b));
    }
  }

  lemma InnerOne(t: Tree)
    ensures Inner([t]) == if t.Branch? then [t] else []
  {
  }

  lemma InnerChildren(c: Tree)
    requires c.Branch?
    ensures Inner(Children(c)) == (if c.left.Branch? then [c.left] else []) + (if c.right.Branch? then [c.right] else [])
  {
    InnerOne(c.left);
    InnerOne(c.right);
    InnerConcat([c.left], [c.right]);
    assert [c.left] + [c.right] == [c.left, c.right];
  }

  ghost function InnerNext(q: seq<Tree>): (q': seq<Tree>)
    requires q != []
  {
    q[1..] + Inner(Children(q[0]))
  }

  ghost function InnerQueueAt(t: Tree, k: nat): (q: seq<Tree>) {
    if k == 0 then Inner([t]) else
      var q := InnerQueueAt(t, k - 1);
      if q == [] then [] else InnerNext(q)
  }

  ghost predicate InnerVisitedAt(t: Tree, k: nat, n: nat) {
    InnerQueueAt(t, k) != [] && InnerQueueAt(t, k)[0].id == n
  }

  /** `nodes` lists the branches of `t` in the order of the walk. */
  ghost predicate InnerWalkOf(nodes: seq<nat>, t: Tree) {
    && InnerQueueAt(t, |nodes|) == []
    && forall k :: 0 <= k < |nodes| ==> InnerVisitedAt(t, k, nodes[k])
  }

  /** Leaving out the leaves of a queue commutes with visiting. */
  lemma InnerOfNext(q: seq<Tree>)
    requires q != []
    ensures Inner(Next(q)) == if q[0].Branch? then InnerNext(Inner(q)) else Inner(q)
  {
    InnerConcat(q[1..], Children(q[0]));
  }

  /** One step of the walk, seen with and without the leaves. */
  lemma OnlyStep(t: Tree, k: nat, i: nat)
    requires QueueAt(t, k) != [] && Inner(QueueAt(t, k)) == InnerQueueAt(t, i)
    ensures var c := QueueAt(t, k)[0];
      if c.Branch? then Inner(QueueAt(t, k + 1)) == InnerQueueAt(t, i + 1) && InnerVisitedAt(t, i, c.id)
      else Inner(QueueAt(t, k + 1)) == InnerQueueAt(t, i)
  {
    InnerOfNext(QueueAt(t, k));
  }
}
