/** A region that is not rebuilt because its head is below another operator,
    and would finish earlier if it were. */
module TreeLimits {
  import opened LatencyShapes
  import opened OperatorTree
  import opened TreeMemory
  import opened TreeCollecting
  import opened TreeRebuilding

  /** Node 1 multiplies, nodes 2 to 4 add, the others are leaves; every
      operation takes one unit of time. */
  const SLOW: Program := Program([Mul, Mul, Add, Add, Add, Mul, Mul, Mul, Mul, Mul], [0, 0, 0, 0, 0, 0, 0, 0, 0, 0], 2, 1.0, 1.0)

  /** ((5 + 6) + 7) + 8, a chain of additions. */
  const CHAIN: Tree := Branch(2, Branch(3, Branch(4, Tree.Leaf(5), Tree.Leaf(6)), Tree.Leaf(7)), Tree.Leaf(8))

  /** 9 * CHAIN. */
  const PRODUCT: Tree := Branch(1, Tree.Leaf(9), CHAIN)

  ghost function Branches(t: Tree): (k: nat)
    ensures k == 0 <==> t.Leaf?
  {
    if t.Branch? then 1 + Branches(t.left) + Branches(t.right) else 0
  }

  lemma {:induction false} SizeOfTree(t: Tree)
    ensures |Ids(t)| == 2 * Branches(t) + 1
  {
    if t.Branch? {
      SizeOfTree(t.left);
      SizeOfTree(t.right);
    }
  }

  lemma Sides(l: Tree) returns (c: Tree, e: Tree)
    requires l.Branch? && |Ids(l)| == 5
    ensures c.Branch? && c.left.Leaf? && c.right.Leaf? && e.Leaf?
    ensures (l.left == c && l.right == e) || (l.left == e && l.right == c)
  {
    SizeOfTree(l);
    c, e := if l.left.Branch? then l.left else l.right, if l.left.Branch? then l.right else l.left;
  }

  /** Two additions of three leaves make a chain, whichever is the outer one. */
  lemma StaysChain(p: Program, l: Tree)
    requires Legal(p) && InRange(p, l) && l.Branch? && p.op[l.id] == Add
    requires |Ids(l)| == 5 && |Frontier(p, Add, l)| == 3
    ensures Latency(p, l) == p.latAdd + p.latAdd && Times(ShapeOf(p, Add, l)) == multiset{0.0, 0.0, 0.0}
  {
    hide InRange, Ids;
    var c, e := Sides(l);
    assert InRange(p, c) && InRange(p, e) by { PartsInRange(p, l); }
    InnerAddition(p, l, c, e);
    ChainParts(p, c, e);
    if l.left == e {
      assert Latency(p, l) == Max(Latency(p, e), Latency(p, c)) + p.latAdd;
      assert ShapeOf(p, Add, l) == Join(ShapeOf(p, Add, e), ShapeOf(p, Add, c));
    } else {
      assert Latency(p, l) == Max(Latency(p, c), Latency(p, e)) + p.latAdd;
      assert ShapeOf(p, Add, l) == Join(ShapeOf(p, Add, c), ShapeOf(p, Add, e));
    }
  }

  lemma PartsInRange(p: Program, t: Tree)
    requires InRange(p, t) && t.Branch?
    ensures InRange(p, t.left) && InRange(p, t.right) && t.id < |p.op|
  {
  }

  lemma ChainParts(p: Program, c: Tree, e: Tree)
    requires Legal(p) && InRange(p, c) && InRange(p, e)
    requires c.Branch? && c.left.Leaf? && c.right.Leaf? && e.Leaf? && p.op[c.id] == Add
    ensures Latency(p, c) == p.latAdd && Latency(p, e) == 0.0
    ensures Times(ShapeOf(p, Add, c)) == multiset{0.0, 0.0} && Times(ShapeOf(p, Add, e)) == multiset{0.0}
  {
    assert ShapeOf(p, Add, c) == Join(ShapeOf(p, Add, c.left), ShapeOf(p, Add, c.right));
  }

  lemma InnerAddition(p: Program, l: Tree, c: Tree, e: Tree)
    requires InRange(p, l) && l.Branch? && p.op[l.id] == Add && |Frontier(p, Add, l)| == 3
    requires c.Branch? && c.left.Leaf? && c.right.Leaf? && e.Leaf?
    requires (l.left == c && l.right == e) || (l.left == e && l.right == c)
    ensures p.op[c.id] == Add
  {
    PartsInRange(p, l);
    hide InRange;
    assert |Frontier(p, Add, l)| == |Frontier(p, Add, c)| + |Frontier(p, Add, e)|;
    assert Frontier(p, Add, e) == multiset{e.id};
    var f := Frontier(p, Add, c);
    assert p.op[c.id] == Add || f == multiset{c.id};
  }

  lemma ChainLegal()
    ensures Legal(SLOW) && InRange(SLOW, CHAIN)
    ensures |Ids(CHAIN.left)| == 5 && |Frontier(SLOW, Add, CHAIN.left)| == 3
  {
  }

  lemma ChainEnds(h: seq<Cell>)
    requires |h| == |SLOW.op| && Holds(h, PRODUCT)
    ensures h[CHAIN.id].parent == 1 && ConsideredLeaf(SLOW, h, CHAIN.id)
  {
  }

  /** The chain ends a region wherever its product is held, and is not optimal
      after its two sides have been improved in any way. */
  lemma ChainNotOptimal(h: seq<Cell>, t: Tree)
    requires |h| == |SLOW.op| && Holds(h, PRODUCT)
    requires Legal(SLOW) && InRange(SLOW, CHAIN) && t.Branch? && t == Branch(CHAIN.id, t.left, t.right)
    requires Improves(SLOW, CHAIN.left, t.left) && Improves(SLOW, CHAIN.right, t.right)
    ensures h[CHAIN.id].parent < |h| && ConsideredLeaf(SLOW, h, CHAIN.id)
    ensures InRange(SLOW, t) && !Optimal(SLOW, Add, t)
  {
    ChainEnds(h);
    ChainLegal();
    hide Optimal;
    StaysChain(SLOW, t.left);
    ChainLate(SLOW, t);
  }

  lemma ChainLate(p: Program, t: Tree)
    requires Legal(p) && InRange(p, t) && t.Branch? && p.op[t.id] == Add && t.right.Leaf? && p.latAdd > 0.0
    requires Latency(p, t.left) == p.latAdd + p.latAdd && Times(ShapeOf(p, Add, t.left)) == multiset{0.0, 0.0, 0.0}
    ensures !Optimal(p, Add, t)
  {
    PartsInRange(p, t);
    TimesOfFour(p, t);
    Balanced(p.latAdd);
    hide InRange, Times, ShapeOf;
    var d := p.latAdd;
    assert Times(FOUR) == Times(ShapeOf(p, Add, t)) && Finish(FOUR, d) == d + d;
    assert Latency(p, t) == Max(Latency(p, t.left), Latency(p, t.right)) + d && Latency(p, t.right) == 0.0;
  }

  const TWO: Shape := Join(Shape.Leaf(0.0), Shape.Leaf(0.0))
  const FOUR: Shape := Join(TWO, TWO)

  lemma Balanced(d: real)
    requires d > 0.0
    ensures Times(FOUR) == multiset{0.0, 0.0, 0.0, 0.0} && Finish(FOUR, d) == d + d
  {
    assert Times(TWO) == multiset{0.0, 0.0} && Finish(TWO, d) == d;
  }

  lemma TimesOfFour(p: Program, t: Tree)
    requires Legal(p) && InRange(p, t) && t.Branch? && p.op[t.id] == Add && t.right.Leaf?
    requires Times(ShapeOf(p, Add, t.left)) == multiset{0.0, 0.0, 0.0}
    ensures Times(ShapeOf(p, Add, t)) == multiset{0.0, 0.0, 0.0, 0.0}
  {
    PartsInRange(p, t);
    hide InRange;
    assert ShapeOf(p, Add, t.right) == Shape.Leaf(0.0);
    assert ShapeOf(p, Add, t) == Join(ShapeOf(p, Add, t.left), ShapeOf(p, Add, t.right));
  }
}
