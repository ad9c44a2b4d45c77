/** Operation trees: their value, their latency, and what is left of both when
    the trees are taken apart and put together again. */
module OperatorTree {
  import opened LatencyShapes

  datatype Op = Add | Mul

  /** What is fixed about the nodes: opcodes, the values of leaf operands
      (integers modulo 2^w), and how long each operation takes. */
  datatype Program = Program(op: seq<Op>, value: seq<int>, modulus: int, latAdd: real, latMul: real)

  ghost predicate Legal(p: Program) {
    |p.op| == |p.value| && 0 < p.modulus && 0.0 <= p.latAdd && 0.0 <= p.latMul
  }

  /** A full binary tree of node numbers. */
  datatype Tree = Leaf(id: nat) | Branch(id: nat, left: Tree, right: Tree)

  ghost predicate InRange(p: Program, t: Tree) {
    && 0 < t.id < |p.op|
    && (t.Branch? ==> InRange(p, t.left) && InRange(p, t.right))
  }

  function Apply(o: Op, x: int, y: int, m: int): (v: int)
    requires 0 < m
  {
    match o
    case Add => (x + y) % m
    case Mul => (x * y) % m
  }

  /** The value a tree computes. */
  ghost function Eval(p: Program, t: Tree): (v: int)
    requires Legal(p) && InRange(p, t)
    ensures 0 <= v < p.modulus
  {
    match t
    case Leaf(i) => p.value[i] % p.modulus
    case Branch(i, l, r) => Apply(p.op[i], Eval(p, l), Eval(p, r), p.modulus)
  }

  function Delay(p: Program, o: Op): (d: real) {
    match o
    case Add => p.latAdd
    case Mul => p.latMul
  }

  /** The latency of a tree whose leaves are available at once. */
  ghost function Latency(p: Program, t: Tree): (d: real)
    requires Legal(p) && InRange(p, t)
    ensures 0.0 <= d
  {
    match t
    case Leaf(_) => 0.0
    case Branch(i, l, r) => Max(Latency(p, l), Latency(p, r)) + Delay(p, p.op[i])
  }

  /** Conversion to an integer drops the fraction. */
  function Truncated(x: real): (i: int) {
    if x >= 0.0 then x.Floor else -(-x).Floor
  }

  /** The total cost of a tree, which breaks ties. */
  ghost function Cost(p: Program, t: Tree): (c: int)
    requires InRange(p, t)
  {
    match t
    case Leaf(_) => 0
    case Branch(i, l, r) => Truncated((Cost(p, l) + Cost(p, r)) as real + Delay(p, p.op[i]))
  }

  /** All node numbers of a tree, with multiplicity. */
  ghost function Ids(t: Tree): (b: multiset<nat>) {
    match t
    case Leaf(i) => multiset{i}
    case Branch(i, l, r) => multiset{i} + Ids(l) + Ids(r)
  }

  /** The nodes just below the region of operator `o` at the top of a tree. */
  ghost function Frontier(p: Program, o: Op, t: Tree): (b: multiset<nat>)
    requires InRange(p, t)
  {
    if t.Branch? && p.op[t.id] == o then Frontier(p, o, t.left) + Frontier(p, o, t.right)
    else multiset{t.id}
  }

  /** The trees just below that region. */
  ghost function Parts(p: Program, o: Op, t: Tree): (b: multiset<Tree>)
    requires InRange(p, t)
  {
    if t.Branch? && p.op[t.id] == o then Parts(p, o, t.left) + Parts(p, o, t.right)
    else multiset{t}
  }

  /** That region as a combination of what is below it. */
  ghost function ShapeOf(p: Program, o: Op, t: Tree): (s: Shape)
    requires Legal(p) && InRange(p, t)
  {
    if t.Branch? && p.op[t.id] == o then Join(ShapeOf(p, o, t.left), ShapeOf(p, o, t.right))
    else Shape.Leaf(Latency(p, t))
  }

  lemma {:induction false} ShapeFinishes(p: Program, o: Op, t: Tree)
    requires Legal(p) && InRange(p, t)
    ensures Finish(ShapeOf(p, o, t), Delay(p, o)) == Latency(p, t)
  {
    if t.Branch? && p.op[t.id] == o {
      ShapeFinishes(p, o, t.left);
      ShapeFinishes(p, o, t.right);
    }
  }

  // Forests, up to the order of their trees.

  /** What a list of trees amounts to: the sum and the product of their values,
      their node numbers, their latencies, and the trees that an operator's
      region reaches below them, with node numbers and latencies. */
  datatype Summary = Summary(
    sum: int, product: int, ids: multiset<nat>, times: multiset<real>, frontier: multiset<nat>, base: multiset<real>,
    parts: multiset<Tree>)

  ghost const NOTHING := Summary(0, 1, multiset{}, multiset{}, multiset{}, multiset{}, multiset{})

  ghost function Plus(a: Summary, b: Summary): Summary {
    Summary(a.sum + b.sum, a.product * b.product, a.ids + b.ids, a.times + b.times,
      a.frontier + b.frontier, a.base + b.base, a.parts + b.parts)
  }

  ghost function Single(p: Program, o: Op, t: Tree): Summary
    requires Legal(p) && InRange(p, t)
  {
    var v := Eval(p, t);
    Summary(v, v, Ids(t), multiset{Latency(p, t)}, Frontier(p, o, t), Times(ShapeOf(p, o, t)), Parts(p, o, t))
  }

  ghost predicate AllInRange(p: Program, f: seq<Tree>) {
    forall i :: 0 <= i < |f| ==> InRange(p, f[i])
  }

  ghost function Total(p: Program, o: Op, f: seq<Tree>): Summary
    requires Legal(p) && AllInRange(p, f)
  {
    if f == [] then NOTHING
    else Plus(Single(p, o, f[0]), Total(p, o, f[1..]))
  }

  lemma PlusAssociates(a: Summary, b: Summary, c: Summary)
    ensures Plus(Plus(a, b), c) == Plus(a, Plus(b, c))
  {
    assert a.product * b.product * c.product == a.product * (b.product * c.product);
  }

  lemma PlusNothing(a: Summary)
    ensures Plus(a, NOTHING) == a && Plus(NOTHING, a) == a
  {
  }

  lemma PlusCommutes(a: Summary, b: Summary)
    ensures Plus(a, b) == Plus(b, a)
  {
  }

  lemma {:induction false} TotalConcat(p: Program, o: Op, f: seq<Tree>, g: seq<Tree>)
    requires Legal(p) && AllInRange(p, f) && AllInRange(p, g)
    ensures AllInRange(p, f + g) && Total(p, o, f + g) == Plus(Total(p, o, f), Total(p, o, g))
  {
    hide InRange, Single, Plus;
    if f == [] {
      assert f + g == g;
      PlusNothing(Total(p, o, g));
    } else {
      TotalConcat(p, o, f[1..], g);
      assert (f + g)[1..] == f[1..] + g && (f + g)[0] == f[0];
      PlusAssociates(Single(p, o, f[0]), Total(p, o, f[1..]), Total(p, o, g));
    }
  }

  lemma TotalOne(p: Program, o: Op, t: Tree)
    requires Legal(p) && InRange(p, t)
    ensures AllInRange(p, [t]) && Total(p, o, [t]) == Single(p, o, t)
  {
    hide InRange, Single, Plus;
    assert [t][1..] == [];
    PlusNothing(Single(p, o, t));
  }

  /** Taking one tree to the front. */
  lemma TotalFront(p: Program, o: Op, f: seq<Tree>, k: nat)
    requires Legal(p) && AllInRange(p, f) && k < |f|
    ensures AllInRange(p, f[..k] + f[k + 1..])
    ensures Total(p, o, f) == Plus(Single(p, o, f[k]), Total(p, o, f[..k] + f[k + 1..]))
  {
    hide InRange, Single, Plus, Total;
    var a, b := f[..k], f[k + 1..];
    assert f == a + ([f[k]] + b);
    TotalOne(p, o, f[k]);
    TotalConcat(p, o, [f[k]], b);
    TotalConcat(p, o, a, [f[k]] + b);
    TotalConcat(p, o, a, b);
    var s, t, u := Single(p, o, f[k]), Total(p, o, a), Total(p, o, b);
    PlusAssociates(t, s, u);
    PlusCommutes(t, s);
    PlusAssociates(s, t, u);
  }

  lemma BagRest<T>(f: seq<T>, g: seq<T>, k: nat)
    requires f != [] && k < |g| && g[k] == f[0] && multiset(f) == multiset(g)
    ensures multiset(f[1..]) == multiset(g[..k] + g[k + 1..])
  {
    assert f == [f[0]] + f[1..] && g == g[..k] + [g[k]] + g[k + 1..];
    assert multiset(f[1..]) == multiset(f) - multiset{f[0]};
    assert multiset(g[..k] + g[k + 1..]) == multiset(g) - multiset{f[0]};
  }

  /** The order of the trees does not matter. */
  lemma {:induction false} TotalPermutes(p: Program, o: Op, f: seq<Tree>, g: seq<Tree>)
    requires Legal(p) && AllInRange(p, f) && multiset(f) == multiset(g)
    ensures AllInRange(p, g) && Total(p, o, g) == Total(p, o, f)
  {
    hide InRange, Single, Plus;
    forall i | 0 <= i < |g|
      ensures InRange(p, g[i])
    {
      assert g[i] in multiset(g);
    }
    if f == [] {
      assert |multiset(g)| == 0;
    } else {
      assert f[0] in multiset(g);
      var k :| 0 <= k < |g| && g[k] == f[0];
      BagRest(f, g, k);
      TotalFront(p, o, g, k);
      TotalPermutes(p, o, f[1..], g[..k] + g[k + 1..]);
    }
  }

  // Regions of one operator.

  /** The value of a list of trees combined by one operator. */
  ghost function Fold(o: Op, s: Summary, m: int): int
    requires 0 < m
  {
    match o
    case Add => s.sum % m
    case Mul => s.product % m
  }

  lemma Multiple(k: int, m: int)
    requires 0 < m
    ensures k >= 1 ==> k * m >= m
    ensures k <= -1 ==> k * m <= -m
  {
  }

  /** The remainder is the only one in range. */
  lemma ModUnique(x: int, q: int, r: int, m: int)
    requires 0 <= r < m && x == q * m + r
    ensures x % m == r
  {
    var k := q - x / m;
    assert x == (x / m) * m + x % m;
    assert k * m == q * m - (x / m) * m;
    Multiple(k, m);
  }

  lemma ModShift(x: int, k: int, m: int)
    requires 0 < m
    ensures (x + k * m) % m == x % m
  {
    assert x == (x / m) * m + x % m;
    assert x + k * m == (x / m + k) * m + x % m;
    ModUnique(x + k * m, x / m + k, x % m, m);
  }

  lemma ModAdd(x: int, s: int, m: int)
    requires 0 < m
    ensures (x % m + s) % m == (x + s) % m
  {
    ModShift(x % m + s, x / m, m);
  }

  lemma ModMul(x: int, s: int, m: int)
    requires 0 < m
    ensures ((x % m) * s) % m == (x * s) % m
  {
    var q := x / m;
    assert x == q * m + x % m;
    assert x * s == (x % m) * s + (q * s) * m;
    ModShift((x % m) * s, q * s, m);
  }

  lemma SplitIds(p: Program, o: Op, c: Tree, rest: Summary)
    requires Legal(p) && InRange(p, c) && c.Branch? && p.op[c.id] == o
    ensures var a, b := Plus(Single(p, o, c), rest), Plus(Plus(Single(p, o, c.left), Single(p, o, c.right)), rest);
      a.ids == b.ids + multiset{c.id} && a.frontier == b.frontier && a.base == b.base && a.parts == b.parts
  {
    assert Ids(c) == multiset{c.id} + Ids(c.left) + Ids(c.right);
  }

  /** Taking a node of the region's operator apart, or putting it together,
      does not change the value of the whole. */
  lemma SplitKeepsValue(p: Program, o: Op, c: Tree, rest: Summary)
    requires Legal(p) && InRange(p, c) && c.Branch? && p.op[c.id] == o
    ensures Fold(o, Plus(Single(p, o, c), rest), p.modulus)
         == Fold(o, Plus(Plus(Single(p, o, c.left), Single(p, o, c.right)), rest), p.modulus)
  {
    hide Plus, Fold;
    FoldStep(o, Single(p, o, c), Single(p, o, c.left), Single(p, o, c.right), rest, p.modulus);
  }

  lemma FoldStep(o: Op, c: Summary, a: Summary, b: Summary, rest: Summary, m: int)
    requires 0 < m && a.sum == a.product && b.sum == b.product
    requires c.sum == c.product == Apply(o, a.sum, b.sum, m)
    ensures Fold(o, Plus(c, rest), m) == Fold(o, Plus(Plus(a, b), rest), m)
  {
    match o
    case Add => ModAdd(a.sum + b.sum, rest.sum, m);
    case Mul => ModMul(a.sum * b.sum, rest.product, m);
  }
}
