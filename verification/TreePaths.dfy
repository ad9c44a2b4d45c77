/** Latency and cost of a tree, counted along its paths and over its nodes. */
module TreePaths {
  import opened OperatorTree
  import opened TreeMemory

  /** Turns, left or right, from the root to a leaf. */
  ghost predicate IsWay(t: Tree, w: seq<bool>) {
    if t.Leaf? then w == [] else w != [] && IsWay(if w[0] then t.left else t.right, w[1..])
  }

  /** How many nodes of operator `o` are on the way. */
  ghost function OnWay(p: Program, t: Tree, w: seq<bool>, o: Op): nat
    requires InRange(p, t) && IsWay(t, w)
  {
    if t.Leaf? then 0
    else (if p.op[t.id] == o then 1 else 0) + OnWay(p, if w[0] then t.left else t.right, w[1..], o)
  }

  ghost function WayTime(p: Program, t: Tree, w: seq<bool>): real
    requires InRange(p, t) && IsWay(t, w)
  {
    OnWay(p, t, w, Add) as real * p.latAdd + OnWay(p, t, w, Mul) as real * p.latMul
  }

  /** Time `d` is that of a longest way. */
  ghost predicate IsLongest(p: Program, t: Tree, d: real)
    requires InRange(p, t)
  {
    && (forall w :: IsWay(t, w) ==> WayTime(p, t, w) <= d)
    && (exists w :: IsWay(t, w) && WayTime(p, t, w) == d)
  }

  lemma OneMoreTime(k: nat, d: real)
    ensures (k + 1) as real * d == k as real * d + d
  {
  }

  /** A way of a branch begins with one of its sides. */
  lemma WayStep(p: Program, t: Tree, w: seq<bool>)
    requires InRange(p, t) && t.Branch? && IsWay(t, w)
    ensures var c := if w[0] then t.left else t.right;
      IsWay(c, w[1..]) && WayTime(p, t, w) == WayTime(p, c, w[1..]) + if p.op[t.id] == Add then p.latAdd else p.latMul
  {
    var c := if w[0] then t.left else t.right;
    OneMoreTime(OnWay(p, c, w[1..], Add), p.latAdd);
    OneMoreTime(OnWay(p, c, w[1..], Mul), p.latMul);
  }

  /** The latency of a tree is the time of its longest way. */
  lemma {:induction false} LatencyIsLongest(p: Program, t: Tree)
    requires Legal(p) && InRange(p, t)
    ensures IsLongest(p, t, Latency(p, t))
  {
    if t.Leaf? {
      assert IsWay(t, []);
    } else {
      LatencyIsLongest(p, t.left);
      LatencyIsLongest(p, t.right);
      forall w | IsWay(t, w)
        ensures WayTime(p, t, w) <= Latency(p, t)
      {
        WayStep(p, t, w);
      }
      var left := Latency(p, t.left) >= Latency(p, t.right);
      var c := if left then t.left else t.right;
      var v :| IsWay(c, v) && WayTime(p, c, v) == Latency(p, c);
      var w := [left] + v;
      assert w[1..] == v;
      WayStep(p, t, w);
    }
  }

  /** How many nodes of operator `o` a tree has. */
  ghost function Count(p: Program, t: Tree, o: Op): nat
    requires InRange(p, t)
  {
    if t.Leaf? then 0
    else (if p.op[t.id] == o then 1 else 0) + Count(p, t.left, o) + Count(p, t.right, o)
  }

  /** What is stored at the root of a tree. */
  lemma TimesCounted(p: Program, h: seq<Cell>, t: Tree)
    requires Legal(p) && InRange(p, t) && Timed(p, h, t)
    ensures t.id < |h| && IsLongest(p, t, h[t.id].latency)
    ensures h[t.id].cost == Count(p, t, Add) * p.latAdd.Floor + Count(p, t, Mul) * p.latMul.Floor
  {
    hide IsLongest, Count, InRange, Latency, Cost;
    TimedRoot(p, h, t);
    LatencyIsLongest(p, t);
    CostIsSum(p, t);
  }

  lemma Distribute(a: nat, b: nat, f: int)
    ensures (a + b) * f == a * f + b * f && (1 + a + b) * f == f + a * f + b * f
  {
  }

  lemma CostStep(p: Program, t: Tree)
    requires Legal(p) && InRange(p, t) && t.Branch?
    ensures Cost(p, t) == Cost(p, t.left) + Cost(p, t.right) + (if p.op[t.id] == Add then p.latAdd else p.latMul).Floor
  {
    CostNotNegative(p, t.left);
    CostNotNegative(p, t.right);
    var s, d := Cost(p, t.left) + Cost(p, t.right), if p.op[t.id] == Add then p.latAdd else p.latMul;
    assert (s as real + d).Floor == s + d.Floor;
  }

  /** The cost of a tree adds up its operators' latencies without fractions. */
  lemma {:induction false} CostIsSum(p: Program, t: Tree)
    requires Legal(p) && InRange(p, t)
    ensures Cost(p, t) == Count(p, t, Add) * p.latAdd.Floor + Count(p, t, Mul) * p.latMul.Floor
  {
    if t.Branch? {
      CostIsSum(p, t.left);
      CostIsSum(p, t.right);
      CostStep(p, t);
      hide Cost;
      Distribute(Count(p, t.left, Add), Count(p, t.right, Add), p.latAdd.Floor);
      Distribute(Count(p, t.left, Mul), Count(p, t.right, Mul), p.latMul.Floor);
    }
  }

  lemma {:induction false} CostNotNegative(p: Program, t: Tree)
    requires Legal(p) && InRange(p, t)
    ensures Cost(p, t) >= 0
  {
    if t.Branch? {
      CostNotNegative(p, t.left);
      CostNotNegative(p, t.right);
    }
  }
}
