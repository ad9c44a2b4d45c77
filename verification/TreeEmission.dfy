/** The instructions emitted for an operation tree. */
module TreeEmission {
  import opened OperatorTree
  import opened TreeMemory

  /** An operand: a value that exists already, or a new instruction. */
  datatype Value = Use(id: nat) | Inst(op: Op, left: Value, right: Value)

  ghost predicate Usable(p: Program, v: Value) {
    match v
    case Use(i) => i < |p.op|
    case Inst(_, l, r) => Usable(p, l) && Usable(p, r)
  }

  ghost function Meaning(p: Program, v: Value): (x: int)
    requires Legal(p) && Usable(p, v)
  {
    match v
    case Use(i) => p.value[i] % p.modulus
    case Inst(o, l, r) => Apply(o, Meaning(p, l), Meaning(p, r), p.modulus)
  }

  /** What is emitted for a tree: the children in order, except that two
      branches come out of the queue the other way round. */
  ghost function Emitted(p: Program, t: Tree): (v: Value)
    requires InRange(p, t)
  {
    match t
    case Leaf(i) => Use(i)
    case Branch(i, l, r) =>
      if l.Branch? && r.Branch? then Inst(p.op[i], Emitted(p, r), Emitted(p, l))
      else Inst(p.op[i], Emitted(p, l), Emitted(p, r))
  }

  /** The operators are commutative, so the value is the tree's. */
  lemma {:induction false} EmittedMeaning(p: Program, t: Tree)
    requires Legal(p) && InRange(p, t)
    ensures Usable(p, Emitted(p, t)) && Meaning(p, Emitted(p, t)) == Eval(p, t)
  {
    if t.Branch? {
      EmittedMeaning(p, t.left);
      EmittedMeaning(p, t.right);
    }
  }

  /** The values of a list of trees, last first. */
  ghost function Waiting(p: Program, q: seq<Tree>): (s: seq<Value>)
    requires AllInRange(p, q)
    ensures |s| == |q|
  {
    if q == [] then [] else Waiting(p, q[1..]) + [Emitted(p, q[0])]
  }

  lemma {:induction false} WaitingConcat(p: Program, a: seq<Tree>, b: seq<Tree>)
    requires AllInRange(p, a) && AllInRange(p, b)
    ensures AllInRange(p, a + b) && Waiting(p, a + b) == Waiting(p, b) + Waiting(p, a)
  {
    hide InRange, Emitted;
    if a == [] {
      assert a + b == b;
    } else {
      WaitingConcat(p, a[1..], b);
      assert (a + b)[1..] == a[1..] + b;
    }
  }

  /** The operands that a branch takes from the front of the queue, and what
      it puts at the back. */
  lemma EmitStep(p: Program, q: seq<Tree>)
    requires AllInRange(p, q) && q != [] && q[0].Branch?
    ensures AllInRange(p, InnerNext(q)) && InRange(p, q[0].left) && InRange(p, q[0].right)
    ensures var l, r, w := q[0].left, q[0].right, Waiting(p, InnerNext(q));
      var k := (if l.Branch? then 1 else 0) + (if r.Branch? then 1 else 0);
      && k <= |w| && w[k..] + [Emitted(p, q[0])] == Waiting(p, q)
      && (l.Branch? && r.Branch? ==> w[0] == Emitted(p, r) && w[1] == Emitted(p, l))
      && (l.Branch? && r.Leaf? ==> w[0] == Emitted(p, l))
      && (l.Leaf? && r.Branch? ==> w[0] == Emitted(p, r))
  {
    var l, r := q[0].left, q[0].right;
    var kids := Inner(Children(q[0]));
    InnerChildren(q[0]);
    hide InRange, Emitted, Inner;
    KidsWaiting(p, l, r);
    assert InRange(p, q[0]);
    WaitingConcat(p, q[1..], kids);
  }

  lemma KidsWaiting(p: Program, l: Tree, r: Tree)
    requires InRange(p, l) && InRange(p, r)
    ensures var kids := (if l.Branch? then [l] else []) + (if r.Branch? then [r] else []);
      && AllInRange(p, kids)
      && Waiting(p, kids) == (if r.Branch? then [Emitted(p, r)] else []) + (if l.Branch? then [Emitted(p, l)] else [])
  {
  }

  lemma {:induction false} InnerInRange(p: Program, t: Tree, k: nat)
    requires InRange(p, t)
    ensures AllInRange(p, InnerQueueAt(t, k))
    ensures forall i :: 0 <= i < |InnerQueueAt(t, k)| ==> InnerQueueAt(t, k)[i].Branch?
  {
    if k > 0 {
      InnerInRange(p, t, k - 1);
      var q := InnerQueueAt(t, k - 1);
      if q != [] {
        assert InRange(p, q[0]);
        InnerChildren(q[0]);
      }
    } else {
      InnerOne(t);
    }
  }

  lemma {:induction false} QueueHolds(h: seq<Cell>, t: Tree, k: nat)
    requires Holds(h, t)
    ensures forall i :: 0 <= i < |QueueAt(t, k)| ==> Holds(h, QueueAt(t, k)[i])
  {
    if k > 0 {
      QueueHolds(h, t, k - 1);
      var q := QueueAt(t, k - 1);
      assert q != [] ==> Holds(h, q[0]);
    }
  }

  lemma {:induction false} InnerHolds(h: seq<Cell>, t: Tree, k: nat)
    requires Holds(h, t)
    ensures forall i :: 0 <= i < |InnerQueueAt(t, k)| ==> Holds(h, InnerQueueAt(t, k)[i])
  {
    if k > 0 {
      InnerHolds(h, t, k - 1);
      var q := InnerQueueAt(t, k - 1);
      if q != [] && q[0].Branch? {
        assert Holds(h, q[0]);
        InnerChildren(q[0]);
      }
    } else {
      InnerOne(t);
    }
  }

  lemma EmitBegin(p: Program, t: Tree, n: nat)
    requires InRange(p, t) && InnerQueueAt(t, n) == []
    ensures AllInRange(p, InnerQueueAt(t, n)) && Waiting(p, InnerQueueAt(t, n)) == []
  {
  }

  /** The branch that is emitted next. */
  lemma EmitNext(p: Program, h: seq<Cell>, t: Tree, k: nat, m: nat)
    requires InRange(p, t) && Holds(h, t) && InnerVisitedAt(t, k, m)
    ensures var q := InnerQueueAt(t, k);
      && q != [] && q[0].Branch? && q[0].id == m && AllInRange(p, q) && InRange(p, q[0]) && Holds(h, q[0])
      && InnerQueueAt(t, k + 1) == InnerNext(q) && AllInRange(p, InnerNext(q))
  {
    hide InRange, Holds;
    InnerInRange(p, t, k);
    InnerInRange(p, t, k + 1);
    InnerHolds(h, t, k);
  }

  lemma EmitEnd(p: Program, t: Tree)
    requires InRange(p, t) && t.Branch?
    ensures AllInRange(p, InnerQueueAt(t, 0)) && Waiting(p, InnerQueueAt(t, 0)) == [Emitted(p, t)]
  {
    hide InRange, Emitted;
    InnerOne(t);
    assert InnerQueueAt(t, 0) == [t] && [t][1..] == [];
  }

  // Erasing from a list while walking it.

  /** The same nodes follow. */
  ghost predicate SameRest(s: seq<nat>, i: nat, all: seq<nat>, k: nat) {
    i <= |s| && k <= |all| && s[i..] == all[k..]
  }

  lemma RestStart(s: seq<nat>)
    ensures SameRest(s, 0, s, 0)
  {
  }

  lemma RestEnd(s: seq<nat>, i: nat, all: seq<nat>, k: nat)
    requires SameRest(s, i, all, k)
    ensures i == |s| <==> k == |all|
  {
  }

  lemma EraseStep(s: seq<nat>, i: nat, all: seq<nat>, k: nat)
    requires SameRest(s, i, all, k) && i < |s|
    ensures k < |all| && s[i] == all[k] && SameRest(s, i + 1, all, k + 1) && SameRest(Erased(s, i), i, all, k + 1)
  {
  }

  lemma OnlyStart(t: Tree)
    ensures Inner(QueueAt(t, 0)) == InnerQueueAt(t, 0)
  {
  }

  lemma OnlyNode(h: seq<Cell>, t: Tree, k: nat, n: nat)
    requires Holds(h, t) && VisitedAt(t, k, n)
    ensures QueueAt(t, k) != [] && n == QueueAt(t, k)[0].id < |h|
    ensures QueueAt(t, k)[0].Branch? <==> h[n].left != 0
    ensures QueueAt(t, k)[0].Branch? <==> h[n].right != 0
  {
    QueueHolds(h, t, k);
    HeldLeaf(h, QueueAt(t, k)[0]);
  }

  lemma OnlyEnd(t: Tree, k: nat, i: nat)
    requires QueueAt(t, k) == [] && Inner(QueueAt(t, k)) == InnerQueueAt(t, i)
    ensures InnerQueueAt(t, i) == []
  {
  }
}
