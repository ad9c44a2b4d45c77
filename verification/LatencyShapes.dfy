/** Which binary tree over given leaf latencies finishes first: combining the
    two earliest leaves again and again is optimal. */
module LatencyShapes {

  /** A binary combination of leaves that become available at given times. */
  datatype Shape = Leaf(time: real) | Join(left: Shape, right: Shape)

  function Max(a: real, b: real): (m: real) {
    if a < b then b else a
  }

  /** When the root is available if each operator takes `d`. */
  function Finish(s: Shape, d: real): (t: real) {
    match s
    case Leaf(t) => t
    case Join(l, r) => Max(Finish(l, d), Finish(r, d)) + d
  }

  function Times(s: Shape): (m: multiset<real>)
    ensures |m| >= 1
  {
    match s
    case Leaf(t) => multiset{t}
    case Join(l, r) => Times(l) + Times(r)
  }

  function Min(a: real, b: real): (m: real) {
    if a < b then a else b
  }

  /** If the root is due at `end`, the deadline of its deepest leaves. */
  function Deadline(s: Shape, d: real, end: real): (t: real) {
    match s
    case Leaf(_) => end
    case Join(l, r) => Min(Deadline(l, d, end - d), Deadline(r, d, end - d))
  }

  /** Every leaf meets the deadline of its own place. */
  predicate Fits(s: Shape, d: real, end: real) {
    match s
    case Leaf(t) => t <= end
    case Join(l, r) => Fits(l, d, end - d) && Fits(r, d, end - d)
  }

  lemma {:induction false} FitsIsFinish(s: Shape, d: real, end: real)
    ensures Fits(s, d, end) <==> Finish(s, d) <= end
  {
    match s
    case Leaf(_) =>
    case Join(l, r) =>
      FitsIsFinish(l, d, end - d);
      FitsIsFinish(r, d, end - d);
  }

  // Replacing one leaf.

  function Put(s: Shape, v: real, w: real): (s': Shape) {
    match s
    case Leaf(t) => Leaf(w)
    case Join(l, r) => if v in Times(l) then Join(Put(l, v, w), r) else Join(l, Put(r, v, w))
  }

  function One(p: bool): (n: nat) {
    if p then 1 else 0
  }

  lemma {:induction false} PutTimes(s: Shape, v: real, w: real, q: real)
    requires v in Times(s)
    ensures Times(Put(s, v, w))[q] + One(q == v) == Times(s)[q] + One(q == w)
  {
    match s
    case Leaf(_) =>
    case Join(l, r) =>
      if v in Times(l) {
        PutTimes(l, v, w, q);
      } else {
        PutTimes(r, v, w, q);
      }
  }

  /** A leaf that meets the earliest deadline can take any leaf's place. */
  lemma {:induction false} PutFits(s: Shape, d: real, end: real, v: real, w: real)
    requires Fits(s, d, end) && w <= Deadline(s, d, end)
    ensures Fits(Put(s, v, w), d, end) && Deadline(Put(s, v, w), d, end) == Deadline(s, d, end)
  {
    match s
    case Leaf(_) =>
    case Join(l, r) =>
      if v in Times(l) {
        PutFits(l, d, end - d, v, w);
      } else {
        PutFits(r, d, end - d, v, w);
      }
  }

  // Replacing a deepest pair of sibling leaves.

  function Deep(s: Shape): (h: nat) {
    match s
    case Leaf(_) => 0
    case Join(l, r) => 1 + if Deep(l) < Deep(r) then Deep(r) else Deep(l)
  }

  function DeepPair(s: Shape): (p: (real, real))
    requires s.Join?
  {
    if s.left.Leaf? && s.right.Leaf? then (s.left.time, s.right.time)
    else if Deep(s.left) >= Deep(s.right) then DeepPair(s.left)
    else DeepPair(s.right)
  }

  function Cut(s: Shape, z: real): (s': Shape)
    requires s.Join?
  {
    if s.left.Leaf? && s.right.Leaf? then Leaf(z)
    else if Deep(s.left) >= Deep(s.right) then Join(Cut(s.left, z), s.right)
    else Join(s.left, Cut(s.right, z))
  }

  lemma {:induction false} CutTimes(s: Shape, z: real, q: real)
    requires s.Join?
    ensures One(q == DeepPair(s).0) + One(q == DeepPair(s).1) <= Times(s)[q]
    ensures Times(Cut(s, z))[q] + One(q == DeepPair(s).0) + One(q == DeepPair(s).1) == Times(s)[q] + One(q == z)
  {
    if s.left.Leaf? && s.right.Leaf? {
    } else if Deep(s.left) >= Deep(s.right) {
      CutTimes(s.left, z, q);
    } else {
      CutTimes(s.right, z, q);
    }
  }

  lemma {:induction false} DeeperIsEarlier(s: Shape, s': Shape, d: real, end: real)
    requires d >= 0.0 && Deep(s) >= Deep(s')
    ensures Deadline(s, d, end) <= Deadline(s', d, end) <= end
    decreases s, s'
  {
    if s.Join? {
      var a := if Deep(s.left) < Deep(s.right) then s.right else s.left;
      DeeperIsEarlier(a, if s'.Join? then s'.left else Leaf(0.0), d, end - d);
      DeeperIsEarlier(a, if s'.Join? then s'.right else Leaf(0.0), d, end - d);
    }
  }

  /** The pair meets the earliest deadline, and a leaf that is available when
      its operator is due can take its place. */
  lemma {:induction false} CutFits(s: Shape, d: real, end: real, z: real)
    requires d >= 0.0 && s.Join? && Fits(s, d, end)
    ensures DeepPair(s).0 <= Deadline(s, d, end) && DeepPair(s).1 <= Deadline(s, d, end)
    ensures z <= Deadline(s, d, end) + d ==> Fits(Cut(s, z), d, end) && Deadline(s, d, end) <= Deadline(Cut(s, z), d, end)
  {
    if s.left.Leaf? && s.right.Leaf? {
    } else if Deep(s.left) >= Deep(s.right) {
      DeeperIsEarlier(s.left, s.right, d, end - d);
      CutFits(s.left, d, end - d, z);
    } else {
      DeeperIsEarlier(s.right, s.left, d, end - d);
      CutFits(s.right, d, end - d, z);
    }
  }

  /** `a` and `b` are two least elements of `m`. */
  ghost predicate TwoLeast(m: multiset<real>, a: real, b: real) {
    && a <= b
    && (forall q :: One(q == a) + One(q == b) <= m[q])
    && (forall q :: q < b ==> m[q] == One(q == a))
  }

  lemma SecondLeast(m: multiset<real>, a: real, b: real, x: real, y: real)
    requires TwoLeast(m, a, b) && One(true) + One(x == y) <= m[x] && One(x == y) + One(true) <= m[y]
    ensures b <= x || b <= y
  {
  }

  lemma TwoMeansJoin(s: Shape, a: real, b: real)
    requires TwoLeast(Times(s), a, b)
    ensures s.Join?
  {
    assert One(a == a) + One(a == b) <= Times(s)[a] && One(b == a) + One(b == b) <= Times(s)[b];
  }

  /** The leaves that the replaced pair displaces go where the two earliest
      leaves were. */
  function Restore(s: Shape, a: real, b: real, x: real, y: real): (s': Shape) {
    if multiset{x, y} == multiset{a, b} then s
    else if x == a then Put(s, b, y)
    else if y == a then Put(s, b, x)
    else if x == b then Put(s, a, y)
    else if y == b then Put(s, a, x)
    else Put(Put(s, a, x), b, y)
  }

  lemma RestoreTimes(s: Shape, m: multiset<real>, a: real, b: real, x: real, y: real, z: real, q: real)
    requires forall q :: One(q == a) + One(q == b) <= m[q]
    requires forall q :: One(q == x) + One(q == y) <= m[q]
    requires forall q :: Times(s)[q] + One(q == x) + One(q == y) == m[q] + One(q == z)
    ensures Times(Restore(s, a, b, x, y))[q] + One(q == a) + One(q == b) == m[q] + One(q == z)
  {
    hide Times, Put;
    assert Times(s)[a] + One(a == x) + One(a == y) == m[a] + One(a == z) && One(a == a) + One(a == b) <= m[a];
    assert Times(s)[b] + One(b == x) + One(b == y) == m[b] + One(b == z) && One(b == a) + One(b == b) <= m[b];
    if multiset{x, y} == multiset{a, b} {
      assert multiset{x, y}[q] == multiset{a, b}[q];
    } else if x == a {
      PutTimes(s, b, y, q);
    } else if y == a {
      PutTimes(s, b, x, q);
    } else if x == b {
      PutTimes(s, a, y, q);
    } else if y == b {
      PutTimes(s, a, x, q);
    } else {
      PutTimes(s, a, x, q);
      PutTimes(s, a, x, b);
      PutTimes(Put(s, a, x), b, y, q);
    }
  }

  lemma RestoreFits(s: Shape, d: real, end: real, a: real, b: real, x: real, y: real)
    requires Fits(s, d, end) && x <= Deadline(s, d, end) && y <= Deadline(s, d, end)
    ensures Fits(Restore(s, a, b, x, y), d, end)
  {
    hide Fits, Deadline, Put;
    PutFits(s, d, end, b, y);
    PutFits(s, d, end, b, x);
    PutFits(s, d, end, a, y);
    PutFits(s, d, end, a, x);
    PutFits(Put(s, a, x), d, end, b, y);
  }

  /** Any tree can be turned into one in which the two earliest leaves are
      combined first, without finishing later. */
  lemma EarliestFirst(s: Shape, d: real, a: real, b: real) returns (s': Shape)
    requires d >= 0.0 && TwoLeast(Times(s), a, b)
    ensures forall q :: Times(s')[q] + One(q == a) + One(q == b) == Times(s)[q] + One(q == b + d)
    ensures Finish(s', d) <= Finish(s, d)
  {
    hide Finish, Deadline, Times, Fits, Cut, DeepPair, Restore;
    var end := Finish(s, d);
    TwoMeansJoin(s, a, b);
    FitsIsFinish(s, d, end);
    var (x, y) := DeepPair(s);
    forall q
      ensures One(q == x) + One(q == y) <= Times(s)[q]
      ensures Times(Cut(s, b + d))[q] + One(q == x) + One(q == y) == Times(s)[q] + One(q == b + d)
    {
      CutTimes(s, b + d, q);
    }
    CutFits(s, d, end, b + d);
    SecondLeast(Times(s), a, b, x, y);
    s' := Restore(Cut(s, b + d), a, b, x, y);
    forall q
      ensures Times(s')[q] + One(q == a) + One(q == b) == Times(s)[q] + One(q == b + d)
    {
      RestoreTimes(Cut(s, b + d), Times(s), a, b, x, y, b + d, q);
    }
    RestoreFits(Cut(s, b + d), d, end, a, b, x, y);
    FitsIsFinish(s', d, end);
  }

  /** Whatever is built from `m0`, something built from `m` is as fast. */
  ghost predicate NoWorse(d: real, m0: multiset<real>, m: multiset<real>) {
    forall s :: Times(s) == m0 ==> exists s' :: Times(s') == m && Finish(s', d) <= Finish(s, d)
  }

  lemma StillNoWorse(d: real, m0: multiset<real>, m: multiset<real>, a: real, b: real, m': multiset<real>)
    requires d >= 0.0 && NoWorse(d, m0, m) && TwoLeast(m, a, b)
    requires forall q :: m'[q] + One(q == a) + One(q == b) == m[q] + One(q == b + d)
    ensures NoWorse(d, m0, m')
  {
    hide Times, Finish, TwoLeast;
    forall s | Times(s) == m0
      ensures exists s' :: Times(s') == m' && Finish(s', d) <= Finish(s, d)
    {
      var s1 :| Times(s1) == m && Finish(s1, d) <= Finish(s, d);
      var s' := EarliestFirst(s1, d, a, b);
      assert Times(s') == m' by {
        forall q
          ensures Times(s')[q] == m'[q]
        {
        }
      }
    }
  }

  /** `m'` is `m` after combining `a` and `b`, two earliest of its elements. */
  ghost predicate Combines(d: real, m: multiset<real>, a: real, b: real, rest: multiset<real>, m': multiset<real>) {
    && d >= 0.0 && a <= b && m == multiset{a} + multiset{b} + rest && m' == rest + multiset{b + d}
    && forall q :: q < b ==> rest[q] == 0
  }

  lemma CombineTwo(d: real, m0: multiset<real>, m: multiset<real>, a: real, b: real, rest: multiset<real>, m': multiset<real>)
    requires NoWorse(d, m0, m) && Combines(d, m, a, b, rest, m')
    ensures NoWorse(d, m0, m')
  {
    hide NoWorse;
    StillNoWorse(d, m0, m, a, b, m');
  }

  /** Once everything is combined, nothing finishes earlier. */
  lemma OnlyOneLeft(d: real, m0: multiset<real>, x: real)
    requires NoWorse(d, m0, multiset{x})
    ensures forall s :: Times(s) == m0 ==> x <= Finish(s, d)
  {
    forall s | Times(s) == m0
      ensures x <= Finish(s, d)
    {
      var s1 :| Times(s1) == multiset{x} && Finish(s1, d) <= Finish(s, d);
      OneIsLeaf(s1, x);
    }
  }

  lemma OneIsLeaf(s: Shape, x: real)
    requires Times(s) == multiset{x}
    ensures s == Leaf(x)
  {
    assert s.Join? ==> |Times(s)| == |Times(s.left)| + |Times(s.right)|;
    assert s.Leaf? && s.time in Times(s);
  }
}
