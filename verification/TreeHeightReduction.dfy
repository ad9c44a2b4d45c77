/** Rebuilding operation trees so that their roots are available earlier, and
    emitting code for the result. */
module TreeHeightReduction {
  import opened LatencyShapes
  import opened OperatorTree
  import opened TreeMemory
  import opened TreeRegion
  import opened TreeBuilding
  import opened TreeCollecting
  import opened TreeRebuilding
  import opened TreeEmission
  import opened TreePaths

  class Reducer {
    const prog: Program
    var cells: seq<Cell>

    constructor (p: Program, h: seq<Cell>)
      ensures prog == p && cells == h
    {
      prog := p;
      cells := h;
    }

    /** All nodes below `n`, breadth first. */
    method GetNodesAndLeavesByBfs(n: nat, ghost t: Tree) returns (nodes: seq<nat>)
      requires Holds(cells, t) && t.id == n
      ensures WalkOf(nodes, t)
    {
      hide Size, Sizes, AllHold, Holds, Next;
      nodes := [n];
      WalkStart(cells, n, t);
      var i := 0;
      ghost var q := [t];
      while i < |nodes|
        invariant 0 <= i <= |nodes| && q == QueueAt(t, i)
        invariant Names(nodes[i..], q) && AllHold(cells, q)
        invariant forall k :: 0 <= k < i ==> VisitedAt(t, k, nodes[k])
        decreases Sizes(q)
      {
        var c := nodes[i];
        WalkNext(cells, nodes, i, q);
        var kids := if cells[c].left != 0 then [cells[c].left] else [];
        if cells[c].right != 0 {
          kids := kids + [cells[c].right];
        }
        assert kids == KidIds(cells[c]);
        nodes := nodes + kids;
        SizesStep(q);
        i, q := i + 1, Next(q);
      }
    }

    method UpdateNodeLatency(n: nat, ghost c: Tree)
      requires Legal(prog) && InRange(prog, c) && Holds(cells, c) && c.id == n && |cells| == |prog.op|
      requires c.Branch? ==> Timed(prog, cells, c.left) && Timed(prog, cells, c.right)
      requires c.Branch? ==> c.left.id != n && c.right.id != n
      modifies this`cells
      ensures |cells| == |old(cells)|
      ensures cells == old(cells)[n := old(cells)[n].(latency := Latency(prog, c), cost := Cost(prog, c))]
      ensures IsLongest(prog, c, cells[n].latency)
    {
      HeldLeaf(cells, c);
      LatencyIsLongest(prog, c);
      hide IsLongest;
      cells := cells[n := cells[n].(latency := 0.0, cost := 0)];
      if cells[n].left == 0 || cells[n].right == 0 {
        return;
      }
      UpdateFrom(n, cells[n].left);
      UpdateFrom(n, cells[n].right);
      var d := Delay(prog, prog.op[n]);
      cells := cells[n := cells[n].(latency := cells[n].latency + d, cost := Truncated(cells[n].cost as real + d))];
    }

    /** Raises the latency to a child's and adds the child's cost. */
    method UpdateFrom(n: nat, child: nat)
      requires n < |cells| && child < |cells|
      modifies this`cells
      ensures |cells| == |old(cells)|
      ensures cells == old(cells)[n := old(cells)[n].(
        latency := Max(old(cells)[n].latency, old(cells)[child].latency), cost := old(cells)[n].cost + old(cells)[child].cost)]
    {
      var sub := cells[child];
      if sub.latency > cells[n].latency {
        cells := cells[n := cells[n].(latency := sub.latency)];
      }
      cells := cells[n := cells[n].(cost := cells[n].cost + sub.cost)];
    }

    /** Latencies bottom-up, in the reverse of breadth-first order. */
    method UpdateTreeLatency(n: nat, ghost t: Tree)
      requires Legal(prog) && InRange(prog, t) && Holds(cells, t) && t.id == n && |cells| == |prog.op| && Simple(Ids(t))
      modifies this`cells
      ensures Retimed(old(cells), cells, Ids(t))
      ensures Holds(cells, t) && Timed(prog, cells, t) && n < |cells| && IsLongest(prog, t, cells[n].latency)
      ensures cells[n].cost == Count(prog, t, Add) * prog.latAdd.Floor + Count(prog, t, Mul) * prog.latMul.Floor
    {
      hide IsLongest, Count, Walking, Retimed, Timed, InRange, Holds, Simple, QueueAt, Legal;
      var nodes := GetNodesAndLeavesByBfs(n, t);
      var i := |nodes|;
      WalkBegin(prog, cells, t, nodes);
      while i > 0
        invariant 0 <= i <= |nodes| && Walking(prog, old(cells), cells, t, i)
      {
        i := i - 1;
        assert VisitedAt(t, i, nodes[i]);
        ghost var c := QueueAt(t, i)[0];
        WalkNode(prog, old(cells), cells, t, i);
        WalkPiece(prog, old(cells), cells, t, i + 1, c);
        ghost var h := cells;
        UpdateNodeLatency(nodes[i], c);
        WalkStep(prog, old(cells), h, cells, t, i);
      }
      WalkOver(prog, old(cells), cells, t);
      TimesCounted(prog, cells, t);
    }

    /** The leaves and the reusable nodes of the region at the top of `t`. */
    method CollectLeavesAndReusedNodes(n: nat, ghost t: Tree)
      returns (leaves: seq<nat>, reused: seq<nat>, ghost f: seq<Tree>)
      requires Source(prog, cells, t) && t.id == n && Simple(Ids(t))
      ensures Building(prog, cells, prog.op[n], leaves, reused, f, KeptOf(prog, prog.op[n], t))
      ensures reused == [] <==> ConsideredLeaf(prog, cells, n)
      ensures reused == [] ==> f == [t]
      ensures reused != [] ==> reused[0] == n && Total(prog, prog.op[n], f).times == Times(ShapeOf(prog, prog.op[n], t))
    {
      hide Size, Collecting, Simple, Building, KeptOf, Below, InRange, Holds, Total, ShapeOf, Times;
      var work := [n];
      leaves, reused, f := [], [], [];
      ghost var q := [t];
      CollectStart(prog, cells, t);
      var i := 0;
      while i < |work|
        invariant 0 <= i <= |work| && Names(work[i..], q) && Names(leaves, f)
        invariant Collecting(prog, cells, t, f, q, reused)
        invariant i > 0 && reused == [] ==> ConsideredLeaf(prog, cells, n)
        invariant i == 0 ==> q == [t] && reused == []
        decreases Sizes(q)
      {
        var c := work[i];
        CollectNext(prog, cells, t, f, q, reused);
        HeldLeaf(cells, q[0]);
        SizesStep(q);
        assert work[i..][1..] == work[i + 1..];
        if ConsideredLeaf(prog, cells, c) {
          CollectLeaf(prog, cells, t, f, q, reused);
          leaves, f, q := leaves + [c], f + [q[0]], q[1..];
        } else {
          CollectNode(prog, cells, t, f, q, reused);
          reused := reused + [c];
          work := work + [cells[c].left] + [cells[c].right];
          q := Next(q);
        }
        i := i + 1;
      }
      CollectEnd(prog, cells, t, f, reused, leaves);
    }

    method SortLeaves(leaves: seq<nat>, ghost f: seq<Tree>) returns (s: seq<nat>, ghost g: seq<Tree>)
      requires Names(leaves, f) && InMemory(cells, leaves)
      ensures Names(s, g) && multiset(g) == multiset(f)
      ensures InMemory(cells, s) && Ordered(cells, s)
    {
      hide Ordered, Before;
      s, g := [], [];
      var k := 0;
      OrderedNone(cells);
      while k < |leaves|
        invariant 0 <= k <= |leaves| && Names(s, g) && multiset(g) == multiset(f[..k])
        invariant InMemory(cells, s) && Ordered(cells, s)
      {
        assert f[..k + 1] == f[..k] + [f[k]];
        s, g := InsertLeaf(s, g, leaves[k], f[k]);
        k := k + 1;
      }
      assert f[..k] == f;
    }

    /** Inserts one leaf behind those that are not after it. */
    method InsertLeaf(s: seq<nat>, ghost g: seq<Tree>, x: nat, ghost c: Tree) returns (s': seq<nat>, ghost g': seq<Tree>)
      requires Names(s, g) && InMemory(cells, s) && Ordered(cells, s) && x < |cells| && c.id == x
      ensures Names(s', g') && multiset(g') == multiset(g) + multiset{c}
      ensures InMemory(cells, s') && Ordered(cells, s')
    {
      hide Ordered, Before;
      var i := |s|;
      while i > 0 && Before(cells, x, s[i - 1])
        invariant 0 <= i <= |s|
        invariant forall j :: i <= j < |s| ==> Before(cells, x, s[j])
      {
        i := i - 1;
      }
      InsertOrdered(cells, s, i, x);
      assert g == g[..i] + g[i..];
      s', g' := s[..i] + [x] + s[i..], g[..i] + [c] + g[i..];
    }

    method RemoveNode(leaves: seq<nat>, x: nat) returns (s: seq<nat>)
      ensures s == Without(leaves, x)
    {
      hide Removing, Erased, Without;
      s := leaves;
      var i := 0;
      ghost var k := 0;
      RemoveStart(leaves, x);
      while i < |s|
        invariant 0 <= i <= |s| && Removing(leaves, k, x, s, i)
        decreases |leaves| - k
      {
        RemoveStep(leaves, k, x, s, i);
        if s[i] == x {
          s := Erased(s, i);
        } else {
          i := i + 1;
        }
        k := k + 1;
      }
      RemoveEnd(leaves, k, x, s);
    }

    /** Makes two leaves the children of the last reusable node. */
    method CombineLeaves(leaves: seq<nat>, op1: nat, op2: nat, reused: seq<nat>, ghost o: Op, ghost f: seq<Tree>, ghost kept: Kept)
      returns (leaves': seq<nat>, reused': seq<nat>)
      requires Building(prog, cells, o, leaves, reused, f, kept) && |f| > 1 && op1 == leaves[0] && op2 == leaves[1]
      modifies this`cells
      ensures reused != [] && leaves' == leaves + [reused[|reused| - 1]] && reused' == reused[..|reused| - 1]
      ensures Landed(prog, old(cells), cells, f[2..] + [NewTree(reused, f)], kept.ids, reused[0])
    {
      hide Building, Simple, Landed, Timed, InRange, Ids, Retimed, Assembled;
      BuildingParts(prog, cells, o, leaves, reused, f, kept);
      BuildingLinkable(prog, cells, o, leaves, reused, f, kept);
      NewTreeHolds(prog, cells, o, leaves, reused, f, kept);
      NewTreeSimple(prog, o, reused, f, kept);
      var n := reused[|reused| - 1];
      reused' := reused[..|reused| - 1];
      cells := cells[n := cells[n].(left := op1)];
      cells := cells[n := cells[n].(right := op2)];
      cells := cells[op1 := cells[op1].(parent := n)];
      cells := cells[op2 := cells[op2].(parent := n)];
      assert cells == Linked(old(cells), n, op1, op2);
      UpdateTreeLatency(n, NewTree(reused, f));
      leaves' := leaves + [n];
      BuildingStep(prog, old(cells), o, leaves, reused, f, kept, cells);
    }

    /** Combines two earliest leaves until one tree is left. */
    method ConstructOptimizedSubtree(leaves0: seq<nat>, reused0: seq<nat>, ghost o: Op, ghost f0: seq<Tree>, ghost kept: Kept, ghost top: nat)
      returns (root: nat, ghost t: Tree)
      requires Building(prog, cells, o, leaves0, reused0, f0, kept)
      requires top == if reused0 == [] then leaves0[0] else reused0[0]
      modifies this`cells
      ensures t.id == root == top && Legal(prog) && InRange(prog, t)
      ensures Assembled(prog, o, [t], [], kept) && Holds(cells, t) && Timed(prog, cells, t)
      ensures reused0 == [] ==> t == f0[0]
      ensures Greedy(prog, f0, reused0, t)
      ensures AllInRange(prog, f0) && NoWorse(Delay(prog, o), Total(prog, o, f0).times, multiset{Latency(prog, t)})
      ensures SameOutside(old(cells), cells, kept.ids)
      ensures top < |cells| && cells[top].parent == old(cells)[top].parent
    {
      hide Greedy;
      var leaves, reused := leaves0, reused0;
      ghost var f := f0;
      RebuildingStart(prog, cells, o, leaves, f, reused, kept, top);
      ghost var b0 := Begun(f0, Total(prog, o, f0).times, reused0);
      while |leaves| > 1
        invariant Rebuilding(prog, old(cells), cells, o, b0, leaves, f, reused, kept, top)
        invariant reused0 == [] ==> f == f0
        decreases |leaves|
      {
        hide Rebuilding, Ordered, Without, NoWorse, Building;
        RebuildingMany(prog, old(cells), cells, o, b0, leaves, f, reused, kept, top);
        ghost var g;
        ghost var s := leaves;
        leaves, g := SortLeaves(leaves, f);
        RebuildingSorted(prog, old(cells), cells, o, b0, s, f, leaves, g, reused, kept, top);
        RebuildingMany(prog, old(cells), cells, o, b0, leaves, g, reused, kept, top);
        LeavesStep(prog, cells, o, leaves, g, reused, kept);
        ghost var h, sorted, r := cells, leaves, reused;
        var op1, op2 := leaves[0], leaves[1];
        leaves, reused := CombineLeaves(leaves, op1, op2, reused, o, g, kept);
        leaves := RemoveNode(leaves, op1);
        leaves := RemoveNode(leaves, op2);
        RebuildingStep(prog, old(cells), h, cells, o, b0, sorted, g, r, kept, top);
        f := g[2..] + [NewTree(r, g)];
      }
      root, t := leaves[0], f[0];
      RebuildingOne(prog, old(cells), cells, o, b0, leaves, f, reused, kept, top);
      ghost var h := cells;
      UpdateTreeLatency(root, t);
      RebuildingEnd(prog, old(cells), h, cells, kept.ids, t);
    }

    /** Rebuilds every region below `n`, the lower ones first. A node below a
        different operator is left as it is. */
    method ApplyTreeHeightReduction(n: nat, isLeft: bool, ghost t: Tree) returns (root: nat, ghost t': Tree)
      requires Reducible(prog, cells, isLeft, t) && t.id == n
      modifies this`cells
      ensures root == n && Reduced(prog, old(cells), cells, t, t')
      ensures Settled(prog, t', old(ConsideredLeaf(prog, cells, n)))
      ensures t.Branch? && old(ConsideredLeaf(prog, cells, n)) ==>
        t'.Branch? && t' == Branch(n, t'.left, t'.right) && Improves(prog, t.left, t'.left) && Improves(prog, t.right, t'.right)
      decreases t
    {
      hide Simple, Ready, Timed, Building, Improves, KeptOf, NoWorse, Total, Assembled, ShapeOf, Times, Optimal, Below, Latency, Eval, Settled, PartSettled, RegionSettled;
      HeldLeaf(cells, t);
      if cells[n].left == 0 || cells[n].right == 0 {
        LeafReduced(prog, cells, isLeft, t);
        return n, t;
      }
      ghost var l', r';
      LeftReducible(prog, cells, isLeft, t);
      root, l' := ApplyTreeHeightReduction(cells[n].left, true, t.left);
      ghost var h1 := cells;
      RightReducible(prog, old(cells), h1, isLeft, t, l');
      root, r' := ApplyTreeHeightReduction(cells[n].right, false, t.right);
      ghost var h2, mid := cells, Branch(n, l', r');
      BothReduced(prog, old(cells), h1, h2, t, l', r');
      SidesDone(prog, t, l', r');
      ImprovesParts(prog, t, l', r');
      ImprovedIds(prog, t, mid);
      var parent := cells[n].parent;
      var leaves, reused;
      ghost var f;
      leaves, reused, f := CollectLeavesAndReusedNodes(n, mid);
      RegionFacts(prog, cells, t, mid, leaves, reused, f);
      root, t' := ConstructOptimizedSubtree(leaves, reused, prog.op[n], f, KeptOf(prog, prog.op[n], mid), n);
      RegionReduced(prog, t, mid, t', reused != []);
      HungAlready(old(cells), h2, cells, Ids(t), isLeft, t);
      cells := cells[root := cells[root].(parent := parent)];
      if parent != 0 {
        if isLeft {
          cells := cells[parent := cells[parent].(left := root)];
        } else {
          cells := cells[parent := cells[parent].(right := root)];
        }
      }
    }

    /** The branches below `n`, breadth first. */
    method GetOnlyNodes(n: nat, ghost t: Tree) returns (nodes: seq<nat>)
      requires Holds(cells, t) && t.id == n
      ensures InnerWalkOf(nodes, t)
    {
      hide Holds, Inner, QueueAt, InnerQueueAt, InnerVisitedAt, VisitedAt, SameRest, Erased;
      nodes := GetNodesAndLeavesByBfs(n, t);
      ghost var all, k := nodes, 0;
      var i := 0;
      RestStart(nodes);
      OnlyStart(t);
      while i < |nodes|
        invariant i <= |nodes| && k <= |all| && SameRest(nodes, i, all, k)
        invariant WalkOf(all, t) && Inner(QueueAt(t, k)) == InnerQueueAt(t, i)
        invariant forall j :: 0 <= j < i ==> InnerVisitedAt(t, j, nodes[j])
        decreases |all| - k
      {
        EraseStep(nodes, i, all, k);
        assert VisitedAt(t, k, all[k]);
        OnlyNode(cells, t, k, nodes[i]);
        OnlyStep(t, k, i);
        if cells[nodes[i]].left != 0 && cells[nodes[i]].right != 0 {
          i := i + 1;
        } else {
          nodes := Erased(nodes, i);
        }
        k := k + 1;
      }
      RestEnd(nodes, i, all, k);
      OnlyEnd(t, k, i);
    }

    /** The operands of `n`: leaves stand for themselves, the value of a branch
        is the first in the queue. */
    method SetLeftAndRightOperand(n: nat, ops: seq<Value>, ghost q: seq<Tree>)
      returns (left: Value, right: Value, ops': seq<Value>)
      requires q != [] && q[0].Branch? && q[0].id == n && AllInRange(prog, q) && Holds(cells, q[0])
      requires AllInRange(prog, InnerNext(q)) && ops == Waiting(prog, InnerNext(q))
      ensures n < |prog.op| && Inst(prog.op[n], left, right) == Emitted(prog, q[0])
      ensures ops' + [Emitted(prog, q[0])] == Waiting(prog, q)
    {
      EmitStep(prog, q);
      var l, r := cells[n].left, cells[n].right;
      HeldLeaf(cells, q[0].left);
      HeldLeaf(cells, q[0].right);
      hide Waiting, InnerNext;
      var leftIsLeaf := cells[l].left == 0 || cells[l].right == 0;
      var rightIsLeaf := cells[r].left == 0 || cells[r].right == 0;
      if leftIsLeaf && rightIsLeaf {
        left, right, ops' := Use(l), Use(r), ops;
      } else if leftIsLeaf {
        left, right, ops' := Use(l), ops[0], ops[1..];
      } else if rightIsLeaf {
        left, right, ops' := ops[0], Use(r), ops[1..];
      } else {
        left, right, ops' := ops[0], ops[1], ops[2..];
      }
    }

    /** Emits the instructions of a tree in the reverse of breadth-first order,
        passing operands through one queue. */
    method CreateIRs(n: nat, ghost t: Tree) returns (value: Value)
      requires InRange(prog, t) && Holds(cells, t) && t.id == n && t.Branch?
      ensures value == Emitted(prog, t)
    {
      hide InRange, Emitted, Waiting, InnerQueueAt, InnerVisitedAt, InnerNext, Holds, AllInRange;
      var nodes := GetOnlyNodes(n, t);
      EmitBegin(prog, t, |nodes|);
      var ops: seq<Value> := [];
      while nodes != []
        invariant forall k :: 0 <= k < |nodes| ==> InnerVisitedAt(t, k, nodes[k])
        invariant AllInRange(prog, InnerQueueAt(t, |nodes|)) && ops == Waiting(prog, InnerQueueAt(t, |nodes|))
        decreases |nodes|
      {
        var k := |nodes| - 1;
        var m := nodes[k];
        assert InnerVisitedAt(t, k, m);
        ghost var q := InnerQueueAt(t, k);
        EmitNext(prog, cells, t, k, m);
        var left, right;
        left, right, ops := SetLeftAndRightOperand(m, ops, q);
        ops := ops + [Inst(prog.op[m], left, right)];
        nodes := nodes[..k];
      }
      EmitEnd(prog, t);
      assert |ops| == 1;
      value := ops[0];
    }

    /** The whole transformation: what is emitted for the rebuilt tree has the
        value of the original, and the rebuilt tree is no later. */
    method Reduce(n: nat, ghost t: Tree) returns (value: Value, ghost t': Tree)
      requires Reducible(prog, cells, false, t) && t.id == n && t.Branch? && cells[n].parent == 0
      modifies this`cells
      ensures Usable(prog, value) && Meaning(prog, value) == Eval(prog, t)
      ensures Improves(prog, t, t') && value == Emitted(prog, t') && Settled(prog, t', false)
    {
      HeldLeaf(cells, t);
      var root;
      root, t' := ApplyTreeHeightReduction(n, false, t);
      value := CreateIRs(root, t');
      EmittedMeaning(prog, t');
    }
  }
}
