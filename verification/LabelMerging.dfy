/** Merging the nodes that were given equal labels. */
module LabelMerging {
  import UnionFind

  /** Representatives with equal labels, other than none and 0, are merged, and
      nothing else is. */
  ghost predicate MergedByLabel(root0: seq<nat>, lab: seq<set<nat>>, root: seq<nat>) {
    && |root0| == |lab| == |root|
    && (forall i :: 0 <= i < |root| ==> root0[i] < |root| && root[i] < |root|)
    && (forall i :: 0 <= i < |root| ==> root[root[i]] == root[i] && root[i] == root[root0[i]] && root0[root[i]] == root[i])
    && (forall i, j :: 0 <= i < |root| && 0 <= j < |root| && root0[i] == i && root0[j] == j ==>
          (root[i] == root[j] <==> i == j || (lab[i] == lab[j] && lab[i] != {} && 0 !in lab[i])))
  }

  /** The nodes labelled 0 are marked. */
  ghost predicate Marked(lab: seq<set<nat>>, nonptr: seq<bool>) {
    |nonptr| == |lab| && forall i :: 0 <= i < |lab| ==> (nonptr[i] <==> 0 in lab[i])
  }

  /** The labels seen so far. */
  ghost function Seen(lab: seq<set<nat>>, k: nat): (r: seq<set<nat>>)
    requires k <= |lab|
  {
    seq(|lab|, i requires 0 <= i < |lab| => if i < k then lab[i] else {})
  }

  /** The classes of the nodes seen so far, by their labels. `first` is some
      node with each set of labels. */
  ghost predicate Merging(root0: seq<nat>, lab: seq<set<nat>>, root: seq<nat>,
    pe2node: map<set<nat>, nat>, first: map<set<nat>, nat>, k: nat) {
    && k <= |lab| && MergedByLabel(root0, Seen(lab, k), root)
    && (forall i :: 0 <= i < |lab| && lab[i] != {} ==> root0[i] == i)
    && (forall ls :: ls in pe2node ==>
          ls in first && first[ls] < k && lab[first[ls]] == ls && ls != {} && 0 !in ls && root[first[ls]] == pe2node[ls])
    && (forall i :: 0 <= i < k && lab[i] != {} && 0 !in lab[i] ==> lab[i] in pe2node)
  }

  lemma MergeSkip(root0: seq<nat>, lab: seq<set<nat>>, root: seq<nat>,
    pe2node: map<set<nat>, nat>, first: map<set<nat>, nat>, k: nat)
    requires Merging(root0, lab, root, pe2node, first, k) && k < |lab| && lab[k] == {}
    ensures Merging(root0, lab, root, pe2node, first, k + 1)
  {
    assert Seen(lab, k + 1) == Seen(lab, k);
    hide MergedByLabel;
  }

  lemma MergeMark(root0: seq<nat>, lab: seq<set<nat>>, root: seq<nat>,
    pe2node: map<set<nat>, nat>, first: map<set<nat>, nat>, k: nat)
    requires Merging(root0, lab, root, pe2node, first, k) && k < |lab| && 0 in lab[k]
    ensures Merging(root0, lab, root, pe2node, first, k + 1)
  {
    SeenMore(root0, lab, root, pe2node, first, k);
    hide MergedByLabel, Seen;
  }

  lemma MergeNew(root0: seq<nat>, lab: seq<set<nat>>, root: seq<nat>,
    pe2node: map<set<nat>, nat>, first: map<set<nat>, nat>, k: nat)
    requires Merging(root0, lab, root, pe2node, first, k) && k < |lab| && lab[k] != {} && 0 !in lab[k]
    requires lab[k] !in pe2node
    ensures k < |root| && root[k] == k
    ensures Merging(root0, lab, root, pe2node[lab[k] := k], first[lab[k] := k], k + 1)
  {
    OwnRoot(root0, lab, root, pe2node, first, k);
    SeenMore(root0, lab, root, pe2node, first, k);
    hide MergedByLabel, Seen;
  }

  /** A node not seen yet is its own representative. */
  lemma OwnRoot(root0: seq<nat>, lab: seq<set<nat>>, root: seq<nat>,
    pe2node: map<set<nat>, nat>, first: map<set<nat>, nat>, k: nat)
    requires Merging(root0, lab, root, pe2node, first, k) && k < |lab| && lab[k] != {}
    ensures k < |root| && root[k] == k
  {
    var r := root[k];
    assert root0[k] == k && root0[r] == r && root[r] == r;
    assert Seen(lab, k)[k] == {};
  }

  lemma SeenMore(root0: seq<nat>, lab: seq<set<nat>>, root: seq<nat>,
    pe2node: map<set<nat>, nat>, first: map<set<nat>, nat>, k: nat)
    requires Merging(root0, lab, root, pe2node, first, k) && k < |lab| && lab[k] != {}
    requires 0 in lab[k] || lab[k] !in pe2node
    ensures MergedByLabel(root0, Seen(lab, k + 1), root)
  {
    var a, b := Seen(lab, k), Seen(lab, k + 1);
    assert forall i :: 0 <= i < |lab| && i != k ==> b[i] == a[i];
    forall i, j | 0 <= i < |root| && 0 <= j < |root| && root0[i] == i && root0[j] == j
      ensures root[i] == root[j] <==> i == j || (b[i] == b[j] && b[i] != {} && 0 !in b[i])
    {
      assert root[i] == root[j] <==> i == j || (a[i] == a[j] && a[i] != {} && 0 !in a[i]);
    }
  }

  lemma MergeTwo(root0: seq<nat>, lab: seq<set<nat>>, root: seq<nat>,
    pe2node: map<set<nat>, nat>, first: map<set<nat>, nat>, k: nat, p: nat, c: nat)
    requires Merging(root0, lab, root, pe2node, first, k) && k < |lab| && lab[k] in pe2node
    requires (p == k && c == pe2node[lab[k]]) || (p == pe2node[lab[k]] && c == k)
    ensures Merging(root0, lab, UnionFind.Relabel(root, c, p), pe2node[lab[k] := p], first, k + 1)
  {
    hide MergedByLabel, Seen;
    OwnRoot(root0, lab, root, pe2node, first, k);
    MergeClasses(root0, lab, root, pe2node, first, k, p, c);
    forall ls | ls in pe2node
      ensures first[ls] < |root| && UnionFind.Relabel(root, c, p)[first[ls]] == if ls == lab[k] then p else pe2node[ls]
    {
      FirstInRange(root0, lab, root, pe2node, first, k, ls);
      if ls != lab[k] {
        OtherClass(root0, lab, root, pe2node, first, k, ls);
      }
    }
  }

  lemma FirstInRange(root0: seq<nat>, lab: seq<set<nat>>, root: seq<nat>,
    pe2node: map<set<nat>, nat>, first: map<set<nat>, nat>, k: nat, ls: set<nat>)
    requires Merging(root0, lab, root, pe2node, first, k) && ls in pe2node
    ensures ls in first && first[ls] < |root| && root[first[ls]] == pe2node[ls]
  {
  }

  lemma OtherClass(root0: seq<nat>, lab: seq<set<nat>>, root: seq<nat>,
    pe2node: map<set<nat>, nat>, first: map<set<nat>, nat>, k: nat, ls: set<nat>)
    requires Merging(root0, lab, root, pe2node, first, k) && k < |lab| && lab[k] in pe2node && ls in pe2node && ls != lab[k]
    requires root[k] == k
    ensures root[first[ls]] != k && root[first[ls]] != root[first[lab[k]]]
  {
    var a := Seen(lab, k);
    var f, h := first[lab[k]], first[ls];
    assert a[f] == lab[k] && a[h] == ls && a[k] == {};
    assert root0[f] == f && root0[h] == h && root0[k] == k;
  }

  lemma MergeClasses(root0: seq<nat>, lab: seq<set<nat>>, root: seq<nat>,
    pe2node: map<set<nat>, nat>, first: map<set<nat>, nat>, k: nat, p: nat, c: nat)
    requires Merging(root0, lab, root, pe2node, first, k) && k < |lab| && lab[k] in pe2node && root[k] == k
    requires (p == k && c == pe2node[lab[k]]) || (p == pe2node[lab[k]] && c == k)
    ensures MergedByLabel(root0, Seen(lab, k + 1), UnionFind.Relabel(root, c, p))
  {
    hide Merging, UnionFind.Relabel, Seen;
    MergeSizes(root0, lab, root, pe2node, first, k);
    var b, root' := Seen(lab, k + 1), UnionFind.Relabel(root, c, p);
    forall i | 0 <= i < |root|
      ensures root0[i] < |root| && root'[i] < |root|
      ensures root'[root'[i]] == root'[i] && root'[i] == root'[root0[i]] && root0[root'[i]] == root'[i]
    {
      RootAfter(root0, lab, root, pe2node, first, k, p, c, i);
    }
    forall i, j | 0 <= i < |root| && 0 <= j < |root| && root0[i] == i && root0[j] == j
      ensures root'[i] == root'[j] <==> i == j || (b[i] == b[j] && b[i] != {} && 0 !in b[i])
    {
      PairAfter(root0, lab, root, pe2node, first, k, p, c, i, j);
    }
  }

  lemma MergeSizes(root0: seq<nat>, lab: seq<set<nat>>, root: seq<nat>,
    pe2node: map<set<nat>, nat>, first: map<set<nat>, nat>, k: nat)
    requires Merging(root0, lab, root, pe2node, first, k) && k < |lab|
    ensures |root0| == |root| == |lab| == |Seen(lab, k + 1)|
    ensures forall c, p :: |UnionFind.Relabel(root, c, p)| == |root|
  {
  }

  lemma RootAfter(root0: seq<nat>, lab: seq<set<nat>>, root: seq<nat>,
    pe2node: map<set<nat>, nat>, first: map<set<nat>, nat>, k: nat, p: nat, c: nat, i: nat)
    requires Merging(root0, lab, root, pe2node, first, k) && k < |lab| && lab[k] in pe2node && root[k] == k
    requires (p == k && c == pe2node[lab[k]]) || (p == pe2node[lab[k]] && c == k)
    requires i < |root|
    ensures var root' := UnionFind.Relabel(root, c, p);
      && root0[i] < |root| && root'[i] < |root|
      && root'[root'[i]] == root'[i] && root'[i] == root'[root0[i]] && root0[root'[i]] == root'[i]
  {
    MergeReady(root0, lab, root, pe2node, first, k);
    var f := first[lab[k]];
    assert root0[f] == f && root0[k] == k && root[i] == root[root0[i]];
    assert root0[root[i]] == root[i] && root0[root[f]] == root[f];
  }

  lemma PairAfter(root0: seq<nat>, lab: seq<set<nat>>, root: seq<nat>,
    pe2node: map<set<nat>, nat>, first: map<set<nat>, nat>, k: nat, p: nat, c: nat, i: nat, j: nat)
    requires Merging(root0, lab, root, pe2node, first, k) && k < |lab| && lab[k] in pe2node && root[k] == k
    requires (p == k && c == pe2node[lab[k]]) || (p == pe2node[lab[k]] && c == k)
    requires i < |root| && j < |root| && root0[i] == i && root0[j] == j
    ensures var root', b := UnionFind.Relabel(root, c, p), Seen(lab, k + 1);
      root'[i] == root'[j] <==> i == j || (b[i] == b[j] && b[i] != {} && 0 !in b[i])
  {
    ClassAfter(root0, lab, root, pe2node, first, k, p, c, i);
    ClassAfter(root0, lab, root, pe2node, first, k, p, c, j);
    PairBefore(root0, lab, root, pe2node, first, k, i, j);
    hide Merging;
    assert i != k ==> Seen(lab, k + 1)[i] == Seen(lab, k)[i];
    assert j != k ==> Seen(lab, k + 1)[j] == Seen(lab, k)[j];
  }

  lemma PairBefore(root0: seq<nat>, lab: seq<set<nat>>, root: seq<nat>,
    pe2node: map<set<nat>, nat>, first: map<set<nat>, nat>, k: nat, i: nat, j: nat)
    requires Merging(root0, lab, root, pe2node, first, k) && i < |root| && j < |root| && root0[i] == i && root0[j] == j
    ensures var a := Seen(lab, k); root[i] == root[j] <==> i == j || (a[i] == a[j] && a[i] != {} && 0 !in a[i])
  {
  }

  /** Which nodes end up with `k`. */
  lemma ClassAfter(root0: seq<nat>, lab: seq<set<nat>>, root: seq<nat>,
    pe2node: map<set<nat>, nat>, first: map<set<nat>, nat>, k: nat, p: nat, c: nat, i: nat)
    requires Merging(root0, lab, root, pe2node, first, k) && k < |lab| && lab[k] in pe2node && root[k] == k
    requires (p == k && c == pe2node[lab[k]]) || (p == pe2node[lab[k]] && c == k)
    requires i < |root| && root0[i] == i
    ensures var root' := UnionFind.Relabel(root, c, p);
      (root'[i] == p <==> Seen(lab, k + 1)[i] == lab[k]) && (root'[i] != p ==> root'[i] == root[i])
    ensures 0 !in lab[k] && lab[k] != {}
  {
    var a, f := Seen(lab, k), first[lab[k]];
    assert a[f] == lab[k] && root0[f] == f && root0[k] == k && a[k] == {};
    assert i != k ==> Seen(lab, k + 1)[i] == a[i];
    PairBefore(root0, lab, root, pe2node, first, k, i, f);
    PairBefore(root0, lab, root, pe2node, first, k, i, k);
  }

  lemma MergeStart(root: seq<nat>, lab: seq<set<nat>>)
    requires |root| == |lab|
    requires forall i :: 0 <= i < |lab| ==> root[i] < |lab| && root[root[i]] == root[i] && (lab[i] != {} ==> root[i] == i)
    ensures Merging(root, lab, root, map[], map[], 0)
  {
  }

  lemma MergeReady(root0: seq<nat>, lab: seq<set<nat>>, root: seq<nat>,
    pe2node: map<set<nat>, nat>, first: map<set<nat>, nat>, k: nat)
    requires Merging(root0, lab, root, pe2node, first, k) && k < |lab| && lab[k] in pe2node
    ensures pe2node[lab[k]] < |root| && root[pe2node[lab[k]]] == pe2node[lab[k]]
    ensures k < |root| && root[k] == k && pe2node[lab[k]] != k
  {
    OwnRoot(root0, lab, root, pe2node, first, k);
    var f := first[lab[k]];
    assert Seen(lab, k)[k] == {} && root0[f] == f && root0[k] == k;
  }

  lemma MergeEnd(root0: seq<nat>, lab: seq<set<nat>>, root: seq<nat>,
    pe2node: map<set<nat>, nat>, first: map<set<nat>, nat>)
    requires Merging(root0, lab, root, pe2node, first, |lab|)
    ensures MergedByLabel(root0, lab, root)
  {
    assert Seen(lab, |lab|) == lab;
  }
}
