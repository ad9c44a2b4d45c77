/** Union-find over node numbers, with the rank of a representative stored in
    the word that holds the parent of any other node. */
module UnionFind {

  /** A parent word at or above this value holds a rank. */
  const NODE_RANK_MIN: nat := 0xf000_0000
  /** Number of values of a 32-bit word. */
  const WORD: nat := 0x1_0000_0000

  ghost function Pow2(k: nat): nat {
    if k == 0 then 1 else 2 * Pow2(k - 1)
  }

  lemma {:induction false} Pow2Grows(i: nat, j: nat)
    requires i <= j
    ensures Pow2(i) <= Pow2(j)
    decreases j
  {
    if i < j {
      Pow2Grows(i, j - 1);
    }
  }

  lemma Pow2Of32()
    ensures Pow2(32) == WORD
  {
    assert Pow2(8) == 256;
    assert Pow2(16) == 65536;
    assert Pow2(24) == 0x100_0000;
  }

  /** The nodes whose representative is `r`. */
  ghost function Class(root: seq<nat>, r: nat): set<nat> {
    set i | 0 <= i < |root| && root[i] == r
  }

  /** Every member of `child`'s class moves to `parent`. */
  ghost function Relabel(root: seq<nat>, child: nat, parent: nat): seq<nat> {
    seq(|root|, i requires 0 <= i < |root| => if root[i] == child then parent else root[i])
  }

  /** The words `rep` encode the partition `root`; `rank` remembers the rank a
      node had when it last was a representative. */
  ghost predicate Encodes(rep: seq<nat>, root: seq<nat>, rank: seq<nat>) {
    && |rep| == |root| == |rank| <= NODE_RANK_MIN
    && (forall i :: 0 <= i < |rep| ==> Placed(rep, root, rank, i))
    && (forall i :: 0 <= i < |rep| ==> Sized(root, rank, i))
  }

  /** A representative holds its rank; any other node points to a node of its
      own class that has a strictly greater rank. */
  ghost predicate Placed(rep: seq<nat>, root: seq<nat>, rank: seq<nat>, i: nat)
    requires |rep| == |root| == |rank|
    requires i < |rep|
  {
    && root[i] < |rep|
    && root[root[i]] == root[i]
    && rank[i] <= rank[root[i]]
    && (rep[i] >= NODE_RANK_MIN ==> root[i] == i && rep[i] == NODE_RANK_MIN + rank[i])
    && (rep[i] < NODE_RANK_MIN ==>
          && rep[i] < |rep|
          && root[i] != i
          && root[rep[i]] == root[i]
          && rank[i] < rank[rep[i]])
  }

  /** A representative of rank r has at least 2^r nodes in its class. */
  ghost predicate Sized(root: seq<nat>, rank: seq<nat>, i: nat)
    requires |root| == |rank|
    requires i < |root|
  {
    root[i] == i ==> Pow2(rank[i]) <= |Class(root, i)|
  }

  lemma {:induction false} ClassFits(root: seq<nat>, r: nat)
    ensures |Class(root, r)| <= |root|
  {
    if |root| == 0 {
      assert Class(root, r) == {};
    } else {
      var m := |root| - 1;
      ClassFits(root[..m], r);
      assert Class(root, r) == Class(root[..m], r) + (if root[m] == r then {m} else {});
    }
  }

  /** A class of size 2^rank is too large for rank 32 to be reached, so a rank
      added to `NODE_RANK_MIN` never leaves the 32-bit word. */
  lemma RankFitsWord(rep: seq<nat>, root: seq<nat>, rank: seq<nat>, i: nat)
    requires Encodes(rep, root, rank)
    requires i < |rep|
    ensures rank[i] < 32 && NODE_RANK_MIN + rank[i] < WORD
  {
    var r := root[i];
    assert Placed(rep, root, rank, i) && Sized(root, rank, r);
    ClassFits(root, r);
    Pow2Of32();
    if rank[r] >= 32 {
      Pow2Grows(32, rank[r]);
    }
  }

  /** Pointing a node straight at its representative changes no class. */
  lemma CompressKeeps(rep: seq<nat>, root: seq<nat>, rank: seq<nat>, i: nat)
    requires Encodes(rep, root, rank)
    requires i < |rep| && rep[i] < NODE_RANK_MIN
    ensures Encodes(rep[i := root[i]], root, rank)
  {
    var rep' := rep[i := root[i]];
    assert Placed(rep, root, rank, i) && Placed(rep, root, rank, rep[i]);
    forall j | 0 <= j < |rep'|
      ensures Placed(rep', root, rank, j)
    {
      assert Placed(rep, root, rank, j);
    }
  }

  /** The parent words after `child` is linked under `parent`. */
  function LinkWords(rep: seq<nat>, parent: nat, child: nat): (r: seq<nat>)
    requires parent < |rep| && child < |rep|
  {
    rep[parent := if rep[parent] == rep[child] then rep[parent] + 1 else rep[parent]][child := parent]
  }

  /** Linking a representative under another one of no smaller rank, with the
      rank bumped on a tie, encodes the merged partition. */
  lemma LinkKeeps(rep: seq<nat>, root: seq<nat>, rank: seq<nat>, p: nat, c: nat, rank': seq<nat>)
    requires Encodes(rep, root, rank)
    requires p < |rep| && c < |rep| && p != c
    requires rep[p] >= NODE_RANK_MIN && rep[c] >= NODE_RANK_MIN && rep[c] <= rep[p]
    requires rank' == if rep[c] == rep[p] then rank[p := rank[p] + 1] else rank
    ensures Encodes(LinkWords(rep, p, c), Relabel(root, c, p), rank')
  {
    var rep', root' := LinkWords(rep, p, c), Relabel(root, c, p);
    assert Placed(rep, root, rank, p) && Placed(rep, root, rank, c);
    forall i | 0 <= i < |rep'|
      ensures Placed(rep', root', rank', i)
    {
      assert Placed(rep, root, rank, i);
    }
    assert Sized(root, rank, p) && Sized(root, rank, c);
    forall i | 0 <= i < |rep'|
      ensures Sized(root', rank', i)
    {
      LinkClasses(root, p, c, i);
      assert Sized(root, rank, i);
    }
  }

  /** The class of the parent after linking is the disjoint union of the two. */
  lemma LinkClasses(root: seq<nat>, p: nat, c: nat, i: nat)
    requires p < |root| && c < |root| && p != c && root[p] == p
    ensures i == p ==> |Class(Relabel(root, c, p), i)| == |Class(root, p)| + |Class(root, c)|
    ensures i != p && i != c ==> Class(Relabel(root, c, p), i) == Class(root, i)
  {
    var root' := Relabel(root, c, p);
    if i == p {
      assert Class(root', p) == Class(root, p) + Class(root, c);
      assert Class(root, p) !! Class(root, c);
    }
  }

  lemma NewNodeKeeps(rep: seq<nat>, root: seq<nat>, rank: seq<nat>)
    requires Encodes(rep, root, rank) && |rep| < NODE_RANK_MIN
    ensures Encodes(rep + [NODE_RANK_MIN], root + [|rep|], rank + [0])
  {
    var n := |rep|;
    var rep', root', rank' := rep + [NODE_RANK_MIN], root + [n], rank + [0];
    forall i | 0 <= i < n
      ensures Placed(rep', root', rank', i) && Sized(root', rank', i)
    {
      assert Placed(rep, root, rank, i) && Sized(root, rank, i);
      assert Class(root', i) == Class(root, i);
    }
    assert Class(root', n) == {n} by {
      forall i | 0 <= i < n
        ensures root[i] != n
      {
        assert Placed(rep, root, rank, i);
      }
    }
  }

  class Partition {
    /** The parent of each node, or `NODE_RANK_MIN` plus its rank. */
    var rep: seq<nat>
    ghost var root: seq<nat>
    ghost var rank: seq<nat>

    ghost predicate Valid()
      reads this
    {
      Encodes(rep, root, rank)
    }

    /** How much rank is left to climb from `n`. */
    ghost function Climb(n: nat): nat
      requires Valid() && n < |rep|
      reads this
    {
      assert Placed(rep, root, rank, n);
      rank[root[n]] - rank[n]
    }

    /** The nodes below the representative on the way up from `n`. */
    ghost function Way(n: nat): (w: set<nat>)
      requires Valid() && n < |rep|
      reads this
      decreases Climb(n)
    {
      assert Placed(rep, root, rank, n);
      if rep[n] >= NODE_RANK_MIN then {}
      else assert Placed(rep, root, rank, rep[n]); {n} + Way(rep[n])
    }

    /** Every node starts as its own representative, with rank 0. */
    constructor (n: nat)
      requires n <= NODE_RANK_MIN
      ensures Valid()
      ensures |root| == |rep| == n && forall i :: 0 <= i < n ==> root[i] == i
    {
      rep := seq(n, i => NODE_RANK_MIN);
      root := seq(n, i => i);
      rank := seq(n, i => 0);
      new;
      forall i | 0 <= i < n
        ensures Pow2(rank[i]) <= |Class(root, i)|
      {
        assert Class(root, i) == {i};
      }
    }

    /** Adds a node that is its own representative, with rank 0. */
    method AddNode()
      requires Valid() && |rep| < NODE_RANK_MIN
      modifies this
      ensures Valid() && |rep| == |root| == old(|rep|) + 1 && root == old(root + [|rep|])
    {
      NewNodeKeeps(rep, root, rank);
      rep, root, rank := rep + [NODE_RANK_MIN], root + [|rep|], rank + [0];
    }

    /** True exactly on representatives. */
    predicate IsRep(n: nat)
      requires Valid() && n < |rep|
      reads this
      ensures IsRep(n) <==> root[n] == n
    {
      assert Placed(rep, root, rank, n);
      rep[n] >= NODE_RANK_MIN
    }

    /** Finds the representative and compresses the path to it; only parent
        words change, never the partition. */
    method GetRep(n: nat) returns (r: nat)
      requires Valid() && n < |rep|
      modifies this`rep
      ensures Valid() && |rep| == old(|rep|)
      ensures r == root[n]
      ensures forall v :: 0 <= v < |rep| ==> rep[v] == if v in old(Way(n)) then r else old(rep[v])
      decreases Climb(n)
    {
      assert Placed(rep, root, rank, n);
      if rep[n] >= NODE_RANK_MIN {
        return n;
      }
      assert Placed(rep, root, rank, rep[n]);
      r := GetRep(rep[n]);
      assert Placed(rep, root, rank, n);
      CompressKeeps(rep, root, rank, n);
      rep := rep[n := r];
    }

    /** The same without compression. */
    method ConstGetRep(n: nat) returns (r: nat)
      requires Valid() && n < |rep|
      ensures r == root[n]
    {
      r := n;
      while rep[r] < NODE_RANK_MIN
        invariant r < |rep| && root[r] == root[n] && Placed(rep, root, rank, r)
        decreases Climb(r)
      {
        r := rep[r];
        assert Placed(rep, root, rank, r);
      }
    }

    /** Unites two classes given by their representatives; the one of greater
        rank becomes the parent, the first on a tie. */
    method Merge(n1: nat, n2: nat) returns (parent: nat, child: nat)
      requires Valid()
      requires n1 < |rep| && n2 < |rep| && n1 != n2
      requires root[n1] == n1 && root[n2] == n2
      modifies this
      ensures Valid() && |rep| == old(|rep|)
      ensures if old(rep[n1] < rep[n2]) then parent == n2 && child == n1 else parent == n1 && child == n2
      ensures root == Relabel(old(root), child, parent)
      ensures rep[child] == parent && NODE_RANK_MIN <= rep[parent] < WORD
      ensures rep[parent] == old(if rep[n1] == rep[n2] then rep[n1] + 1 else rep[parent])
    {
      var _ := IsRep(n1);
      var _ := IsRep(n2);
      var rank1, rank2 := rep[n1], rep[n2];
      parent, child := n1, n2;
      if rank1 < rank2 {
        parent, child := n2, n1;
      }
      var bump := rank1 == rank2;
      ghost var rank' := if bump then rank[parent := rank[parent] + 1] else rank;
      LinkKeeps(rep, root, rank, parent, child, rank');
      rep, root, rank := LinkWords(rep, parent, child), Relabel(root, child, parent), rank';
      RankFitsWord(rep, root, rank, parent);
      assert Placed(rep, root, rank, parent);
    }
  }
}
