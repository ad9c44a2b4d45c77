/** Labelling the nodes of an offline graph so that nodes with equal labels
    have equal values: hash-based value numbering, and its variant that keeps
    whole sets of labels. */
module OfflineLabels {
  import opened Tarjan
  import opened OfflineGraph
  import opened OfflineSearch
  import opened OfflineCollapse
  import opened OfflineRules
  import opened OfflineSources
  import UnionFind

  class Labeller {
    /** Whether label sets are kept as they are, or numbered. */
    const keepSets: bool
    const uf: UnionFind.Partition
    var direct: seq<set<nat>>
    var implied: seq<set<nat>>
    var labels: seq<set<nat>>
    var indirect: seq<bool>
    var dfsId: seq<nat>
    var sccRoot: set<nat>
    var stack: seq<nat>
    var currDfs: nat
    var nextLabel: nat
    /** The label of each set of incoming labels. */
    var lbl2pe: map<set<nat>, nat>
    ghost const g: Graph
    ghost const val: seq<set<nat>>
    ghost var num: seq<nat>
    ghost var mean: Meaning
    /** When each component was closed. */
    ghost var when: map<nat, nat>
    /** The own label of each indirect component. */
    ghost var own: map<nat, nat>

    ghost function S(): Off
      reads this, uf
    {
      Off(uf.root, direct, implied, labels, indirect, nextLabel, lbl2pe, sccRoot, mean, when)
    }

    ghost function T(path: set<nat>): Search
      reads this
    {
      Search(num, dfsId, path, stack, currDfs)
    }

    ghost predicate Valid()
      reads this, uf
    {
      uf.Valid() && |uf.rep| == |uf.root| && 0 < nextLabel
    }

    constructor (keepSets: bool, g: Graph, nextLabel: nat, ghost val: seq<set<nat>>, ghost mean: Meaning)
      requires Fits(g, val, mean) && |g.direct| <= UnionFind.NODE_RANK_MIN
      requires 0 < nextLabel && forall l :: l in mean ==> 0 < l < nextLabel
      ensures this.keepSets == keepSets && this.g == g && this.val == val && fresh(uf)
      ensures Valid() && OffOk(g, val, S(), T({})) && stack == [] && 0 < currDfs && AllRuled(g, S(), keepSets, own)
    {
      var n := |g.direct|;
      this.keepSets := keepSets;
      uf := new UnionFind.Partition(n);
      direct, implied, labels, indirect := g.direct, g.implied, g.pre, g.indirect;
      dfsId, sccRoot, stack, currDfs := seq(n, i => 0), {}, [], 1;
      this.nextLabel, lbl2pe := nextLabel, map[];
      this.g, this.val, this.mean := g, val, mean;
      num, when, own := seq(n, i => 0), map[], map[];
      new;
      SearchStart(g, val, S(), T({}));
    }

    /** The labels that reach `m` over its edges, added to `pe`. */
    method CollectLabels(m: nat, pe: set<nat>) returns (ls: set<nat>)
      requires Valid() && |labels| == |uf.root| == |direct| && m < |uf.root| && InRange(S(), direct[m])
      modifies uf`rep
      ensures Valid() && S() == old(S())
      ensures ls == pe + Incoming(S(), m, direct[m])
    {
      hide UnionFind.Encodes;
      ls := pe;
      var todo := direct[m];
      while todo != {}
        invariant Valid() && todo <= direct[m]
        invariant ls == pe + Incoming(S(), m, direct[m] - todo)
        decreases todo
      {
        var edge :| edge in todo;
        IncomingMore(S(), m, direct[m] - todo, edge);
        var n2 := uf.GetRep(edge);
        if n2 != m && 0 !in labels[n2] {
          ls := ls + labels[n2];
        }
        todo := todo - {edge};
        assert direct[m] - todo == direct[m] - (todo + {edge}) + {edge};
      }
      assert direct[m] - todo == direct[m];
    }

    /** Labels representative `m` with the union of what reaches it; an
        indirect node adds a label of its own. */
    method HuLabel(m: nat, ghost b: set<nat>) returns (ghost s': Off, ghost ls: set<nat>)
      requires Valid() && Ripe(S(), m, b)
      modifies this`labels, this`nextLabel, this`mean, uf`rep
      ensures Valid() && Ripened(old(S()), m, b, s', ls)
      ensures S() == s'.(labels := s'.labels[m := ls])
      ensures s'.memo == old(lbl2pe) && ls == OrZero(old(labels[m] + Incoming(S(), m, direct[m]) + if indirect[m] then {nextLabel} else {}))
    {
      hide UnionFind.Encodes, TableOk, Worth, Incoming, Ripened;
      var pe := labels[m];
      ghost var s := S();
      ghost var all := pe + Incoming(s, m, direct[m]);
      if indirect[m] {
        pe := pe + {nextLabel};
        mean := mean[nextLabel := b];
        nextLabel := nextLabel + 1;
        SameIncoming(s, S(), m, direct[m]);
      }
      s' := S();
      pe := CollectLabels(m, pe);
      if pe == {} {
        pe := {0};
      }
      ls := pe;
      if s.indirect[m] {
        RipenIndirect(s, m, b, s', all, ls);
      } else {
        IncomingKnown(s, m, b, all);
        DirectWorth(s, all, ls);
        RipenDirect(s, m, b, s', all, ls);
      }
      labels := labels[m := pe];
    }

    /** The label that stands for a set of labels. */
    method NumberSet(pe: set<nat>) returns (ls: set<nat>)
      requires Valid() && TableOk(S()) && forall l :: l in pe ==> l in mean
      modifies this`nextLabel, this`lbl2pe, this`mean
      ensures Valid() && TableOk(S()) && Extends(old(mean), mean) && |ls| == 1 && 0 !in ls
      ensures pe in lbl2pe && ls == {lbl2pe[pe]} && MemoMore(old(S()), S())
      ensures S() == old(S()).(next := nextLabel, memo := lbl2pe, mean := mean)
      ensures KnownLabels(mean, ls) && Worth(mean, ls) == Worth(old(mean), pe)
    {
      hide UnionFind.Encodes, Worth;
      if pe !in lbl2pe {
        MemoTable(S(), pe);
        lbl2pe := lbl2pe[pe := nextLabel];
        mean := mean[nextLabel := Worth(mean, pe)];
        ls := {nextLabel};
        nextLabel := nextLabel + 1;
      } else {
        MemoFound(S(), pe);
        ls := {lbl2pe[pe]};
      }
    }

    /** Labels representative `m` with one label: a new one if it is indirect,
        otherwise the one that reaches it, or the number of the set of those
        that do. */
    method HvnLabel(m: nat, ghost b: set<nat>) returns (ghost s': Off, ghost ls: set<nat>)
      requires Valid() && Ripe(S(), m, b)
      modifies this`labels, this`nextLabel, this`lbl2pe, this`mean, uf`rep
      ensures Valid() && Ripened(old(S()), m, b, s', ls)
      ensures S() == s'.(labels := s'.labels[m := ls])
      ensures |ls| == 1 && ByRule(false, old(S()), m, s', ls)
    {
      hide UnionFind.Encodes, TableOk, Worth, Incoming, Ripened;
      if indirect[m] {
        s', ls := OwnLabel(m, b);
      } else {
        s', ls := DirectLabel(m, b);
      }
    }

    /** Gives `m` a new label. */
    method OwnLabel(m: nat, ghost b: set<nat>) returns (ghost s': Off, ghost ls: set<nat>)
      requires Valid() && Ripe(S(), m, b) && indirect[m]
      modifies this`labels, this`nextLabel, this`mean
      ensures Valid() && Ripened(old(S()), m, b, s', ls)
      ensures S() == s'.(labels := s'.labels[m := ls])
      ensures ls == {old(nextLabel)} && s'.memo == old(lbl2pe)
    {
      hide UnionFind.Encodes, TableOk, Worth, Incoming, Ripened;
      ghost var s := S();
      var l := nextLabel;
      mean := mean[nextLabel := b];
      nextLabel := nextLabel + 1;
      s', ls := S(), {l};
      RipenIndirect(s, m, b, s', s.labels[m] + Incoming(s, m, s.direct[m]), ls);
      labels := labels[m := {l}];
    }

    /** Labels direct node `m` with what reaches it. */
    method DirectLabel(m: nat, ghost b: set<nat>) returns (ghost s': Off, ghost ls: set<nat>)
      requires Valid() && Ripe(S(), m, b) && !indirect[m]
      modifies this`labels, this`nextLabel, this`lbl2pe, this`mean, uf`rep
      ensures Valid() && Ripened(old(S()), m, b, s', ls)
      ensures S() == s'.(labels := s'.labels[m := ls])
      ensures |ls| == 1 && MemoMore(old(S()), s')
      ensures ls == NewLabels(false, old(labels[m] + Incoming(S(), m, direct[m])), false, old(nextLabel), s'.memo)
    {
      hide UnionFind.Encodes, TableOk, Worth, Incoming, Ripened;
      ghost var s := S();
      var pe := CollectLabels(m, labels[m]);
      ghost var all := pe;
      IncomingKnown(s, m, b, all);
      if pe == {} {
        pe := {0};
        DirectWorth(s, all, pe);
      } else if |pe| != 1 {
        pe := NumberSet(pe);
      }
      s', ls := S(), pe;
      RipenDirect(s, m, b, s', all, ls);
      labels := labels[m := pe];
    }

    /** Unites two nodes and what they hold; the one of greater rank becomes the
        parent, the first on a tie. */
    method MergeOffNodes(n1: nat, n2: nat) returns (parent: nat, ghost child: nat)
      requires Valid() && |uf.root| == |direct| == |implied| == |labels| == |indirect|
      requires n1 < |uf.root| && n2 < |uf.root| && n1 != n2 && uf.root[n1] == n1 && uf.root[n2] == n2
      modifies this`direct, this`implied, this`labels, this`indirect, uf
      ensures Valid() && if old(uf.rep[n1] < uf.rep[n2]) then parent == n2 && child == n1 else parent == n1 && child == n2
      ensures |uf.rep| == old(|uf.rep|) && uf.rep[parent] == old(if uf.rep[n1] == uf.rep[n2] then uf.rep[n1] + 1 else uf.rep[parent])
      ensures S() == Merged(old(S()), parent, child)
    {
      var c;
      parent, c := uf.Merge(n1, n2);
      child := c;
      hide UnionFind.Encodes, UnionFind.Relabel;
      direct := direct[parent := direct[parent] + direct[c]][c := {}];
      implied := implied[parent := implied[parent] + implied[c]][c := {}];
      labels := labels[parent := labels[parent] + labels[c]][c := {}];
      indirect := indirect[parent := indirect[parent] || indirect[c]];
    }

    /** Merges the component of `n`, the first visited of it. */
    method PopComponent(n: nat, ourDfs: nat, ghost path: set<nat>, ghost t0: Search) returns (m: nat)
      requires Valid() && AtRoot(g, val, S(), t0, T(path + {n}), n)
      requires n < |num| && ourDfs == num[n]
      modifies this`direct, this`implied, this`labels, this`indirect, this`stack, uf
      ensures Valid() && |t0.stack| <= |old(stack)| && stack == old(stack)[..|t0.stack|]
      ensures Popped(g, old(S()), S(), old(T(path + {n})), n, |t0.stack|, |t0.stack|, m)
    {
      hide UnionFind.Encodes, AtRoot, Popped, Component, Merged;
      ghost var s0, t := S(), T(path + {n});
      ghost var base := |t0.stack|;
      PopStart(g, val, s0, t0, t, n);
      PopGuard(g, val, s0, t0, t, n, |stack|);
      m := n;
      while stack != [] && dfsId[stack[|stack| - 1]] >= ourDfs
        invariant stack != [] ==> stack[|stack| - 1] < |dfsId| && (dfsId[stack[|stack| - 1]] >= ourDfs <==> base < |stack|)
        invariant Valid() && base <= |stack| <= |t.stack| && stack == t.stack[..|stack|]
        invariant Popped(g, s0, S(), t, n, base, |stack|, m)
        decreases |stack|
      {
        var j := |stack|;
        var n2 := stack[j - 1];
        PopNext(g, val, s0, S(), t0, t, n, j, m);
        PoppedSizes(g, s0, S(), t, n, base, j, m);
        stack := stack[..j - 1];
        ghost var s, m0, child := S(), m, 0;
        m, child := MergeOffNodes(m, n2);
        PopMerge(g, val, s0, s, t0, t, n, j, m0, m, child);
        PopGuard(g, val, s0, t0, t, n, j - 1);
      }
    }

    /** Labels representative `m` in the way asked for. */
    method LabelComponent(m: nat, ghost b: set<nat>) returns (ghost s': Off, ghost ls: set<nat>)
      requires Valid() && Ripe(S(), m, b)
      modifies this`labels, this`nextLabel, this`lbl2pe, this`mean, uf`rep
      ensures Valid() && Ripened(old(S()), m, b, s', ls)
      ensures S() == s'.(labels := s'.labels[m := ls]) && ByRule(keepSets, old(S()), m, s', ls)
    {
      hide UnionFind.Encodes, Ripe, Ripened, Incoming;
      InRipe(S(), m, b);
      if keepSets {
        s', ls := HuLabel(m, b);
      } else {
        s', ls := HvnLabel(m, b);
      }
    }

    /** Merges the component of `n`, the first visited of it, and labels the
        node that is left. */
    method Collapse(n: nat, ourDfs: nat, ghost path: set<nat>, ghost t0: Search)
      requires Valid() && AtRoot(g, val, S(), t0, T(path + {n}), n)
      requires n < |num| && ourDfs == num[n] && n !in path && AllRuled(g, S(), keepSets, own)
      modifies this`direct, this`implied, this`labels, this`indirect, this`stack, this`sccRoot,
               this`nextLabel, this`lbl2pe, this`mean, this`when, this`own, uf
      ensures Valid() && Visited(g, val, S(), t0, T(path), n) && AllRuled(g, S(), keepSets, own)
    {
      hide UnionFind.Encodes, AtRoot, Popped, Visited, AllRuled;
      ghost var s0, t := S(), T(path + {n});
      var m := PopComponent(n, ourDfs, path, t0);
      assert path + {n} - {n} == path;
      CloseComponent(n, m, path, t0, s0, t);
    }

    /** Labels the component of `n`, which is merged into `m`. */
    method CloseComponent(ghost n: nat, m: nat, ghost path: set<nat>, ghost t0: Search, ghost s0: Off, ghost t: Search)
      requires Valid() && AtRoot(g, val, s0, t0, t, n) && Popped(g, s0, S(), t, n, |t0.stack|, |t0.stack|, m)
      requires T(path) == Close(t, n, |t0.stack|) && AllRuled(g, s0, keepSets, own)
      modifies this`labels, this`sccRoot, this`nextLabel, this`lbl2pe, this`mean, this`when, this`own, uf`rep
      ensures Valid() && Visited(g, val, S(), t0, T(path), n) && AllRuled(g, S(), keepSets, own)
    {
      hide UnionFind.Encodes, AtRoot, Popped, Ripe, Ripened, Visited, AllRuled, ByRule;
      ghost var s := S();
      PoppedRipe(g, val, s0, s, t0, t, n, m);
      PoppedSizes(g, s0, s, t, n, |t0.stack|, |t0.stack|, m);
      ghost var s1, ls := LabelComponent(m, val[n]);
      sccRoot, when := sccRoot + {m}, when[m := |when|];
      ComponentClosed(g, val, s0, s, t0, t, n, m, s1, ls, keepSets, own);
      own := OwnMore(s, m, own);
    }

    /** Follows the edge from `n` to `dest`. */
    method CheckEdge(n: nat, dest: nat, ghost path: set<nat>, ghost t0: Search, ghost done: set<nat>)
      requires Valid() && Exploring(g, val, S(), t0, T(path + {n}), n, done) && dest in SuccOf(g, n)
      requires 0 < currDfs && AllRuled(g, S(), keepSets, own)
      modifies this, uf
      ensures Valid() && Exploring(g, val, S(), t0, T(path + {n}), n, done + {dest}) && 0 < currDfs && AllRuled(g, S(), keepSets, own)
      decreases Unvisited(num), 4
    {
      hide UnionFind.Encodes, AllRuled, Exploring, Visited, OffOk, Leads, Unvisited;
      ghost var t := T(path + {n});
      EdgeTarget(g, val, S(), t0, t, n, done, dest);
      var n2 := uf.GetRep(dest);
      if n2 == n || n2 in sccRoot {
        ExploreSkip(g, val, S(), t0, t, n, done, dest);
        return;
      }
      ghost var s := S();
      if dfsId[n2] == 0 {
        ExploringOk(g, val, s, t0, t, n, done);
        Dfs(n2, path + {n}, n);
        ExploreChild(g, val, t0, s, t, n, done, S(), T(path + {n}), n2);
      } else {
        ExploreSee(g, val, s, t0, t, n, done, n2);
      }
      if dfsId[n2] < dfsId[n] {
        dfsId := dfsId[n := dfsId[n2]];
      }
    }

    /** Visits `n` and everything it leads to. */
    method Dfs(n: nat, ghost path: set<nat>, ghost from: nat)
      requires Valid() && OffOk(g, val, S(), T(path)) && 0 < n < |num| && num[n] == 0 && 0 < currDfs
      requires path != {} ==> IsTop(T(path), from) && (from, n) in Leads(g)
      requires AllRuled(g, S(), keepSets, own)
      modifies this, uf
      ensures Valid() && Visited(g, val, S(), old(T(path)), T(path), n) && 0 < currDfs && AllRuled(g, S(), keepSets, own)
      decreases Unvisited(num), 3
    {
      hide UnionFind.Encodes, AllRuled, Exploring, Visited, OffOk, Leads, Unvisited, AtRoot;
      ghost var t0 := T(path);
      ExploreStart(g, val, S(), t0, n, from);
      OkSizes(g, val, S(), t0);
      var ourDfs := currDfs;
      currDfs := currDfs + 1;
      dfsId, num := dfsId[n := ourDfs], num[n := ourDfs];
      ExploringFacts(g, val, S(), t0, T(path + {n}), n, {});
      FollowEdges(n, direct[n], path, t0, {});
      assert {} + g.direct[n] == g.direct[n];
      ExploringFacts(g, val, S(), t0, T(path + {n}), n, g.direct[n]);
      FollowEdges(n, implied[n], path, t0, g.direct[n]);
      Leave(n, ourDfs, path, t0);
    }

    /** Follows some edges of `n`. */
    method FollowEdges(n: nat, es: set<nat>, ghost path: set<nat>, ghost t0: Search, ghost done: set<nat>)
      requires Valid() && Exploring(g, val, S(), t0, T(path + {n}), n, done) && es <= SuccOf(g, n) && 0 < currDfs && 0 < t0.clock
      requires AllRuled(g, S(), keepSets, own)
      modifies this, uf
      ensures Valid() && Exploring(g, val, S(), t0, T(path + {n}), n, done + es) && 0 < currDfs && AllRuled(g, S(), keepSets, own)
      decreases Unvisited(t0.num), 2
    {
      hide UnionFind.Encodes, AllRuled, Exploring, OffOk, Leads, Unvisited;
      var todo := es;
      assert done + (es - todo) == done;
      while todo != {}
        invariant Valid() && todo <= es && 0 < currDfs && AllRuled(g, S(), keepSets, own)
        invariant Exploring(g, val, S(), t0, T(path + {n}), n, done + (es - todo))
        decreases todo
      {
        ExploringFacts(g, val, S(), t0, T(path + {n}), n, done + (es - todo));
        var edge :| edge in todo;
        CheckEdge(n, edge, path, t0, done + (es - todo));
        assert done + (es - (todo - {edge})) == done + (es - todo) + {edge};
        todo := todo - {edge};
      }
      assert done + (es - {}) == done + es;
    }

    /** Closes the component of `n`, or leaves `n` on the stack. */
    method Leave(n: nat, ourDfs: nat, ghost path: set<nat>, ghost t0: Search)
      requires Valid() && Exploring(g, val, S(), t0, T(path + {n}), n, SuccOf(g, n)) && t0.path == path && ourDfs == t0.clock
      requires AllRuled(g, S(), keepSets, own)
      modifies this`direct, this`implied, this`labels, this`indirect, this`stack, this`sccRoot,
               this`nextLabel, this`lbl2pe, this`mean, this`when, this`own, uf
      ensures Valid() && Visited(g, val, S(), t0, T(path), n) && AllRuled(g, S(), keepSets, own)
    {
      hide UnionFind.Encodes, AllRuled, Visited, OffOk, Leads, Unvisited;
      ExploringFacts(g, val, S(), t0, T(path + {n}), n, SuccOf(g, n));
      if dfsId[n] == ourDfs {
        Collapse(n, ourDfs, path, t0);
      } else {
        ExplorePushed(g, val, S(), t0, T(path + {n}), n);
        stack := stack + [n];
        assert path + {n} - {n} == path;
      }
    }

    /** Labels every node. */
    method Run()
      requires Valid() && OffOk(g, val, S(), T({})) && stack == [] && 0 < currDfs && AllRuled(g, S(), keepSets, own)
      modifies this, uf
      ensures Valid() && |g.direct| == |uf.root| && AllLabelled(g, val, S()) && AllRuled(g, S(), keepSets, own)
      ensures forall u, v :: 0 < u < |uf.root| && 0 < v < |uf.root| ==>
        (uf.root[u] == uf.root[v] <==> Reach(g, u, v) && Reach(g, v, u))
      ensures keepSets ==> forall u, v :: 0 < u < |uf.root| && 0 < v < |uf.root| ==> SetsExact(g, S(), u, v)
    {
      hide UnionFind.Encodes, AllRuled, Visited, OffOk, Leads, AllLabelled, Reach, SameSources, HasSource;
      OkSizes(g, val, S(), T({}));
      var i := 1;
      while i < |dfsId|
        invariant Valid() && OffOk(g, val, S(), T({})) && stack == [] && 0 < currDfs && 0 < i && AllRuled(g, S(), keepSets, own)
        invariant |dfsId| == |num| == |g.direct| && forall v :: 0 < v < i && v < |num| ==> num[v] > 0
        decreases |g.direct| - i
      {
        VisitedNum(g, val, S(), T({}), i);
        if dfsId[i] == 0 {
          ghost var t0 := T({});
          Dfs(i, {}, 0);
          RootCloses(g, val, S(), t0, T({}), i);
          OkSizes(g, val, S(), T({}));
        }
        i := i + 1;
      }
      OkSizes(g, val, S(), T({}));
      RunEnd(g, val, S(), T({}));
      forall u, v | 0 < u < |uf.root| && 0 < v < |uf.root|
        ensures uf.root[u] == uf.root[v] <==> Reach(g, u, v) && Reach(g, v, u)
      {
        ComponentsExact(g, val, S(), u, v);
      }
      if keepSets {
        forall u, v | 0 < u < |uf.root| && 0 < v < |uf.root|
          ensures SetsExact(g, S(), u, v)
        {
          EqualSets(g, val, S(), own, u, v);
          ZeroMeansNoSource(g, val, S(), own, u);
        }
      }
    }
  }
}
