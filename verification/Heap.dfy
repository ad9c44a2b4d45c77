/** An indexed binary min-heap over arrays, and the two-generation worklist of
    the solver built from two of them. */
module Worklists {

  /** Marks a value that is not in the heap. */
  const NONE: nat := 0xffff_ffff

  ghost predicate Distinct(s: seq<nat>) {
    forall i, j :: 0 <= i < j < |s| ==> s[i] != s[j]
  }

  /** Distinct values below m number at most m. */
  lemma {:induction false} Pigeonhole(s: seq<nat>, m: nat)
    requires Distinct(s)
    requires forall i :: 0 <= i < |s| ==> s[i] < m
    ensures |s| <= m
    decreases m
  {
    if s != [] {
      var first := s[0];
      assert first in s;
      if m - 1 in s {
        var k :| 0 <= k < |s| && s[k] == m - 1;
        Pigeonhole(s[..k] + s[k + 1..], m - 1);
      } else {
        Pigeonhole(s, m - 1);
      }
    }
  }

  class Heap {
    /** Keys and values by position; position 0 is unused. */
    var hk: array<nat>
    var hv: array<nat>
    /** The largest value allowed and the number of items. */
    var maxv: nat
    var nv: nat
    /** The position of each value, or NONE. */
    var idxv: array<nat>

    ghost predicate Shaped()
      reads this
    {
      && hk != hv && hk != idxv && hv != idxv
      && hk.Length == hv.Length == maxv + 2
      && idxv.Length == maxv + 1
      && maxv < NONE - 1
      && nv <= maxv + 1
    }

    /** `idxv` is the exact inverse of `hv` on positions 1 to nv. */
    ghost predicate Indexed()
      reads this, hv, idxv
      requires Shaped()
    {
      && (forall i {:trigger hv[i]} :: 1 <= i <= nv ==> hv[i] <= maxv && idxv[hv[i]] == i)
      && (forall v {:trigger idxv[v]} :: 0 <= v <= maxv && idxv[v] != NONE ==> 1 <= idxv[v] <= nv && hv[idxv[v]] == v)
    }

    ghost predicate Ordered()
      reads this, hk
      requires Shaped()
    {
      forall i :: 2 <= i <= nv ==> hk[i / 2] <= hk[i]
    }

    ghost predicate Valid()
      reads this, hk, hv, idxv
    {
      Shaped() && Indexed() && Ordered()
    }

    /** The finite map from values to keys that the arrays stand for. */
    ghost function Contents(): map<nat, nat>
      reads this, hk, hv, idxv
      requires Shaped() && Indexed()
    {
      map v | 0 <= v <= maxv && idxv[v] != NONE :: hk[idxv[v]]
    }

    constructor (mv: nat)
      requires mv < NONE - 1
      ensures Valid() && fresh(hk) && fresh(hv) && fresh(idxv)
      ensures maxv == mv && Contents() == map[]
    {
      maxv := mv;
      nv := 0;
      hk := new nat[mv + 2](_ => 0);
      hv := new nat[mv + 2](_ => 0);
      idxv := new nat[mv + 1](_ => NONE);
    }

    /** Heap order everywhere except between `i` and its parent; the children
        of `i` are not below its parent either. */
    ghost predicate OrderedButUp(i: nat)
      reads this, hk
      requires Shaped()
    {
      && (forall j :: 2 <= j <= nv && j != i ==> hk[j / 2] <= hk[j])
      && (forall j :: 2 <= j <= nv && j / 2 == i && i >= 2 ==> hk[i / 2] <= hk[j])
    }

    /** Heap order everywhere except between `i` and its children. */
    ghost predicate OrderedButDown(i: nat)
      reads this, hk
      requires Shaped()
    {
      && (forall j :: 2 <= j <= nv && j / 2 != i ==> hk[j / 2] <= hk[j])
      && (forall j :: 2 <= j <= nv && j / 2 == i && i >= 2 ==> hk[i / 2] <= hk[j])
    }

    /** Exchanges two positions; the map is unchanged. */
    method SwapItems(i: nat, j: nat)
      requires Shaped() && Indexed() && 1 <= i <= nv && 1 <= j <= nv && i != j
      modifies hk, hv, idxv
      ensures Indexed() && Contents() == old(Contents())
      ensures hk[i] == old(hk[j]) && hk[j] == old(hk[i])
      ensures forall k :: 0 <= k < hk.Length && k != i && k != j ==> hk[k] == old(hk[k])
    {
      ExchangeItems(i, j);
    }

    method ExchangeItems(i: nat, j: nat)
      requires Shaped() && Indexed() && 1 <= i <= nv && 1 <= j <= nv && i != j
      modifies hk, hv, idxv
      ensures Indexed()
      ensures forall v :: 0 <= v <= maxv ==> (idxv[v] == NONE <==> old(idxv[v]) == NONE)
      ensures forall v :: 0 <= v <= maxv && idxv[v] != NONE ==> hk[idxv[v]] == old(hk[idxv[v]])
      ensures hk[i] == old(hk[j]) && hk[j] == old(hk[i])
      ensures forall k :: 0 <= k < hk.Length && k != i && k != j ==> hk[k] == old(hk[k])
    {
      var k, kp := hk[i], hk[j];
      hk[j], hk[i] := k, kp;
      ExchangeValues(i, j);
    }

    method ExchangeValues(i: nat, j: nat)
      requires Shaped() && Indexed() && 1 <= i <= nv && 1 <= j <= nv && i != j
      modifies hv, idxv
      ensures Indexed()
      ensures forall v :: 0 <= v <= maxv ==>
        idxv[v] == if old(idxv[v]) == i then j else if old(idxv[v]) == j then i else old(idxv[v])
    {
      var v, vp := hv[i], hv[j];
      hv[j], hv[i] := v, vp;
      idxv[v], idxv[vp] := j, i;
    }

    method PercUp(i0: nat)
      requires Shaped() && Indexed() && 1 <= i0 <= nv && OrderedButUp(i0)
      modifies hk, hv, idxv
      ensures Valid() && Contents() == old(Contents())
    {
      var i := i0;
      while true
        invariant 1 <= i <= nv
        invariant Indexed() && OrderedButUp(i)
        invariant Contents() == old(Contents())
        decreases i
      {
        var ip := i / 2;
        if ip == 0 {
          return;
        }
        if hk[ip] <= hk[i] {
          return;
        }
        SwapItems(i, ip);
        i := ip;
      }
    }

    /** The child of `i` with the smaller key, the left one on a tie. */
    method SmallerChild(i: nat) returns (ic: nat)
      requires Shaped() && 1 <= i && 2 * i <= nv
      ensures ic == 2 * i || (ic == 2 * i + 1 && ic <= nv)
      ensures forall j :: 2 <= j <= nv && j / 2 == i ==> hk[ic] <= hk[j]
    {
      ic := i * 2;
      if ic < nv && hk[ic + 1] < hk[ic] {
        ic := ic + 1;
      }
      assert forall j :: 2 <= j <= nv && j / 2 == i ==> j == 2 * i || j == 2 * i + 1;
    }

    method PercDn(i0: nat)
      requires Shaped() && Indexed() && 1 <= i0 <= nv && OrderedButDown(i0)
      modifies hk, hv, idxv
      ensures Valid() && Contents() == old(Contents())
    {
      var i := i0;
      while 2 * i <= nv
        invariant 1 <= i <= nv
        invariant Indexed() && OrderedButDown(i)
        invariant Contents() == old(Contents())
        decreases nv - i
      {
        var ic := SmallerChild(i);
        if hk[ic] >= hk[i] {
          return;
        }
        SinkStep(i, ic);
        i := ic;
      }
      assert forall j :: 2 <= j <= nv ==> j / 2 != i;
    }

    /** One downward exchange moves the disorder to the child. */
    method SinkStep(i: nat, ic: nat)
      requires Shaped() && Indexed() && OrderedButDown(i)
      requires 1 <= i && 2 <= ic <= nv && ic / 2 == i && hk[ic] < hk[i]
      requires forall j :: 2 <= j <= nv && j / 2 == i ==> hk[ic] <= hk[j]
      modifies hk, hv, idxv
      ensures Indexed() && OrderedButDown(ic) && Contents() == old(Contents())
    {
      assert i >= 2 ==> hk[i / 2] <= hk[ic];
      SwapItems(i, ic);
      assert forall j :: 2 <= j <= nv && j / 2 == ic ==> hk[j] == old(hk[j]);
    }

    /** Exchanges the arrays and counters of two heaps. */
    method Swap(b: Heap)
      requires b != this && Valid() && b.Valid()
      requires {hk, hv, idxv} !! {b.hk, b.hv, b.idxv}
      modifies this, b
      ensures Valid() && b.Valid()
      ensures Contents() == old(b.Contents()) && b.Contents() == old(Contents())
      ensures hk == old(b.hk) && hv == old(b.hv) && idxv == old(b.idxv) && maxv == old(b.maxv)
      ensures b.hk == old(hk) && b.hv == old(hv) && b.idxv == old(idxv) && b.maxv == old(maxv)
    {
      hk, b.hk := b.hk, hk;
      hv, b.hv := b.hv, hv;
      idxv, b.idxv := b.idxv, idxv;
      maxv, b.maxv := b.maxv, maxv;
      nv, b.nv := b.nv, nv;
    }

    method Empty() returns (e: bool)
      requires Valid()
      ensures e <==> Contents() == map[]
    {
      e := nv == 0;
      if !e {
        assert hv[1] in Contents();
      }
    }

    /** A value that is absent leaves room for one more item. */
    lemma HasRoom(v: nat)
      requires Valid() && v <= maxv && idxv[v] == NONE
      ensures nv < maxv + 1
    {
      var s := hv[1..nv + 1] + [v];
      assert forall i :: 0 <= i < nv ==> s[i] == hv[i + 1];
      forall i, j | 0 <= i < j < |s|
        ensures s[i] != s[j]
      {
        assert idxv[hv[i + 1]] == i + 1;
      }
      Pigeonhole(s, maxv + 1);
    }

    /** Inserts a value, or changes its key if it is there already. */
    method Push(v: nat, k: nat) returns (existed: bool)
      requires Valid() && v <= maxv
      modifies this`nv, hk, hv, idxv
      ensures Valid()
      ensures existed <==> v in old(Contents())
      ensures Contents() == old(Contents())[v := k]
    {
      existed := idxv[v] != NONE;
      if existed {
        Rekey(v, k);
      } else {
        Append(v, k);
      }
    }

    method Append(v: nat, k: nat)
      requires Valid() && v <= maxv && idxv[v] == NONE
      modifies this`nv, hk, hv, idxv
      ensures Valid() && Contents() == old(Contents())[v := k]
    {
      HasRoom(v);
      Place(v, k);
      PercUp(nv);
    }

    /** Writes an item after the last one. */
    method Place(v: nat, k: nat)
      requires Shaped() && Indexed() && nv < maxv + 1 && v <= maxv && idxv[v] == NONE
      modifies this`nv, hk, hv, idxv
      ensures Shaped() && Indexed() && Contents() == old(Contents())[v := k]
      ensures nv == old(nv) + 1 && forall j :: 0 <= j < nv ==> hk[j] == old(hk[j])
    {
      WriteSpare(v, k);
      assert Contents() == old(Contents());
      nv := nv + 1;
      idxv[v] := nv;
    }

    /** Fills the first unused position; nothing refers to it yet. */
    method WriteSpare(v: nat, k: nat)
      requires Shaped() && Indexed() && nv < maxv + 1
      modifies hk, hv
      ensures Indexed() && Contents() == old(Contents())
      ensures hk[nv + 1] == k && hv[nv + 1] == v
      ensures forall j :: 0 <= j <= nv ==> hk[j] == old(hk[j])
    {
      hk[nv + 1] := k;
      hv[nv + 1] := v;
    }

    method Rekey(v: nat, k: nat)
      requires Valid() && v <= maxv && idxv[v] != NONE
      modifies hk, hv, idxv
      ensures Valid() && Contents() == old(Contents())[v := k]
    {
      var i := idxv[v];
      var pk := hk[i];
      if k == pk {
        return;
      }
      hk[i] := k;
      assert Contents() == old(Contents())[v := k];
      if k < pk {
        PercUp(i);
      } else {
        PercDn(i);
      }
    }

    /** The root holds a minimum key. */
    lemma RootIsMin(i: nat)
      requires Valid() && 1 <= i <= nv
      ensures hk[1] <= hk[i]
      decreases i
    {
      if i > 1 {
        RootIsMin(i / 2);
      }
    }

    /** Removes an entry of minimum key. */
    method Pop() returns (v: nat, k: nat)
      requires Valid() && Contents() != map[]
      modifies this`nv, hk, hv, idxv
      ensures Valid()
      ensures v in old(Contents()) && k == old(Contents())[v]
      ensures forall u :: u in old(Contents()) ==> k <= old(Contents())[u]
      ensures Contents() == old(Contents()) - {v}
    {
      forall i | 1 <= i <= nv
        ensures hk[1] <= hk[i]
      {
        RootIsMin(i);
      }
      k, v := hk[1], hv[1];
      DropRoot();
      if nv != 0 {
        PercDn(1);
      }
    }

    /** Forgets the root and moves the last item into its place. */
    method DropRoot()
      requires Valid() && 1 <= nv
      modifies this`nv, hk, hv, idxv
      ensures Shaped() && Indexed() && OrderedButDown(1)
      ensures Contents() == old(Contents()) - {old(hv[1])}
    {
      idxv[hv[1]] := NONE;
      nv := nv - 1;
      if nv != 0 {
        MoveLast();
      }
      assert forall j :: 2 <= j <= nv ==> hk[j] == old(hk[j]);
    }

    /** Copies the item after the last one to the vacant root. */
    method MoveLast()
      requires Shaped() && 1 <= nv < maxv + 1
      requires forall i {:trigger hv[i]} :: 2 <= i <= nv + 1 ==> hv[i] <= maxv && idxv[hv[i]] == i
      requires forall v {:trigger idxv[v]} :: 0 <= v <= maxv && idxv[v] != NONE ==> 2 <= idxv[v] <= nv + 1 && hv[idxv[v]] == v
      modifies hk, hv, idxv
      ensures Indexed()
      ensures forall v :: 0 <= v <= maxv ==> (idxv[v] == NONE <==> old(idxv[v]) == NONE)
      ensures forall v :: 0 <= v <= maxv && idxv[v] != NONE ==> hk[idxv[v]] == old(hk[idxv[v]])
      ensures forall j :: 2 <= j <= nv ==> hk[j] == old(hk[j])
    {
      hk[1] := hk[nv + 1];
      var lv := hv[nv + 1];
      hv[1] := lv;
      idxv[lv] := 1;
    }
  }

  /** Pushes go to the next generation, pops come from the current one, and
      the two are exchanged when the current one runs out. */
  class Worklist {
    const curr: Heap
    const next: Heap
    ghost const Repr: set<object>
    ghost const bound: nat
    ghost var now: map<nat, nat>
    ghost var later: map<nat, nat>

    ghost predicate Separate()
      reads this, curr, next
    {
      && this in Repr && curr in Repr && next in Repr && curr != next
      && {curr.hk, curr.hv, curr.idxv} <= Repr && {next.hk, next.hv, next.idxv} <= Repr
      && {curr.hk, curr.hv, curr.idxv} !! {next.hk, next.hv, next.idxv}
      && curr.maxv == next.maxv == bound
    }

    ghost predicate Valid()
      reads this, Repr, curr, next
    {
      && Separate()
      && curr.Valid() && next.Valid()
      && now == curr.Contents() && later == next.Contents()
    }

    constructor (nn: nat)
      requires nn < NONE - 1
      ensures Valid() && fresh(Repr)
      ensures bound == nn && now == map[] && later == map[]
    {
      var c := new Heap(nn);
      var n := new Heap(nn);
      curr, next := c, n;
      Repr := {this, c, n, c.hk, c.hv, c.idxv, n.hk, n.hv, n.idxv};
      bound := nn;
      now, later := map[], map[];
    }

    method Empty() returns (e: bool)
      requires Valid()
      ensures e <==> now == map[]
    {
      e := curr.Empty();
    }

    method SwapIfEmpty() returns (swapped: bool)
      requires Valid()
      modifies Repr
      ensures Valid()
      ensures swapped <==> old(now) == map[]
      ensures swapped ==> now == old(later) && later == map[]
      ensures !swapped ==> now == old(now) && later == old(later)
    {
      hide Heap.Ordered, Heap.Indexed, Heap.Shaped;
      swapped := curr.Empty();
      if swapped {
        curr.Swap(next);
        now, later := later, now;
      }
    }

    /** Queues a node for the next pass, replacing an older entry for it. */
    method Push(n: nat, p: nat)
      requires Valid() && n <= bound
      modifies Repr
      ensures Valid()
      ensures now == old(now) && later == old(later)[n := p]
    {
      var _ := next.Push(n, p);
      later := later[n := p];
    }

    /** Takes an entry of least priority from the current pass. */
    method Pop() returns (n: nat, p: nat)
      requires Valid() && now != map[]
      modifies Repr
      ensures Valid()
      ensures n in old(now) && p == old(now)[n] && n <= bound
      ensures forall m :: m in old(now) ==> p <= old(now)[m]
      ensures now == old(now) - {n} && later == old(later)
    {
      n, p := curr.Pop();
      now := now - {n};
    }
  }
}
