/** Factoring loads and stores that share a pointer through a new node. */
module Factoring {
  import opened Constraints
  import UnionFind

  /** Groups smaller than this are left alone. */
  const FACTOR_MIN_SZ: nat := 2

  /** A system whose constraints are given as a set. */
  datatype Rules = Rules(n: nat, root: seq<nat>, cons: set<Constraint>)

  ghost predicate Formed(r: Rules) {
    && |r.root| == r.n > I2P && LegalPartition(r.root)
    && (forall c :: c in r.cons ==> LegalConstraint(c, r.n) && r.root[c.dest] == c.dest && r.root[c.src] == c.src)
  }

  ghost predicate Solves(r: Rules, s: Assignment) {
    && |s| == r.n == |r.root| && InRange(s)
    && (forall i :: 0 <= i < |s| ==> r.root[i] < |s| && s[i] == s[r.root[i]])
    && (forall c :: c in r.cons ==> c.dest < |s| && c.src < |s| && Satisfied(c, s))
  }

  ghost function SetOf(cons: seq<Constraint>): set<Constraint> {
    set c | c in cons
  }

  ghost function RulesOf(sys: System): Rules {
    Rules(sys.n, sys.root, SetOf(sys.cons))
  }

  lemma SameSolutions(sys: System, s: Assignment)
    ensures Solution(sys, s) <==> Solves(RulesOf(sys), s)
  {
  }

  /** The first `n` nodes, without targets among the others. */
  ghost function Restrict(s: Assignment, n: nat): (t: Assignment)
    requires n <= |s|
  {
    seq(n, i requires 0 <= i < n => set x | x in s[i] && x < n)
  }

  ghost predicate RestrictsTo(a: Rules, b: Rules, s: Assignment) {
    Solves(b, s) ==> |s| == b.n && a.n <= b.n && Solves(a, Restrict(s, a.n))
  }

  ghost predicate ExtendsTo(a: Rules, b: Rules, s: Assignment) {
    Solves(a, s) ==> exists e :: Solves(b, e) && IsPrefix(s, e)
  }

  ghost predicate IsPrefix(s: Assignment, e: Assignment) {
    |s| <= |e| && forall i :: 0 <= i < |s| ==> e[i] == s[i]
  }

  /** Solutions of `b` restrict to solutions of `a`, and solutions of `a`
      extend to solutions of `b`. */
  ghost predicate Conservative(a: Rules, b: Rules) {
    a.n <= b.n && (forall s :: RestrictsTo(a, b, s)) && (forall s :: ExtendsTo(a, b, s))
  }

  lemma ConservativeSelf(a: Rules)
    ensures Conservative(a, a)
  {
  }

  lemma ConservativeTransitive(a: Rules, b: Rules, c: Rules)
    requires Conservative(a, b) && Conservative(b, c)
    ensures Conservative(a, c)
  {
    hide Solves, Restrict;
    forall s
      ensures RestrictsTo(a, c, s)
    {
      assert RestrictsTo(b, c, s);
      if Solves(c, s) {
        assert RestrictsTo(a, b, Restrict(s, b.n));
        RestrictTwice(s, b.n, a.n);
      }
    }
    forall s
      ensures ExtendsTo(a, c, s)
    {
      assert ExtendsTo(a, b, s);
      if Solves(a, s) {
        var e :| Solves(b, e) && IsPrefix(s, e);
        assert ExtendsTo(b, c, e);
        var d :| Solves(c, d) && IsPrefix(e, d);
        assert IsPrefix(s, d);
      }
    }
  }

  lemma RestrictTwice(s: Assignment, m: nat, n: nat)
    requires n <= m <= |s|
    ensures |Restrict(s, m)| == m && Restrict(Restrict(s, m), n) == Restrict(s, n)
  {
    forall i | 0 <= i < n
      ensures Restrict(Restrict(s, m), n)[i] == Restrict(s, n)[i]
    {
    }
  }

  // One group.

  ghost function Loads(ref: nat, others: set<nat>): set<Constraint> {
    set d | d in others :: Load(d, ref)
  }

  ghost function Stores(ref: nat, others: set<nat>): set<Constraint> {
    set o | o in others :: Store(ref, o)
  }

  /** One load into new node `t`, and copies out of it. */
  ghost function LoadsVia(ref: nat, others: set<nat>, t: nat): set<Constraint> {
    {Load(t, ref)} + set d | d in others :: Copy(d, t)
  }

  /** Copies into new node `t`, and one store from it. */
  ghost function StoresVia(ref: nat, others: set<nat>, t: nat): set<Constraint> {
    {Store(ref, t)} + set o | o in others :: Copy(t, o)
  }

  ghost predicate AllSatisfied(cs: set<Constraint>, s: Assignment)
    requires InRange(s)
  {
    forall c :: c in cs ==> c.dest < |s| && c.src < |s| && Satisfied(c, s)
  }

  lemma SolvesParts(r: Rules, x: set<Constraint>, s: Assignment)
    requires InRange(s)
    ensures Solves(r.(cons := r.cons + x), s) <==> Solves(r, s) && AllSatisfied(x, s)
  {
  }

  /** Adding a node leaves the old constraints satisfied. */
  lemma Extended(r: Rules, s: Assignment, v: set<nat>)
    requires Formed(r) && Solves(r, s) && forall x :: x in v ==> x < r.n
    ensures Solves(Rules(r.n + 1, r.root + [r.n], r.cons), s + [v])
  {
  }

  lemma Restricted(r: Rules, e: Assignment)
    requires Formed(r) && Solves(Rules(r.n + 1, r.root + [r.n], r.cons), e)
    ensures Solves(r, Restrict(e, r.n))
  {
    var s, root' := Restrict(e, r.n), r.root + [r.n];
    forall c | c in r.cons
      ensures c.dest < |s| && c.src < |s| && Satisfied(c, s)
    {
      assert Satisfied(c, e) && LegalConstraint(c, r.n);
    }
    forall i | 0 <= i < r.n
      ensures r.root[i] < |s| && s[i] == s[r.root[i]]
    {
      assert root'[i] == r.root[i] && e[i] == e[root'[i]];
    }
  }

  lemma LoadsExtend(r: Rules, s: Assignment, ref: nat, others: set<nat>)
    requires Formed(r) && Solves(r, s) && AllSatisfied(Loads(ref, others), s) && ref < r.n && forall d :: d in others ==> d < r.n
    ensures var e := s + [Deref(s, ref)]; InRange(e) && AllSatisfied(LoadsVia(ref, others, r.n), e)
  {
  }

  lemma LoadsRestrict(r: Rules, e: Assignment, ref: nat, others: set<nat>)
    requires |e| == r.n + 1 && InRange(e) && AllSatisfied(LoadsVia(ref, others, r.n), e) && ref < r.n && forall d :: d in others ==> d < r.n
    ensures AllSatisfied(Loads(ref, others), Restrict(e, r.n))
  {
  }

  ghost function UnionOver(s: Assignment, others: set<nat>): set<nat> {
    set o, x | o in others && o < |s| && x in s[o] :: x
  }

  lemma StoresExtend(r: Rules, s: Assignment, ref: nat, others: set<nat>)
    requires Formed(r) && Solves(r, s) && AllSatisfied(Stores(ref, others), s) && ref < r.n && forall o :: o in others ==> o < r.n
    ensures var e := s + [UnionOver(s, others)]; InRange(e) && AllSatisfied(StoresVia(ref, others, r.n), e)
  {
  }

  lemma StoresRestrict(r: Rules, e: Assignment, ref: nat, others: set<nat>)
    requires |e| == r.n + 1 && InRange(e) && AllSatisfied(StoresVia(ref, others, r.n), e) && ref < r.n && forall o :: o in others ==> o < r.n
    ensures AllSatisfied(Stores(ref, others), Restrict(e, r.n))
  {
  }

  ghost function Group(load: bool, ref: nat, others: set<nat>): set<Constraint> {
    if load then Loads(ref, others) else Stores(ref, others)
  }

  ghost function Via(load: bool, ref: nat, others: set<nat>, t: nat): set<Constraint> {
    if load then LoadsVia(ref, others, t) else StoresVia(ref, others, t)
  }

  /** Factoring one group. */
  lemma FactorGroup(r: Rules, load: bool, ref: nat, others: set<nat>)
    requires Formed(r) && ref < r.n && forall o :: o in others ==> o < r.n
    ensures Conservative(r.(cons := r.cons + Group(load, ref, others)),
              Rules(r.n + 1, r.root + [r.n], r.cons + Via(load, ref, others, r.n)))
  {
    hide Satisfied, Formed, AllSatisfied, LoadsVia, StoresVia, Loads, Stores;
    var a, b := r.(cons := r.cons + Group(load, ref, others)), Rules(r.n + 1, r.root + [r.n], r.cons + Via(load, ref, others, r.n));
    var plain := Rules(r.n + 1, r.root + [r.n], r.cons);
    forall e
      ensures RestrictsTo(a, b, e)
    {
      if Solves(b, e) {
        SolvesParts(plain, Via(load, ref, others, r.n), e);
        Restricted(r, e);
        if load {
          LoadsRestrict(r, e, ref, others);
        } else {
          StoresRestrict(r, e, ref, others);
        }
        SolvesParts(r, Group(load, ref, others), Restrict(e, r.n));
      }
    }
    forall s | Solves(a, s)
      ensures ExtendsTo(a, b, s)
    {
      SolvesParts(r, Group(load, ref, others), s);
      var v := if load then Deref(s, ref) else UnionOver(s, others);
      if load {
        LoadsExtend(r, s, ref, others);
      } else {
        StoresExtend(r, s, ref, others);
      }
      Extended(r, s, v);
      SolvesParts(plain, Via(load, ref, others, r.n), s + [v]);
      assert IsPrefix(s, s + [v]);
    }
    assert forall s :: ExtendsTo(a, b, s);
  }

  // The pass.

  /** What is still to be emitted for the groups of `todo`. */
  ghost function Rest(load: bool, groups: map<nat, set<nat>>, todo: set<nat>): set<Constraint> {
    set ref, o | ref in todo && ref in groups && o in groups[ref] :: if load then Load(o, ref) else Store(ref, o)
  }

  ghost predicate GroupsIn(r: Rules, groups: map<nat, set<nat>>) {
    forall ref :: ref in groups ==> NodeOk(r, ref) && forall o :: o in groups[ref] ==> NodeOk(r, o)
  }

  /** A node that loads and stores may mention. */
  ghost predicate NodeOk(r: Rules, i: nat) {
    0 < i < r.n && i != I2P && |r.root| == r.n && r.root[i] == i
  }

  lemma RestStep(load: bool, groups: map<nat, set<nat>>, todo: set<nat>, ref: nat)
    requires ref in todo && ref in groups
    ensures Rest(load, groups, todo) == Rest(load, groups, todo - {ref}) + Group(load, ref, groups[ref])
  {
  }

  lemma ViaFormed(r: Rules, load: bool, ref: nat, others: set<nat>)
    requires Formed(r) && NodeOk(r, ref) && forall o :: o in others ==> NodeOk(r, o)
    ensures Formed(Rules(r.n + 1, r.root + [r.n], r.cons + Via(load, ref, others, r.n)))
  {
  }

  lemma SetOfMore(cons: seq<Constraint>, c: Constraint)
    ensures SetOf(cons + [c]) == SetOf(cons) + {c}
  {
  }

  function Grouped(load: bool, ref: nat, o: nat): (c: Constraint) {
    if load then Load(o, ref) else Store(ref, o)
  }

  function CopyVia(load: bool, o: nat, t: nat): (c: Constraint) {
    if load then Copy(o, t) else Copy(t, o)
  }

  lemma GroupMore(load: bool, ref: nat, others: set<nat>, o: nat, t: nat)
    ensures Group(load, ref, others + {o}) == Group(load, ref, others) + {Grouped(load, ref, o)}
    ensures Via(load, ref, others + {o}, t) == Via(load, ref, others, t) + {CopyVia(load, o, t)}
  {
  }

  // What is emitted.

  /** What is emitted for one group: through its new node, if it has one. */
  ghost function Emitted(load: bool, ref: nat, others: set<nat>, via: map<nat, nat>): set<Constraint> {
    if ref in via then Via(load, ref, others, via[ref]) else Group(load, ref, others)
  }

  ghost function AllEmitted(load: bool, groups: map<nat, set<nat>>, via: map<nat, nat>, done: set<nat>): set<Constraint> {
    set ref, c | ref in done && ref in groups && c in Emitted(load, ref, groups[ref], via) :: c
  }

  ghost predicate IsLarge(groups: map<nat, set<nat>>, ref: nat) {
    ref in groups && |groups[ref]| >= FACTOR_MIN_SZ
  }

  /** The large groups of `done` have the nodes from `lo` to `hi`, one each. */
  ghost predicate Named(groups: map<nat, set<nat>>, done: set<nat>, via: map<nat, nat>, lo: nat, hi: nat) {
    && (forall ref :: ref in via <==> ref in done && IsLarge(groups, ref))
    && OneEach(via, lo, hi)
  }

  ghost predicate OneEach(via: map<nat, nat>, lo: nat, hi: nat) {
    && lo + |via| == hi
    && (forall ref :: ref in via ==> lo <= via[ref] < hi)
    && (forall a, b :: a in via && b in via && via[a] == via[b] ==> a == b)
  }

  /** What is emitted for a group whose new node, if it gets one, is `t`. */
  ghost function OneEmitted(load: bool, groups: map<nat, set<nat>>, ref: nat, t: nat): set<Constraint>
    requires ref in groups
  {
    if IsLarge(groups, ref) then Via(load, ref, groups[ref], t) else Group(load, ref, groups[ref])
  }

  ghost function ViaMore(groups: map<nat, set<nat>>, via: map<nat, nat>, ref: nat, t: nat): map<nat, nat> {
    if IsLarge(groups, ref) then via[ref := t] else via
  }

  /** The groups of `done` have been emitted on top of `cs0`. */
  ghost predicate HasEmitted(load: bool, groups: map<nat, set<nat>>, done: set<nat>, via: map<nat, nat>, lo: nat, hi: nat,
                             cs0: set<Constraint>, cs: set<Constraint>) {
    Named(groups, done, via, lo, hi) && cs == cs0 + AllEmitted(load, groups, via, done)
  }

  lemma EmittedMore(load: bool, groups: map<nat, set<nat>>, via: map<nat, nat>, done: set<nat>, ref: nat, t: nat, lo: nat,
                    cs0: set<Constraint>, cs: set<Constraint>)
    requires HasEmitted(load, groups, done, via, lo, t, cs0, cs) && ref in groups && ref !in done
    ensures HasEmitted(load, groups, done + {ref}, ViaMore(groups, via, ref, t), lo, if IsLarge(groups, ref) then t + 1 else t,
              cs0, cs + OneEmitted(load, groups, ref, t))
  {
    NamedMore(groups, via, done, ref, t, lo);
    hide Named, OneEmitted;
    AllMore(load, groups, via, done, ref, t);
  }

  lemma NamedMore(groups: map<nat, set<nat>>, via: map<nat, nat>, done: set<nat>, ref: nat, t: nat, lo: nat)
    requires Named(groups, done, via, lo, t) && ref in groups && ref !in done
    ensures Named(groups, done + {ref}, ViaMore(groups, via, ref, t), lo, if IsLarge(groups, ref) then t + 1 else t)
    ensures ref !in via
  {
  }

  lemma AllMore(load: bool, groups: map<nat, set<nat>>, via: map<nat, nat>, done: set<nat>, ref: nat, t: nat)
    requires ref in groups && ref !in done && ref !in via
    ensures AllEmitted(load, groups, ViaMore(groups, via, ref, t), done + {ref}) ==
            AllEmitted(load, groups, via, done) + OneEmitted(load, groups, ref, t)
  {
    var via' := ViaMore(groups, via, ref, t);
    assert Emitted(load, ref, groups[ref], via') == OneEmitted(load, groups, ref, t);
    forall q | q in done && q in groups
      ensures Emitted(load, q, groups[q], via') == Emitted(load, q, groups[q], via)
    {
    }
    hide Via, Group, IsLarge, Emitted, ViaMore, OneEmitted;
    forall c
      ensures c in AllEmitted(load, groups, via', done + {ref}) <==>
        c in AllEmitted(load, groups, via, done) || c in Emitted(load, ref, groups[ref], via')
    {
      if c in AllEmitted(load, groups, via', done + {ref}) {
        var q :| q in done + {ref} && q in groups && c in Emitted(load, q, groups[q], via');
      }
      if c in AllEmitted(load, groups, via, done) {
        var q :| q in done && q in groups && c in Emitted(load, q, groups[q], via);
        assert q in done + {ref} && c in Emitted(load, q, groups[q], via');
      }
    }
  }

  /** Both kinds of groups have been emitted on top of `rest`. */
  ghost predicate BothEmitted(rest: seq<Constraint>, loads: map<nat, set<nat>>, stores: map<nat, set<nat>>, l2t: map<nat, nat>, s2t: map<nat, nat>,
                              n: nat, cons': seq<Constraint>, n': nat) {
    && rest <= cons' && Once(|rest|, cons')
    && Named(loads, loads.Keys, l2t, n, n + |l2t|) && Named(stores, stores.Keys, s2t, n + |l2t|, n')
    && SetOf(cons') == SetOf(rest) + AllEmitted(true, loads, l2t, loads.Keys) + AllEmitted(false, stores, s2t, stores.Keys)
  }

  lemma BothDone(rest: seq<Constraint>, loads: map<nat, set<nat>>, stores: map<nat, set<nat>>, l2t: map<nat, nat>, s2t: map<nat, nat>,
                 n: nat, cs: seq<Constraint>, m: nat, cons': seq<Constraint>, n': nat)
    requires HasEmitted(true, loads, loads.Keys, l2t, n, m, SetOf(rest), SetOf(cs))
    requires HasEmitted(false, stores, stores.Keys, s2t, m, n', SetOf(cs), SetOf(cons'))
    requires rest <= cs <= cons' && Once(|rest|, cons')
    ensures BothEmitted(rest, loads, stores, l2t, s2t, n, cons', n')
  {
    hide SetOf, AllEmitted, Once, IsLarge;
  }

  lemma StoresLeft(loads: map<nat, set<nat>>, stores: map<nat, set<nat>>, l2t: map<nat, nat>, n: nat, m: nat, cs0: set<Constraint>, cs: set<Constraint>)
    requires HasEmitted(true, loads, loads.Keys, l2t, n, m, cs0, cs) && NotYet(false, stores.Keys, cs0)
    ensures NotYet(false, stores.Keys, cs)
  {
    hide NotYet, AllEmitted, Named;
    StoresNotYet(loads, l2t, stores.Keys, cs0);
  }

  /** From position `k` on, nothing is listed twice or was listed before. */
  ghost predicate Once(k: nat, cons: seq<Constraint>) {
    forall i, j :: 0 <= i < j < |cons| && k <= j ==> cons[i] != cons[j]
  }

  lemma OnceMore(k: nat, cons: seq<Constraint>, c: Constraint)
    requires Once(k, cons) && c !in SetOf(cons)
    ensures Once(k, cons + [c])
  {
  }

  /** No load from (or store through) the pointers `refs` is listed yet. */
  ghost predicate NotYet(load: bool, refs: set<nat>, cs: set<Constraint>) {
    forall ref, o :: ref in refs ==> Grouped(load, ref, o) !in cs
  }

  lemma NotYetMore(load: bool, groups: map<nat, set<nat>>, refs: set<nat>, cs: set<Constraint>, ref: nat, t: nat)
    requires NotYet(load, refs, cs) && ref in groups && ref in refs
    ensures NotYet(load, refs - {ref}, cs + OneEmitted(load, groups, ref, t)) && NotYet(load, {ref}, cs)
  {
  }

  lemma NotGrouped(load: bool, ref: nat, others: set<nat>, o: nat, t: nat)
    requires o !in others
    ensures Grouped(load, ref, o) !in Group(load, ref, others) && CopyVia(load, o, t) !in Via(load, ref, others, t)
  {
  }

  lemma StoresNotYet(loads: map<nat, set<nat>>, via: map<nat, nat>, refs: set<nat>, cs: set<Constraint>)
    requires NotYet(false, refs, cs)
    ensures NotYet(false, refs, cs + AllEmitted(true, loads, via, loads.Keys))
  {
    forall ref, o | ref in refs
      ensures Grouped(false, ref, o) !in AllEmitted(true, loads, via, loads.Keys)
    {
    }
  }

  /** A new node is not mentioned. */
  lemma NewIsNew(r: Rules, cs: set<Constraint>, load: bool, ref: nat)
    requires Formed(r) && cs <= r.cons
    ensures (if load then Load(r.n, ref) else Store(ref, r.n)) !in cs && forall o :: CopyVia(load, o, r.n) !in cs
  {
    forall o
      ensures CopyVia(load, o, r.n) !in cs
    {
      assert !LegalConstraint(CopyVia(load, o, r.n), r.n);
    }
    assert !LegalConstraint(if load then Load(r.n, ref) else Store(ref, r.n), r.n);
  }

  lemma EmptyEmitted(load: bool, groups: map<nat, set<nat>>, lo: nat, cs: set<Constraint>)
    ensures HasEmitted(load, groups, {}, map[], lo, lo, cs, cs)
  {
  }

  ghost function RulesAt(root: seq<nat>, cs: seq<Constraint>, more: set<Constraint>): Rules {
    Rules(|root|, root, SetOf(cs) + more)
  }

  /** The groups `todo` are left of a factoring that began with rules `start`
      and the constraints `given` and has come to `root` and `cs`. */
  ghost predicate UnderwayAt(load: bool, groups: map<nat, set<nat>>, more: set<Constraint>, todo: set<nat>, via: map<nat, nat>,
                             start: Rules, given: seq<Constraint>, root: seq<nat>, cs: seq<Constraint>) {
    var now := RulesAt(root, cs, more + Rest(load, groups, todo));
    && todo <= groups.Keys && start.root <= root && |root| + |todo| <= |start.root| + |groups|
    && Formed(now) && Conservative(start, now)
    && given <= cs && NotYet(load, todo, SetOf(cs)) && GroupsIn(RulesAt(root, cs, {}), groups)
    && HasEmitted(load, groups, groups.Keys - todo, via, |start.root|, |root|, SetOf(given), SetOf(cs))
  }

  lemma UnderwayStart(load: bool, groups: map<nat, set<nat>>, more: set<Constraint>, root: seq<nat>, cs: seq<Constraint>)
    requires Formed(RulesAt(root, cs, more)) && GroupsIn(RulesAt(root, cs, more), groups) && NotYet(load, groups.Keys, SetOf(cs))
    ensures UnderwayAt(load, groups, more, groups.Keys, map[], RulesAt(root, cs, more + Rest(load, groups, groups.Keys)), cs, root, cs)
  {
    hide SetOf, Formed, Conservative, Rest, HasEmitted, NotYet;
    var start := RulesAt(root, cs, more + Rest(load, groups, groups.Keys));
    ConservativeSelf(start);
    RestFormed(RulesAt(root, cs, more), load, groups, start);
    EmptyEmitted(load, groups, |root|, SetOf(cs));
    assert groups.Keys - groups.Keys == {};
    assert GroupsIn(RulesAt(root, cs, {}), groups);
  }

  /** What the next group needs. */
  lemma UnderwayReady(load: bool, groups: map<nat, set<nat>>, more: set<Constraint>, todo: set<nat>, via: map<nat, nat>,
                      start: Rules, given: seq<Constraint>, root: seq<nat>, cs: seq<Constraint>, ref: nat)
    requires UnderwayAt(load, groups, more, todo, via, start, given, root, cs) && ref in todo
    ensures var now := RulesAt(root, cs, more + Rest(load, groups, todo - {ref}));
      ref in groups && Formed(now) && NodeOk(now, ref) && forall o :: o in groups[ref] ==> NodeOk(now, o)
    ensures NotYet(load, {ref}, SetOf(cs))
    ensures more + Rest(load, groups, todo) == more + Rest(load, groups, todo - {ref}) + Group(load, ref, groups[ref])
  {
    hide SetOf, Group, Formed, Conservative, Rest, HasEmitted, NotYet, GroupsIn;
    var now := RulesAt(root, cs, more + Rest(load, groups, todo - {ref}));
    RestStep(load, groups, todo, ref);
    assert more + Rest(load, groups, todo) == more + Rest(load, groups, todo - {ref}) + Group(load, ref, groups[ref]);
    FewerFormed(RulesAt(root, cs, more + Rest(load, groups, todo)), now);
    GroupStays(RulesAt(root, cs, {}), now, groups, ref);
    NotYetMore(load, groups, todo, SetOf(cs), ref, 0);
  }

  /** After it. */
  lemma UnderwayMore(load: bool, groups: map<nat, set<nat>>, more: set<Constraint>, todo: set<nat>, via: map<nat, nat>,
                     start: Rules, given: seq<Constraint>, root: seq<nat>, cs: seq<Constraint>, ref: nat, root': seq<nat>, cs': seq<Constraint>)
    requires UnderwayAt(load, groups, more, todo, via, start, given, root, cs) && ref in todo && ref in groups
    requires root <= root' && cs <= cs' && |root'| == |root| + if IsLarge(groups, ref) then 1 else 0
    requires SetOf(cs') == SetOf(cs) + OneEmitted(load, groups, ref, |root|)
    requires Formed(RulesAt(root', cs', more + Rest(load, groups, todo - {ref})))
    requires Conservative(RulesAt(root, cs, more + Rest(load, groups, todo)), RulesAt(root', cs', more + Rest(load, groups, todo - {ref})))
    ensures UnderwayAt(load, groups, more, todo - {ref}, ViaMore(groups, via, ref, |root|), start, given, root', cs')
  {
    hide SetOf, Formed, Conservative, Rest, HasEmitted, NotYet, GroupsIn, OneEmitted, ViaMore;
    NotYetMore(load, groups, todo, SetOf(cs), ref, |root|);
    GroupsMore(RulesAt(root, cs, {}), RulesAt(root', cs', {}), groups);
    ConservativeTransitive(start, RulesAt(root, cs, more + Rest(load, groups, todo)), RulesAt(root', cs', more + Rest(load, groups, todo - {ref})));
    EmittedMore(load, groups, via, groups.Keys - todo, ref, |root|, |start.root|, SetOf(given), SetOf(cs));
    assert groups.Keys - (todo - {ref}) == groups.Keys - todo + {ref};
  }

  lemma UnderwayEnd(load: bool, groups: map<nat, set<nat>>, more: set<Constraint>, via: map<nat, nat>, start: Rules, given: seq<Constraint>,
                    root: seq<nat>, cs: seq<Constraint>)
    requires UnderwayAt(load, groups, more, {}, via, start, given, root, cs)
    ensures Formed(RulesAt(root, cs, more)) && start.root <= root && |root| <= |start.root| + |groups|
    ensures Conservative(start, RulesAt(root, cs, more)) && given <= cs
    ensures HasEmitted(load, groups, groups.Keys, via, |start.root|, |root|, SetOf(given), SetOf(cs))
  {
    hide SetOf, Formed, Conservative, Rest, HasEmitted, NotYet, GroupsIn;
    RestNone(load, groups);
    assert more + Rest(load, groups, {}) == more;
    assert groups.Keys - {} == groups.Keys;
  }

  class Factory {
    const uf: UnionFind.Partition
    var constraints: seq<Constraint>
    /** How many constraints there were at first. */
    ghost const kept: nat

    constructor (constraints: seq<Constraint>, uf: UnionFind.Partition)
      ensures this.constraints == constraints && this.uf == uf && kept == |constraints|
    {
      this.constraints, this.uf, kept := constraints, uf, |constraints|;
    }

    ghost function Now(more: set<Constraint>): Rules
      reads this, uf
    {
      RulesAt(uf.root, constraints, more)
    }

    /** The partition is in order and has room for `k` more nodes; nothing was
        emitted twice. */
    ghost predicate Room(k: nat)
      reads this, uf
    {
      uf.Valid() && |uf.rep| == |uf.root| && |uf.root| + k <= UnionFind.NODE_RANK_MIN && Once(kept, constraints)
    }

    /** Emits the loads from `ref` into `other`, or the stores from `other`
        through `ref`: as they are, or through a new node. */
    method FactorOne(other: set<nat>, ref: nat, load: bool, ghost more: set<Constraint>)
      requires Room(1) && Formed(Now(more)) && NodeOk(Now(more), ref) && forall o :: o in other ==> NodeOk(Now(more), o)
      requires NotYet(load, {ref}, SetOf(constraints))
      modifies this`constraints, uf
      ensures Room(0) && Formed(Now(more)) && old(uf.root) <= uf.root && old(constraints) <= constraints
      ensures |uf.root| == old(|uf.root|) + if |other| < FACTOR_MIN_SZ then 0 else 1
      ensures Conservative(old(Now(more + Group(load, ref, other))), Now(more))
      ensures SetOf(constraints) == old(SetOf(constraints)) +
        if |other| < FACTOR_MIN_SZ then Group(load, ref, other) else Via(load, ref, other, old(|uf.root|))
    {
      hide UnionFind.Encodes, SetOf, Group, Via, Formed, Conservative, Once, CopyVia;
      if |other| < FACTOR_MIN_SZ {
        EmitGroup(other, ref, load);
        assert Now(more).cons == old(Now(more + Group(load, ref, other))).cons;
        ConservativeSelf(Now(more));
        PlainFormed(old(Now(more)), load, ref, other);
        assert Now(more).cons == old(Now(more)).cons + Group(load, ref, other);
      } else {
        var t := |uf.rep|;
        NewIsNew(Now(more), SetOf(constraints), load, ref);
        uf.AddNode();
        var c := if load then Load(t, ref) else Store(ref, t);
        SetOfMore(constraints, c);
        OnceMore(kept, constraints, c);
        ViaNone(load, ref, t);
        constraints := constraints + [c];
        EmitCopies(other, ref, load, t, old(SetOf(constraints)));
        assert Now(more).cons == old(Now(more)).cons + Via(load, ref, other, t);
        FactorGroup(old(Now(more)), load, ref, other);
        ViaFormed(old(Now(more)), load, ref, other);
        assert old(Now(more)).cons + Group(load, ref, other) == old(Now(more + Group(load, ref, other))).cons;
      }
    }

    method EmitGroup(other: set<nat>, ref: nat, load: bool)
      requires Once(kept, constraints) && NotYet(load, {ref}, SetOf(constraints))
      modifies this`constraints
      ensures SetOf(constraints) == old(SetOf(constraints)) + Group(load, ref, other)
      ensures Once(kept, constraints) && old(constraints) <= constraints
    {
      hide SetOf, Group, Via, Once, Grouped;
      var todo := other;
      assert other - todo == {};
      GroupEmpty(load, ref, 0);
      while todo != {}
        invariant todo <= other && SetOf(constraints) == old(SetOf(constraints)) + Group(load, ref, other - todo)
        invariant Once(kept, constraints) && old(constraints) <= constraints
        decreases todo
      {
        var j :| j in todo;
        GroupMore(load, ref, other - todo, j, 0);
        NotGrouped(load, ref, other - todo, j, 0);
        SetOfMore(constraints, Grouped(load, ref, j));
        OnceMore(kept, constraints, Grouped(load, ref, j));
        constraints := constraints + [Grouped(load, ref, j)];
        assert other - todo + {j} == other - (todo - {j});
        todo := todo - {j};
      }
      assert other - todo == other;
    }

    method EmitCopies(other: set<nat>, ref: nat, load: bool, t: nat, ghost before: set<Constraint>)
      requires SetOf(constraints) == before + Via(load, ref, {}, t)
      requires Once(kept, constraints) && forall o :: CopyVia(load, o, t) !in before
      modifies this`constraints
      ensures SetOf(constraints) == before + Via(load, ref, other, t)
      ensures Once(kept, constraints) && old(constraints) <= constraints
    {
      hide SetOf, Group, Via, Once, CopyVia;
      var todo := other;
      assert other - todo == {};
      while todo != {}
        invariant todo <= other && SetOf(constraints) == before + Via(load, ref, other - todo, t)
        invariant Once(kept, constraints) && old(constraints) <= constraints
        decreases todo
      {
        var j :| j in todo;
        GroupMore(load, ref, other - todo, j, t);
        NotGrouped(load, ref, other - todo, j, t);
        SetOfMore(constraints, CopyVia(load, j, t));
        OnceMore(kept, constraints, CopyVia(load, j, t));
        constraints := constraints + [CopyVia(load, j, t)];
        assert other - todo + {j} == other - (todo - {j});
        todo := todo - {j};
      }
      assert other - todo == other;
    }

    /** The groups `todo` are left of a factoring that began with rules `start`
        and the constraints `given`; `via` names the new nodes. */
    ghost predicate Underway(load: bool, groups: map<nat, set<nat>>, more: set<Constraint>, todo: set<nat>, via: map<nat, nat>,
                             start: Rules, given: seq<Constraint>)
      reads this, uf
    {
      Room(|todo|) && UnderwayAt(load, groups, more, todo, via, start, given, uf.root, constraints)
    }

    /** Emits every group; `via` names the new nodes. */
    method FactorAll(groups: map<nat, set<nat>>, load: bool, ghost more: set<Constraint>) returns (ghost via: map<nat, nat>)
      requires Room(|groups|) && Formed(Now(more)) && GroupsIn(Now(more), groups) && NotYet(load, groups.Keys, SetOf(constraints))
      modifies this`constraints, uf
      ensures Room(0) && Formed(Now(more)) && old(uf.root) <= uf.root && |uf.root| <= old(|uf.root|) + |groups|
      ensures Conservative(old(Now(more + Rest(load, groups, groups.Keys))), Now(more)) && old(constraints) <= constraints
      ensures HasEmitted(load, groups, groups.Keys, via, old(|uf.root|), |uf.root|, old(SetOf(constraints)), SetOf(constraints))
    {
      hide UnionFind.Encodes, SetOf, Formed, Conservative, Rest, Once, HasEmitted, NotYet, GroupsIn, UnderwayAt;
      ghost var start, given := Now(more + Rest(load, groups, groups.Keys)), constraints;
      UnderwayStart(load, groups, more, uf.root, constraints);
      via := map[];
      var todo := groups.Keys;
      while todo != {}
        invariant Underway(load, groups, more, todo, via, start, given)
        decreases todo
      {
        var ref :| ref in todo;
        via := FactorNext(groups, load, more, todo, via, ref, start, given);
        todo := todo - {ref};
      }
      UnderwayEnd(load, groups, more, via, start, given, uf.root, constraints);
    }

    /** Emits one group of those that are left. */
    method FactorNext(groups: map<nat, set<nat>>, load: bool, ghost more: set<Constraint>, ghost todo: set<nat>, ghost via: map<nat, nat>,
                      ref: nat, ghost start: Rules, ghost given: seq<Constraint>)
        returns (ghost via': map<nat, nat>)
      requires ref in todo && Underway(load, groups, more, todo, via, start, given)
      modifies this`constraints, uf
      ensures Underway(load, groups, more, todo - {ref}, via', start, given)
    {
      hide UnionFind.Encodes, SetOf, Group, Via, Formed, Conservative, Rest, Once, NotYet, UnderwayAt, NodeOk;
      ghost var root, cs := uf.root, constraints;
      UnderwayReady(load, groups, more, todo, via, start, given, root, cs, ref);
      FactorOne(groups[ref], ref, load, more + Rest(load, groups, todo - {ref}));
      UnderwayMore(load, groups, more, todo, via, start, given, root, cs, ref, uf.root, constraints);
      via' := ViaMore(groups, via, ref, |root|);
    }

    /** Emits the loads, then the stores. */
    method FactorGroups(loads: map<nat, set<nat>>, stores: map<nat, set<nat>>, ghost n: nat, ghost start: Rules)
        returns (ghost l2t: map<nat, nat>, ghost s2t: map<nat, nat>)
      requires Room(|loads| + |stores|) && Formed(Now({})) && GroupsIn(Now({}), loads) && GroupsIn(Now({}), stores)
      requires start == Now(Rest(false, stores, stores.Keys) + Rest(true, loads, loads.Keys))
      requires n == |uf.root| && kept == |constraints| && NotYet(true, loads.Keys, SetOf(constraints)) && NotYet(false, stores.Keys, SetOf(constraints))
      modifies this`constraints, uf
      ensures Room(0) && Formed(Now({})) && old(uf.root) <= uf.root && |uf.root| <= old(|uf.root|) + |loads| + |stores|
      ensures Conservative(start, Now({})) && BothEmitted(old(constraints), loads, stores, l2t, s2t, n, constraints, |uf.root|)
    {
      hide UnionFind.Encodes, Conservative, Formed, Rest, GroupsIn, SetOf, NotYet, Once, HasEmitted, BothEmitted;
      ghost var later := Rest(false, stores, stores.Keys);
      ghost var before, given := Now({}), constraints;
      RestFormed(before, false, stores, Now(later));
      GroupsMore(before, Now(later), loads);
      l2t := FactorAll(loads, true, later);
      ghost var mid, cs, m := Now(later), constraints, |uf.root|;
      StoresLeft(loads, stores, l2t, n, m, SetOf(given), SetOf(cs));
      FewerFormed(mid, Now({}));
      GroupsMore(before, Now({}), stores);
      assert {} + later == later;
      s2t := FactorAll(stores, false, {});
      ConservativeTransitive(start, mid, Now({}));
      BothDone(given, loads, stores, l2t, s2t, n, cs, m, constraints, |uf.root|);
    }
  }

  /** Constraints from groups of proper nodes are proper. */
  lemma RestFormed(r: Rules, load: bool, groups: map<nat, set<nat>>, r': Rules)
    requires Formed(r) && GroupsIn(r, groups) && r'.n == r.n && r'.root == r.root
    requires forall c :: c in r'.cons ==> c in r.cons || c in Rest(load, groups, groups.Keys)
    ensures Formed(r')
  {
  }

  lemma FewerFormed(r: Rules, r': Rules)
    requires Formed(r) && r'.n == r.n && r'.root == r.root && r'.cons <= r.cons
    ensures Formed(r')
  {
  }

  lemma GroupStays(r: Rules, r': Rules, groups: map<nat, set<nat>>, ref: nat)
    requires GroupsIn(r, groups) && ref in groups && r.root <= r'.root && r'.n == |r'.root|
    ensures NodeOk(r', ref) && forall o :: o in groups[ref] ==> NodeOk(r', o)
  {
  }

  lemma ViaNone(load: bool, ref: nat, t: nat)
    ensures Via(load, ref, {}, t) == {if load then Load(t, ref) else Store(ref, t)}
  {
  }

  lemma GroupEmpty(load: bool, ref: nat, t: nat)
    ensures Group(load, ref, {}) == {}
  {
  }

  lemma RestNone(load: bool, groups: map<nat, set<nat>>)
    ensures Rest(load, groups, {}) == {}
  {
  }

  lemma PlainFormed(r: Rules, load: bool, ref: nat, others: set<nat>)
    requires Formed(r) && NodeOk(r, ref) && forall o :: o in others ==> NodeOk(r, o)
    ensures Formed(r.(cons := r.cons + Group(load, ref, others)))
  {
  }

  // Splitting the list.

  /** The constraints that are neither loads nor stores, in their order. */
  function Others(cons: seq<Constraint>): (rest: seq<Constraint>)
    ensures forall c :: c in rest <==> c in cons && !c.Load? && !c.Store?
  {
    if cons == [] then []
    else
      var c := cons[|cons| - 1];
      Others(cons[..|cons| - 1]) + if c.Load? || c.Store? then [] else [c]
  }

  ghost function LoadersOf(cons: seq<Constraint>, ref: nat): set<nat> {
    set c | c in cons && c.Load? && c.src == ref :: c.dest
  }

  ghost function StorersOf(cons: seq<Constraint>, ref: nat): set<nat> {
    set c | c in cons && c.Store? && c.dest == ref :: c.src
  }

  /** The nodes that are loaded from `ref` by, or stored through it from. */
  lemma GroupsExact(cons: seq<Constraint>, loads: map<nat, set<nat>>, stores: map<nat, set<nat>>, rest: seq<Constraint>, ref: nat)
    requires SplitInto(cons, loads, stores, rest)
    ensures LoadersOf(cons, ref) == if ref in loads then loads[ref] else {}
    ensures StorersOf(cons, ref) == if ref in stores then stores[ref] else {}
  {
    forall o
      ensures o in LoadersOf(cons, ref) <==> ref in loads && o in loads[ref]
      ensures o in StorersOf(cons, ref) <==> ref in stores && o in stores[ref]
    {
      assert Load(o, ref) in cons <==> InSplit(Load(o, ref), loads, stores, rest);
      assert Store(ref, o) in cons <==> InSplit(Store(ref, o), loads, stores, rest);
    }
  }

  /** The constraints of the list: those kept in `rest`, and the loads and
      stores by pointer. */
  ghost predicate SplitInto(cons: seq<Constraint>, loads: map<nat, set<nat>>, stores: map<nat, set<nat>>, rest: seq<Constraint>) {
    && (forall c :: c in cons <==> InSplit(c, loads, stores, rest))
    && (forall c :: c in rest ==> !c.Load? && !c.Store?)
    && (forall ref :: ref in loads ==> loads[ref] != {})
    && (forall ref :: ref in stores ==> stores[ref] != {})
  }

  ghost predicate InSplit(c: Constraint, loads: map<nat, set<nat>>, stores: map<nat, set<nat>>, rest: seq<Constraint>) {
    match c
    case Load(d, ref) => ref in loads && d in loads[ref]
    case Store(ref, o) => ref in stores && o in stores[ref]
    case AddrOf(_, _) => c in rest
    case Copy(_, _) => c in rest
  }

  function Insert(groups: map<nat, set<nat>>, ref: nat, o: nat): (r: map<nat, set<nat>>) {
    groups[ref := (if ref in groups then groups[ref] else {}) + {o}]
  }

  method SplitList(cons: seq<Constraint>) returns (loads: map<nat, set<nat>>, stores: map<nat, set<nat>>, rest: seq<Constraint>)
    ensures SplitInto(cons, loads, stores, rest) && rest == Others(cons)
  {
    hide SplitInto;
    loads, stores, rest := map[], map[], [];
    SplitStart();
    var i := 0;
    while i < |cons|
      invariant 0 <= i <= |cons| && SplitInto(cons[..i], loads, stores, rest) && rest == Others(cons[..i])
    {
      var c := cons[i];
      assert cons[..i + 1] == cons[..i] + [c] && cons[..i + 1][..i] == cons[..i];
      SplitMore(cons[..i], loads, stores, rest, c);
      match c {
        case Load(d, ref) => loads := Insert(loads, ref, d);
        case Store(ref, o) => stores := Insert(stores, ref, o);
        case AddrOf(_, _) => rest := rest + [c];
        case Copy(_, _) => rest := rest + [c];
      }
      i := i + 1;
    }
    assert cons[..i] == cons;
  }

  lemma SplitStart()
    ensures SplitInto([], map[], map[], [])
  {
  }

  lemma SplitMore(cons: seq<Constraint>, loads: map<nat, set<nat>>, stores: map<nat, set<nat>>, rest: seq<Constraint>, c: Constraint)
    requires SplitInto(cons, loads, stores, rest)
    ensures SplitInto(cons + [c], if c.Load? then Insert(loads, c.src, c.dest) else loads,
              if c.Store? then Insert(stores, c.dest, c.src) else stores, if c.Load? || c.Store? then rest else rest + [c])
  {
  }

  lemma SplitSets(cons: seq<Constraint>, loads: map<nat, set<nat>>, stores: map<nat, set<nat>>, rest: seq<Constraint>)
    requires SplitInto(cons, loads, stores, rest)
    ensures SetOf(rest) + Rest(false, stores, stores.Keys) + Rest(true, loads, loads.Keys) == SetOf(cons)
  {
  }

  lemma SplitRules(sys: System, loads: map<nat, set<nat>>, stores: map<nat, set<nat>>, rest: seq<Constraint>)
    requires Legal(sys) && SplitInto(sys.cons, loads, stores, rest)
    ensures SetOf(rest) + Rest(false, stores, stores.Keys) + Rest(true, loads, loads.Keys) == SetOf(sys.cons)
    ensures Formed(Rules(sys.n, sys.root, SetOf(rest)))
    ensures GroupsIn(Rules(sys.n, sys.root, SetOf(rest)), loads) && GroupsIn(Rules(sys.n, sys.root, SetOf(rest)), stores)
  {
    var r := Rules(sys.n, sys.root, SetOf(rest));
    SplitSets(sys.cons, loads, stores, rest);
    hide Rest;
    forall ref | ref in loads
      ensures NodeOk(r, ref) && forall o :: o in loads[ref] ==> NodeOk(r, o)
    {
      forall o | o in loads[ref]
        ensures NodeOk(r, ref) && NodeOk(r, o)
      {
        var c := Load(o, ref);
        assert InSplit(c, loads, stores, rest) && LegalConstraint(c, sys.n);
      }
      assert exists o :: o in loads[ref];
    }
    forall ref | ref in stores
      ensures NodeOk(r, ref) && forall o :: o in stores[ref] ==> NodeOk(r, o)
    {
      forall o | o in stores[ref]
        ensures NodeOk(r, ref) && NodeOk(r, o)
      {
        var c := Store(ref, o);
        assert InSplit(c, loads, stores, rest) && LegalConstraint(c, sys.n);
      }
      assert exists o :: o in stores[ref];
    }
  }

  // The least solution.

  /** Factoring does not change what the old nodes point to. */
  lemma LeastAgree(a: System, b: System, s: Assignment)
    requires Legal(a) && Conservative(RulesOf(a), RulesOf(b)) && LeastSolution(b, s)
    ensures a.n <= |s| && LeastSolution(a, s[..a.n])
  {
    hide Solution, Solves, Restrict;
    var t := LeastExists(a);
    SameSolutions(a, t);
    assert ExtendsTo(RulesOf(a), RulesOf(b), t);
    var e :| Solves(RulesOf(b), e) && IsPrefix(t, e);
    SameSolutions(b, e);
    assert Included(s, e);
    SameSolutions(b, s);
    assert RestrictsTo(RulesOf(a), RulesOf(b), s);
    SameSolutions(a, Restrict(s, a.n));
    assert Included(t, Restrict(s, a.n));
    RestrictWithin(s, a.n);
    forall i | 0 <= i < a.n
      ensures s[i] == t[i]
    {
    }
    assert s[..a.n] == t;
  }

  lemma RestrictWithin(s: Assignment, n: nat)
    requires n <= |s|
    ensures |Restrict(s, n)| == n && forall i :: 0 <= i < n ==> Restrict(s, n)[i] <= s[i]
  {
  }

  // The factored list.

  /** Constraint `c` belongs in the factored list: loads and stores of large
      groups go through the group's new node, all else is as it was. */
  ghost predicate InFactored(cons: seq<Constraint>, l2t: map<nat, nat>, s2t: map<nat, nat>, c: Constraint) {
    match c
    case AddrOf(_, _) => c in cons
    case Load(d, ref) => if ref in l2t then d == l2t[ref] else c in cons
    case Store(ref, o) => if ref in s2t then o == s2t[ref] else c in cons
    case Copy(d, o) => c in cons || LoadedVia(cons, l2t, d, o) || StoredVia(cons, s2t, d, o)
  }

  ghost predicate LoadedVia(cons: seq<Constraint>, l2t: map<nat, nat>, d: nat, t: nat) {
    exists ref :: ref in l2t && l2t[ref] == t && Load(d, ref) in cons
  }

  ghost predicate StoredVia(cons: seq<Constraint>, s2t: map<nat, nat>, t: nat, o: nat) {
    exists ref :: ref in s2t && s2t[ref] == t && Store(ref, o) in cons
  }

  /** List `cons'` is the factored form of `cons`: every pointer that at least
      two nodes are loaded from by, or stored through from, has one new node of
      its own, from `n` up to `n'`; nothing new is listed twice. */
  ghost predicate FactoredAs(cons: seq<Constraint>, n: nat, cons': seq<Constraint>, n': nat, l2t: map<nat, nat>, s2t: map<nat, nat>) {
    && (forall ref :: ref in l2t <==> |LoadersOf(cons, ref)| > 1)
    && (forall ref :: ref in s2t <==> |StorersOf(cons, ref)| > 1)
    && OneEach(l2t, n, n + |l2t|) && OneEach(s2t, n + |l2t|, n')
    && (forall c :: c in cons' <==> InFactored(cons, l2t, s2t, c))
    && Others(cons) <= cons' && Once(|Others(cons)|, cons')
  }

  lemma LoadEmitted(loads: map<nat, set<nat>>, via: map<nat, nat>, c: Constraint)
    requires forall ref :: ref in via ==> ref in loads
    ensures c in AllEmitted(true, loads, via, loads.Keys) <==>
      match c
      case Load(d, ref) => ref in loads && (if ref in via then d == via[ref] else d in loads[ref])
      case Copy(d, o) => exists ref :: ref in via && via[ref] == o && d in loads[ref]
      case AddrOf(_, _) => false
      case Store(_, _) => false
  {
    match c
    case Load(d, ref) =>
      if ref in loads {
        assert c in Emitted(true, ref, loads[ref], via) <==> if ref in via then d == via[ref] else d in loads[ref];
      }
    case Copy(d, o) =>
      if ref :| ref in via && via[ref] == o && d in loads[ref] {
        assert c in Emitted(true, ref, loads[ref], via);
      }
    case AddrOf(_, _) =>
    case Store(_, _) =>
  }

  lemma StoreEmitted(stores: map<nat, set<nat>>, via: map<nat, nat>, c: Constraint)
    requires forall ref :: ref in via ==> ref in stores
    ensures c in AllEmitted(false, stores, via, stores.Keys) <==>
      match c
      case Store(ref, o) => ref in stores && (if ref in via then o == via[ref] else o in stores[ref])
      case Copy(d, o) => exists ref :: ref in via && via[ref] == d && o in stores[ref]
      case AddrOf(_, _) => false
      case Load(_, _) => false
  {
    match c
    case Store(ref, o) =>
      if ref in stores {
        assert c in Emitted(false, ref, stores[ref], via) <==> if ref in via then o == via[ref] else o in stores[ref];
      }
    case Copy(d, o) =>
      if ref :| ref in via && via[ref] == d && o in stores[ref] {
        assert c in Emitted(false, ref, stores[ref], via);
      }
    case AddrOf(_, _) =>
    case Load(_, _) =>
  }

  lemma FactoredForm(cons: seq<Constraint>, loads: map<nat, set<nat>>, stores: map<nat, set<nat>>, rest: seq<Constraint>,
                     l2t: map<nat, nat>, s2t: map<nat, nat>, c: Constraint)
    requires SplitInto(cons, loads, stores, rest) && rest == Others(cons)
    requires (forall ref :: ref in l2t ==> ref in loads) && (forall ref :: ref in s2t ==> ref in stores)
    ensures c in SetOf(rest) + AllEmitted(true, loads, l2t, loads.Keys) + AllEmitted(false, stores, s2t, stores.Keys) <==>
      InFactored(cons, l2t, s2t, c)
  {
    hide AllEmitted;
    LoadEmitted(loads, l2t, c);
    StoreEmitted(stores, s2t, c);
    assert c in cons <==> InSplit(c, loads, stores, rest);
    if c.Copy? {
      ViaSplit(cons, loads, stores, rest, l2t, s2t, c.dest, c.src);
    }
    hide SplitInto;
  }

  lemma ViaSplit(cons: seq<Constraint>, loads: map<nat, set<nat>>, stores: map<nat, set<nat>>, rest: seq<Constraint>,
                 l2t: map<nat, nat>, s2t: map<nat, nat>, d: nat, o: nat)
    requires SplitInto(cons, loads, stores, rest)
    requires (forall ref :: ref in l2t ==> ref in loads) && (forall ref :: ref in s2t ==> ref in stores)
    ensures LoadedVia(cons, l2t, d, o) <==> exists ref :: ref in l2t && l2t[ref] == o && d in loads[ref]
    ensures StoredVia(cons, s2t, d, o) <==> exists ref :: ref in s2t && s2t[ref] == d && o in stores[ref]
  {
    forall ref | ref in l2t
      ensures Load(d, ref) in cons <==> d in loads[ref]
    {
      assert Load(d, ref) in cons <==> InSplit(Load(d, ref), loads, stores, rest);
    }
    forall ref | ref in s2t
      ensures Store(ref, o) in cons <==> o in stores[ref]
    {
      assert Store(ref, o) in cons <==> InSplit(Store(ref, o), loads, stores, rest);
    }
  }

  /** Every group is named if it is large. */
  lemma LargeNamed(cons: seq<Constraint>, loads: map<nat, set<nat>>, stores: map<nat, set<nat>>, rest: seq<Constraint>,
                   l2t: map<nat, nat>, s2t: map<nat, nat>, n: nat, m: nat, n': nat)
    requires SplitInto(cons, loads, stores, rest)
    requires Named(loads, loads.Keys, l2t, n, m) && Named(stores, stores.Keys, s2t, m, n')
    ensures forall ref :: ref in l2t <==> |LoadersOf(cons, ref)| >= FACTOR_MIN_SZ
    ensures forall ref :: ref in s2t <==> |StorersOf(cons, ref)| >= FACTOR_MIN_SZ
  {
    hide SplitInto, OneEach, LoadersOf, StorersOf;
    forall ref
      ensures ref in l2t <==> |LoadersOf(cons, ref)| >= FACTOR_MIN_SZ
      ensures ref in s2t <==> |StorersOf(cons, ref)| >= FACTOR_MIN_SZ
    {
      GroupsExact(cons, loads, stores, rest, ref);
    }
  }

  /** Two loads of the factored list never have the same source, and two stores
      never the same destination. */
  lemma OneOfEach(cons: seq<Constraint>, n: nat, cons': seq<Constraint>, n': nat, l2t: map<nat, nat>, s2t: map<nat, nat>, c: Constraint, b: Constraint)
    requires FactoredAs(cons, n, cons', n', l2t, s2t) && c in cons' && b in cons'
    ensures c.Load? && b.Load? && c.src == b.src ==> c == b
    ensures c.Store? && b.Store? && c.dest == b.dest ==> c == b
  {
    assert InFactored(cons, l2t, s2t, c) && InFactored(cons, l2t, s2t, b);
    if c.Load? && b.Load? && c.src == b.src && c.src !in l2t {
      assert c.dest in LoadersOf(cons, c.src) && b.dest in LoadersOf(cons, c.src);
      OneMember(LoadersOf(cons, c.src), c.dest, b.dest);
    }
    if c.Store? && b.Store? && c.dest == b.dest && c.dest !in s2t {
      assert c.src in StorersOf(cons, c.dest) && b.src in StorersOf(cons, c.dest);
      OneMember(StorersOf(cons, c.dest), c.src, b.src);
    }
  }

  lemma OneMember(s: set<nat>, a: nat, b: nat)
    requires |s| < 2 && a in s && b in s
    ensures a == b
  {
    assert |s - {a}| == |s| - 1;
    assert s - {a} == {};
  }

  /** Factoring a constraint list. */
  method FactorLoadsAndStores(cons: seq<Constraint>, uf: UnionFind.Partition, ghost sys: System)
      returns (cons': seq<Constraint>, ghost l2t: map<nat, nat>, ghost s2t: map<nat, nat>)
    requires uf.Valid() && |uf.rep| == |uf.root| && 3 * |uf.root| <= UnionFind.NODE_RANK_MIN
    requires sys == System(|uf.root|, uf.root, cons) && Legal(sys)
    modifies uf
    ensures uf.Valid() && Legal(System(|uf.root|, uf.root, cons')) && sys.root <= uf.root && |uf.root| <= 3 * sys.n
    ensures FactoredAs(cons, sys.n, cons', |uf.root|, l2t, s2t)
    ensures Conservative(RulesOf(sys), RulesOf(System(|uf.root|, uf.root, cons')))
    ensures forall s :: LeastSolution(System(|uf.root|, uf.root, cons'), s) ==> sys.n <= |s| && LeastSolution(sys, s[..sys.n])
  {
    hide UnionFind.Encodes, Conservative, Formed, Rest, GroupsIn, LeastSolution, LegalPartition, SplitInto, NotYet, Once,
      SetOf, FactoredAs, Others, BothEmitted;
    var loads, stores, rest := SplitList(cons);
    SplitRules(sys, loads, stores, rest);
    StartFactory(cons, rest, loads.Keys, stores.Keys);
    cons', l2t, s2t := EmitAll(loads, stores, rest, uf, sys);
    ghost var sys' := System(|uf.root|, uf.root, cons');
    FormedLegal(sys');
    ListFactored(cons, loads, stores, rest, l2t, s2t, sys.n, cons', |uf.root|);
    forall s | LeastSolution(sys', s)
      ensures sys.n <= |s| && LeastSolution(sys, s[..sys.n])
    {
      LeastAgree(sys, sys', s);
    }
  }

  /** Emits the loads and stores on top of the other constraints. */
  method EmitAll(loads: map<nat, set<nat>>, stores: map<nat, set<nat>>, rest: seq<Constraint>, uf: UnionFind.Partition, ghost sys: System)
      returns (cons': seq<Constraint>, ghost l2t: map<nat, nat>, ghost s2t: map<nat, nat>)
    requires uf.Valid() && |uf.rep| == |uf.root| == sys.n && 3 * sys.n <= UnionFind.NODE_RANK_MIN && sys.root == uf.root
    requires Formed(Rules(sys.n, sys.root, SetOf(rest))) && Once(|rest|, rest)
    requires GroupsIn(Rules(sys.n, sys.root, SetOf(rest)), loads) && GroupsIn(Rules(sys.n, sys.root, SetOf(rest)), stores)
    requires SetOf(rest) + Rest(false, stores, stores.Keys) + Rest(true, loads, loads.Keys) == SetOf(sys.cons)
    requires NotYet(true, loads.Keys, SetOf(rest)) && NotYet(false, stores.Keys, SetOf(rest))
    modifies uf
    ensures uf.Valid() && sys.root <= uf.root && |uf.root| <= 3 * sys.n
    ensures Formed(RulesOf(System(|uf.root|, uf.root, cons')))
    ensures Conservative(RulesOf(sys), RulesOf(System(|uf.root|, uf.root, cons')))
    ensures BothEmitted(rest, loads, stores, l2t, s2t, sys.n, cons', |uf.root|)
  {
    hide UnionFind.Encodes, Conservative, Formed, Rest, GroupsIn, NotYet, Once, SetOf, BothEmitted;
    ghost var r := Rules(sys.n, sys.root, SetOf(rest));
    FewGroups(r, loads);
    FewGroups(r, stores);
    var f := new Factory(rest, uf);
    assert SetOf(rest) + {} == SetOf(rest);
    assert f.Now({}) == r;
    ghost var later := Rest(false, stores, stores.Keys) + Rest(true, loads, loads.Keys);
    assert f.Now(later) == RulesOf(sys) by { assert SetOf(rest) + later == SetOf(sys.cons); }
    l2t, s2t := f.FactorGroups(loads, stores, sys.n, RulesOf(sys));
    cons' := f.constraints;
    assert f.Now({}) == RulesOf(System(|uf.root|, uf.root, cons'));
  }

  lemma StartFactory(cons: seq<Constraint>, rest: seq<Constraint>, a: set<nat>, b: set<nat>)
    requires rest == Others(cons)
    ensures Once(|rest|, rest) && NotYet(true, a, SetOf(rest)) && NotYet(false, b, SetOf(rest))
  {
  }

  lemma ListFactored(cons: seq<Constraint>, loads: map<nat, set<nat>>, stores: map<nat, set<nat>>, rest: seq<Constraint>,
                     l2t: map<nat, nat>, s2t: map<nat, nat>, n: nat, cons': seq<Constraint>, n': nat)
    requires SplitInto(cons, loads, stores, rest) && rest == Others(cons) && BothEmitted(rest, loads, stores, l2t, s2t, n, cons', n')
    ensures FactoredAs(cons, n, cons', n', l2t, s2t)
  {
    hide SplitInto, AllEmitted, Once, InFactored, LoadersOf, StorersOf, IsLarge;
    LargeNamed(cons, loads, stores, rest, l2t, s2t, n, n + |l2t|, n');
    forall c
      ensures c in cons' <==> InFactored(cons, l2t, s2t, c)
    {
      FactoredForm(cons, loads, stores, rest, l2t, s2t, c);
      assert c in cons' <==> c in SetOf(cons');
    }
  }

  /** There are no more groups than nodes. */
  lemma FewGroups(r: Rules, groups: map<nat, set<nat>>)
    requires GroupsIn(r, groups)
    ensures |groups| <= r.n
  {
    Below(groups.Keys, r.n);
  }

  lemma {:induction false} Below(s: set<nat>, n: nat)
    requires forall x :: x in s ==> x < n
    ensures |s| <= n
  {
    if n > 0 {
      Below(s - {n - 1}, n - 1);
    }
  }

  lemma GroupsMore(r: Rules, r': Rules, groups: map<nat, set<nat>>)
    requires GroupsIn(r, groups) && r.root <= r'.root && r'.n == |r'.root|
    ensures GroupsIn(r', groups)
  {
  }

  lemma FormedLegal(sys: System)
    requires Formed(RulesOf(sys))
    ensures Legal(sys)
  {
  }
}
