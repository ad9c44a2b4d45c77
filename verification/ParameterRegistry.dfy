/** The registry of tool parameters: declarations of one parameter in several
    places are merged, and the outcome does not depend on their order. */
module ParameterRegistry {

  datatype ParamType = Bool | Int | UInt | Double | Text | Enum | Unknown

  function TypeIndex(t: ParamType): (i: nat) {
    match t
    case Bool => 0
    case Int => 1
    case UInt => 2
    case Double => 3
    case Text => 4
    case Enum => 5
    case Unknown => 6
  }

  /** The kinds come in the order in which they are declared. */
  lemma KindsInOrder()
    ensures TypeIndex(Bool) < TypeIndex(Int) < TypeIndex(UInt) < TypeIndex(Double) < TypeIndex(Text) < TypeIndex(Enum) < TypeIndex(Unknown)
  {
  }

  datatype Info = Info(
    name: string, kind: ParamType, defaultValue: string, description: string, category: string, declaredIn: string,
    allowed: seq<string>)

  // The order of strings.

  predicate Less(a: string, b: string) {
    if b == [] then false
    else if a == [] then true
    else if a[0] != b[0] then a[0] < b[0]
    else Less(a[1..], b[1..])
  }

  /** Strings are compared at the first place where they differ; a proper
      beginning comes before the whole. */
  lemma {:induction false} LessMeans(a: string, b: string)
    ensures Less(a, b) <==> exists k: nat :: DiffersAt(a, b, k)
  {
    if a != [] && b != [] && a[0] == b[0] {
      LessMeans(a[1..], b[1..]);
      if k: nat :| DiffersAt(a[1..], b[1..], k) {
        DiffersLater(a, b, k);
      }
      if k: nat :| DiffersAt(a, b, k) {
        assert k > 0;
        DiffersLater(a, b, k - 1);
      }
    } else {
      if Less(a, b) {
        assert DiffersAt(a, b, 0);
      }
      if k: nat :| DiffersAt(a, b, k) {
        assert a[..k] == b[..k] && (k > 0 ==> a[..k][0] == b[..k][0]);
      }
    }
  }

  ghost predicate DiffersAt(a: string, b: string, k: nat) {
    && k <= |a| && k <= |b| && a[..k] == b[..k]
    && ((k == |a| && k < |b|) || (k < |a| && k < |b| && a[k] < b[k]))
  }

  lemma DiffersLater(a: string, b: string, k: nat)
    requires a != [] && b != [] && a[0] == b[0]
    ensures DiffersAt(a[1..], b[1..], k) <==> DiffersAt(a, b, k + 1)
  {
    if k + 1 <= |a| && k + 1 <= |b| {
      assert a[..k + 1] == [a[0]] + a[1..][..k] && b[..k + 1] == [b[0]] + b[1..][..k];
      assert a[..k + 1][1..] == a[1..][..k] && b[..k + 1][1..] == b[1..][..k];
    }
  }

  lemma {:induction false} LessTotal(a: string, b: string)
    ensures Less(a, b) || Less(b, a) || a == b
    ensures !(Less(a, b) && Less(b, a)) && !Less(a, a) && (Less(a, b) ==> a != b)
  {
    if a != [] && b != [] && a[0] == b[0] {
      LessTotal(a[1..], b[1..]);
      assert a == [a[0]] + a[1..] && b == [b[0]] + b[1..];
    }
    LessSelf(a);
  }

  lemma {:induction false} LessSelf(a: string)
    ensures !Less(a, a)
  {
    if a != [] {
      LessSelf(a[1..]);
    }
  }

  lemma {:induction false} LessTransitive(a: string, b: string, c: string)
    requires Less(a, b) && Less(b, c)
    ensures Less(a, c)
  {
    if a != [] && a[0] == b[0] && b[0] == c[0] {
      LessTransitive(a[1..], b[1..], c[1..]);
    }
  }

  // Lists of values, sorted and without repetition.

  ghost predicate Sorted(v: seq<string>) {
    forall i, j :: 0 <= i < j < |v| ==> Less(v[i], v[j])
  }

  ghost predicate SortedWeakly(v: seq<string>) {
    forall i, j :: 0 <= i < j < |v| ==> !Less(v[j], v[i])
  }

  ghost predicate SameValues(v: seq<string>, w: seq<string>) {
    forall x :: x in v <==> x in w
  }

  /** A sorted list is determined by its values. */
  lemma {:induction false} SortedUnique(v: seq<string>, w: seq<string>)
    requires Sorted(v) && Sorted(w) && SameValues(v, w)
    ensures v == w
  {
    SameEmpty(v, w);
    if v != [] {
      var m, n := |v| - 1, |w| - 1;
      LastEqual(v, w);
      DropLast(v, w);
      SortedUnique(v[..m], w[..n]);
      assert v == v[..m] + [v[m]] && w == w[..n] + [w[n]];
    }
  }

  lemma SameEmpty(v: seq<string>, w: seq<string>)
    requires SameValues(v, w)
    ensures v == [] <==> w == []
  {
    assert v != [] ==> v[0] in v;
    assert w != [] ==> w[0] in w;
  }

  lemma LastEqual(v: seq<string>, w: seq<string>)
    requires Sorted(v) && Sorted(w) && SameValues(v, w) && v != [] && w != []
    ensures v[|v| - 1] == w[|w| - 1]
  {
    var x, y := v[|v| - 1], w[|w| - 1];
    LessTotal(x, y);
    assert x in w && y in v;
    var i :| 0 <= i < |w| && w[i] == x;
    var j :| 0 <= j < |v| && v[j] == y;
  }

  lemma DropLast(v: seq<string>, w: seq<string>)
    requires Sorted(v) && Sorted(w) && SameValues(v, w) && v != [] && w != [] && v[|v| - 1] == w[|w| - 1]
    ensures Sorted(v[..|v| - 1]) && Sorted(w[..|w| - 1]) && SameValues(v[..|v| - 1], w[..|w| - 1])
  {
    var a, b := v[..|v| - 1], w[..|w| - 1];
    forall x
      ensures x in a <==> x in b
    {
      DropOne(v, x);
      DropOne(w, x);
    }
  }

  lemma DropOne(v: seq<string>, x: string)
    requires Sorted(v) && v != []
    ensures x in v[..|v| - 1] <==> x in v && x != v[|v| - 1]
  {
    var m := |v| - 1;
    assert v == v[..m] + [v[m]];
    if x in v[..m] {
      var i :| 0 <= i < m && v[i] == x;
      LessTotal(v[i], v[m]);
    }
  }

  method SortValues(values: seq<string>) returns (v: seq<string>)
    ensures SortedWeakly(v) && multiset(v) == multiset(values)
  {
    v := [];
    var k := 0;
    while k < |values|
      invariant 0 <= k <= |values| && SortedWeakly(v) && multiset(v) == multiset(values[..k])
    {
      var x := values[k];
      var i := |v|;
      while i > 0 && Less(x, v[i - 1])
        invariant 0 <= i <= |v| && forall j :: i <= j < |v| ==> Less(x, v[j])
      {
        i := i - 1;
      }
      InsertSorted(v, i, x);
      assert v == v[..i] + v[i..] && values[..k + 1] == values[..k] + [x];
      v := v[..i] + [x] + v[i..];
      k := k + 1;
    }
    assert values[..k] == values;
  }

  lemma InsertSorted(v: seq<string>, i: nat, x: string)
    requires SortedWeakly(v) && i <= |v| && (forall j :: i <= j < |v| ==> Less(x, v[j])) && (i > 0 ==> !Less(x, v[i - 1]))
    ensures SortedWeakly(v[..i] + [x] + v[i..])
  {
    var w := v[..i] + [x] + v[i..];
    forall a, b | 0 <= a < b < |w|
      ensures !Less(w[b], w[a])
    {
      if b == i && a < i - 1 {
        assert !Less(v[i - 1], v[a]);
        NotLessChain(x, v[i - 1], v[a]);
      } else if a == i {
        LessTotal(x, v[b - 1]);
      }
    }
  }

  lemma NotLessChain(a: string, b: string, c: string)
    requires !Less(a, b) && !Less(b, c)
    ensures !Less(a, c)
  {
    LessTotal(a, b);
    LessTotal(b, c);
    LessTotal(a, c);
    if Less(a, c) && Less(c, b) {
      LessTransitive(a, c, b);
    }
  }

  /** Removes repetitions from a sorted list. */
  method Unique(values: seq<string>) returns (v: seq<string>)
    requires SortedWeakly(values)
    ensures Sorted(v) && SameValues(v, values)
    ensures |v| <= |values| && (Sorted(values) ==> v == values)
  {
    v := [];
    var k := 0;
    while k < |values|
      invariant 0 <= k <= |values| && Sorted(v) && SameValues(v, values[..k]) && |v| <= k
      invariant k > 0 ==> v != [] && v[|v| - 1] == values[k - 1]
      invariant Sorted(values) ==> v == values[..k]
    {
      assert values[..k + 1] == values[..k] + [values[k]];
      if v == [] || v[|v| - 1] != values[k] {
        UniqueMore(values, v, k);
        v := v + [values[k]];
      } else if k > 0 {
        SortedRepeat(values, k);
      }
      k := k + 1;
    }
    assert values[..k] == values;
  }

  lemma SortedRepeat(values: seq<string>, k: nat)
    requires 0 < k < |values|
    ensures Sorted(values) ==> values[k - 1] != values[k]
  {
    LessTotal(values[k - 1], values[k]);
  }

  lemma UniqueMore(values: seq<string>, v: seq<string>, k: nat)
    requires SortedWeakly(values) && k < |values| && Sorted(v) && (v != [] ==> 0 < k && v[|v| - 1] == values[k - 1] != values[k])
    ensures Sorted(v + [values[k]])
  {
    if v != [] {
      LessTotal(values[k - 1], values[k]);
      forall i | 0 <= i < |v|
        ensures Less(v[i], values[k])
      {
        if i < |v| - 1 {
          LessTransitive(v[i], v[|v| - 1], values[k]);
        }
      }
    }
  }

  method NormalizeAllowedValues(values: seq<string>) returns (v: seq<string>, changed: bool)
    ensures Sorted(v) && SameValues(v, values) && (Sorted(values) ==> v == values)
    ensures changed <==> |v| != |values|
  {
    if values == [] {
      return [], false;
    }
    var s := SortValues(values);
    SameMultiset(s, values);
    v := Unique(s);
    changed := |values| != |v|;
    if Sorted(values) {
      SortedUnique(v, values);
    }
  }

  lemma SameMultiset(v: seq<string>, w: seq<string>)
    requires multiset(v) == multiset(w)
    ensures SameValues(v, w)
  {
    forall x
      ensures x in v <==> x in w
    {
      assert x in v <==> x in multiset(v);
      assert x in w <==> x in multiset(w);
    }
  }

  // Merging one field.

  /** Text `a` is preferred to `b`: anything is preferred to nothing, and
      otherwise what comes first. */
  ghost predicate Preferred(a: string, b: string) {
    b == "" || (a != "" && !Less(b, a))
  }

  lemma PreferredOrder(a: string, b: string, c: string)
    ensures Preferred(a, b) || Preferred(b, a)
    ensures Preferred(a, b) && Preferred(b, a) ==> a == b
    ensures Preferred(a, b) && Preferred(b, c) ==> Preferred(a, c)
    ensures Preferred(a, a)
  {
    LessTotal(a, b);
    LessTotal(a, a);
    if b != "" && c != "" && !Less(b, a) && !Less(c, b) {
      NotLessChain(c, b, a);
    }
  }

  /** `r` is the preferred one of `a` and `b`. */
  ghost predicate PreferredOf(r: string, a: string, b: string) {
    (r == a || r == b) && Preferred(r, a) && Preferred(r, b)
  }

  method MergeString(dst: string, src: string) returns (r: string, changed: bool)
    ensures PreferredOf(r, dst, src) && (changed <==> r != dst)
  {
    LessTotal(dst, src);
    LessTotal(src, src);
    LessTotal(dst, dst);
    if src == "" {
      return dst, false;
    }
    if dst == "" {
      return src, true;
    }
    if dst != src && Less(src, dst) {
      return src, true;
    }
    return dst, false;
  }

  /** The kind that comes first; `Unknown` comes last. */
  method MergeType(dst: ParamType, src: ParamType) returns (r: ParamType, changed: bool)
    ensures (r == dst || r == src) && TypeIndex(r) <= TypeIndex(dst) && TypeIndex(r) <= TypeIndex(src)
    ensures changed <==> r != dst
  {
    if src == Unknown || dst == src {
      return dst, false;
    }
    if dst == Unknown || TypeIndex(src) < TypeIndex(dst) {
      return src, true;
    }
    return dst, false;
  }

  ghost predicate UnionOf(r: seq<string>, a: seq<string>, b: seq<string>) {
    Sorted(r) && forall x :: x in r <==> x in a || x in b
  }

  /** The same, but for a list that nothing is added to, which is left as it is. */
  ghost predicate AllowedOf(r: seq<string>, a: seq<string>, b: seq<string>) {
    if b == [] then r == a else UnionOf(r, a, b)
  }

  method MergeAllowedValues(dst: seq<string>, src: seq<string>) returns (r: seq<string>, changed: bool)
    ensures AllowedOf(r, dst, src)
    ensures changed <==> src != [] && |r| != |dst|
    ensures Sorted(dst) ==> UnionOf(r, dst, src) && (changed <==> r != dst)
  {
    if src == [] {
      return dst, false;
    }
    var v, shorter := NormalizeAllowedValues(dst + src);
    r := v;
    changed := |dst| != |r|;
    if Sorted(dst) && |dst| == |r| {
      SupersetOfSameSize(dst, r);
    }
  }

  /** A sorted list with all values of another and no greater length is that
      list. */
  lemma SupersetOfSameSize(v: seq<string>, w: seq<string>)
    requires Sorted(v) && Sorted(w) && |v| == |w| && forall x :: x in v ==> x in w
    ensures v == w
  {
    var a, b := set x | x in v, set x | x in w;
    SortedSize(v);
    SortedSize(w);
    assert a == b by { SubsetOfSameSize(a, b); }
    SortedUnique(v, w) by {
      forall x
        ensures x in v <==> x in w
      {
        assert x in a <==> x in b;
      }
    }
  }

  lemma SubsetOfSameSize(a: set<string>, b: set<string>)
    requires a <= b && |a| == |b|
    ensures a == b
  {
    assert |b - a| == |b| - |a|;
    assert b == a + (b - a);
  }

  lemma {:induction false} SortedSize(v: seq<string>)
    requires Sorted(v)
    ensures |set x | x in v| == |v|
  {
    if v != [] {
      var m := |v| - 1;
      SortedSize(v[..m]);
      DropOne(v, v[m]);
      assert v == v[..m] + [v[m]];
      assert (set x | x in v) == (set x | x in v[..m]) + {v[m]};
    }
  }

  // Merging declarations.

  /** `r` is what the declarations `a` and `b` amount to together. */
  ghost predicate JoinOf(r: Info, a: Info, b: Info) {
    JoinOfTexts(r, a, b) && UnionOf(r.allowed, a.allowed, b.allowed)
  }

  /** All but the allowed values. */
  ghost predicate JoinOfTexts(r: Info, a: Info, b: Info) {
    && r.name == a.name
    && (r.kind == a.kind || r.kind == b.kind) && TypeIndex(r.kind) <= TypeIndex(a.kind) && TypeIndex(r.kind) <= TypeIndex(b.kind)
    && PreferredOf(r.defaultValue, a.defaultValue, b.defaultValue)
    && PreferredOf(r.description, a.description, b.description)
    && PreferredOf(r.category, a.category, b.category)
    && PreferredOf(r.declaredIn, a.declaredIn, b.declaredIn)
  }

  method MergeInfo(dst: Info, src: Info) returns (r: Info, changed: bool)
    ensures JoinOfTexts(r, dst, src) && AllowedOf(r.allowed, dst.allowed, src.allowed)
    ensures changed <==> r.(allowed := dst.allowed) != dst || (src.allowed != [] && |r.allowed| != |dst.allowed|)
    ensures Sorted(dst.allowed) ==> JoinOf(r, dst, src) && (changed <==> r != dst)
  {
    hide PreferredOf, UnionOf, AllowedOf, TypeIndex;
    var kind, c1 := MergeType(dst.kind, src.kind);
    var defaultValue, c2 := MergeString(dst.defaultValue, src.defaultValue);
    var description, c3 := MergeString(dst.description, src.description);
    var category, c4 := MergeString(dst.category, src.category);
    var declaredIn, c5 := MergeString(dst.declaredIn, src.declaredIn);
    var allowed, c6 := MergeAllowedValues(dst.allowed, src.allowed);
    r := Info(dst.name, kind, defaultValue, description, category, declaredIn, allowed);
    changed := c1 || c2 || c3 || c4 || c5 || c6;
  }

  // What a registry holds after a set of registrations, in any order.

  type Entries = map<string, Info>

  /** Text `r` is the preferred one among field `f` of the declarations `decls`
      of parameter `name`. */
  ghost predicate BestText(r: string, f: Info -> string, decls: set<Info>, name: string) {
    && (exists d :: d in decls && d.name == name && f(d) == r)
    && (forall d :: d in decls && d.name == name ==> Preferred(r, f(d)))
  }

  /** Entry `e` is what the declarations of its parameter amount to. */
  ghost predicate Summarizes(e: Info, decls: set<Info>) {
    && (exists d :: d in decls && d.name == e.name && d.kind == e.kind)
    && (forall d :: d in decls && d.name == e.name ==> TypeIndex(e.kind) <= TypeIndex(d.kind))
    && BestText(e.defaultValue, (d: Info) => d.defaultValue, decls, e.name)
    && BestText(e.description, (d: Info) => d.description, decls, e.name)
    && BestText(e.category, (d: Info) => d.category, decls, e.name)
    && BestText(e.declaredIn, (d: Info) => d.declaredIn, decls, e.name)
    && Sorted(e.allowed)
    && (forall x :: x in e.allowed <==> exists d :: d in decls && d.name == e.name && x in d.allowed)
  }

  ghost predicate Declared(decls: set<Info>, name: string) {
    name != "" && exists d :: d in decls && d.name == name
  }

  /** The registry holds exactly the declared parameters, each with what its
      declarations amount to. */
  ghost predicate Represents(entries: Entries, decls: set<Info>) {
    && (forall name :: name in entries <==> Declared(decls, name))
    && (forall name :: name in entries ==> entries[name].name == name && Summarizes(entries[name], decls))
  }

  lemma BestTextUnique(r: string, r': string, f: Info -> string, decls: set<Info>, name: string)
    requires BestText(r, f, decls, name) && BestText(r', f, decls, name)
    ensures r == r'
  {
    PreferredOrder(r, r', r);
  }

  lemma SummaryUnique(e: Info, e': Info, decls: set<Info>)
    requires Summarizes(e, decls) && Summarizes(e', decls) && e.name == e'.name
    ensures e == e'
  {
    BestTextUnique(e.defaultValue, e'.defaultValue, (d: Info) => d.defaultValue, decls, e.name);
    BestTextUnique(e.description, e'.description, (d: Info) => d.description, decls, e.name);
    BestTextUnique(e.category, e'.category, (d: Info) => d.category, decls, e.name);
    BestTextUnique(e.declaredIn, e'.declaredIn, (d: Info) => d.declaredIn, decls, e.name);
    SortedUnique(e.allowed, e'.allowed);
  }

  /** The registry depends only on the set of declarations. */
  lemma OrderDoesNotMatter(a: Entries, b: Entries, decls: set<Info>)
    requires Represents(a, decls) && Represents(b, decls)
    ensures a == b
  {
    hide Summarizes;
    forall name | name in a
      ensures name in b && a[name] == b[name]
    {
      assert Declared(decls, name);
      SummaryUnique(a[name], b[name], decls);
    }
    assert forall name :: name in b ==> Declared(decls, name) && name in a;
  }

  // One more declaration.

  lemma BestTextOther(r: string, f: Info -> string, decls: set<Info>, name: string, info: Info)
    requires BestText(r, f, decls, name) && info.name != name
    ensures BestText(r, f, decls + {info}, name)
  {
    var d :| d in decls && d.name == name && f(d) == r;
    assert d in decls + {info};
  }

  lemma BestTextMore(r: string, r': string, f: Info -> string, decls: set<Info>, name: string, info: Info)
    requires BestText(r, f, decls, name) && info.name == name && PreferredOf(r', r, f(info))
    ensures BestText(r', f, decls + {info}, name)
  {
    var d :| d in decls && d.name == name && f(d) == r;
    assert d in decls + {info} && info in decls + {info};
    forall c | c in decls + {info} && c.name == name
      ensures Preferred(r', f(c))
    {
      if c in decls {
        PreferredOrder(r', r, f(c));
      }
    }
  }

  lemma SummaryOther(e: Info, decls: set<Info>, info: Info)
    requires Summarizes(e, decls) && info.name != e.name
    ensures Summarizes(e, decls + {info})
  {
    BestTextOther(e.defaultValue, (d: Info) => d.defaultValue, decls, e.name, info);
    BestTextOther(e.description, (d: Info) => d.description, decls, e.name, info);
    BestTextOther(e.category, (d: Info) => d.category, decls, e.name, info);
    BestTextOther(e.declaredIn, (d: Info) => d.declaredIn, decls, e.name, info);
    hide BestText;
    var d :| d in decls && d.name == e.name && d.kind == e.kind;
    assert d in decls + {info};
    forall x
      ensures x in e.allowed <==> exists d :: d in decls + {info} && d.name == e.name && x in d.allowed
    {
      if x in e.allowed {
        var c :| c in decls && c.name == e.name && x in c.allowed;
        assert c in decls + {info};
      }
    }
  }

  lemma SummaryMore(e: Info, e': Info, decls: set<Info>, info: Info, normal: Info)
    requires Summarizes(e, decls) && info.name == e.name && JoinOf(e', e, normal)
    requires normal == info.(allowed := normal.allowed) && SameValues(normal.allowed, info.allowed)
    ensures Summarizes(e', decls + {info})
  {
    BestTextMore(e.defaultValue, e'.defaultValue, (d: Info) => d.defaultValue, decls, e.name, info);
    BestTextMore(e.description, e'.description, (d: Info) => d.description, decls, e.name, info);
    BestTextMore(e.category, e'.category, (d: Info) => d.category, decls, e.name, info);
    BestTextMore(e.declaredIn, e'.declaredIn, (d: Info) => d.declaredIn, decls, e.name, info);
    hide BestText, PreferredOf;
    var d :| d in decls && d.name == e.name && d.kind == e.kind;
    assert d in decls + {info} && info in decls + {info};
    forall x
      ensures x in e'.allowed <==> exists d :: d in decls + {info} && d.name == e.name && x in d.allowed
    {
      if x in e.allowed {
        var c :| c in decls && c.name == e.name && x in c.allowed;
        assert c in decls + {info};
      }
    }
  }

  lemma SummaryFirst(decls: set<Info>, info: Info, normal: Info)
    requires !exists d :: d in decls && d.name == info.name
    requires normal == info.(allowed := normal.allowed) && Sorted(normal.allowed) && SameValues(normal.allowed, info.allowed)
    ensures Summarizes(normal, decls + {info})
  {
    assert info in decls + {info};
    assert forall d :: d in decls + {info} && d.name == info.name ==> d == info;
    PreferredOrder(info.defaultValue, info.defaultValue, info.defaultValue);
    PreferredOrder(info.description, info.description, info.description);
    PreferredOrder(info.category, info.category, info.category);
    PreferredOrder(info.declaredIn, info.declaredIn, info.declaredIn);
  }

  /** Replacing or adding the entry of one parameter. */
  lemma RepresentsMore(entries: Entries, decls: set<Info>, info: Info, e: Info)
    requires Represents(entries, decls) && info.name != "" && e.name == info.name && Summarizes(e, decls + {info})
    ensures Represents(entries[info.name := e], decls + {info})
  {
    hide Summarizes;
    var entries' := entries[info.name := e];
    assert info in decls + {info};
    forall name
      ensures name in entries' <==> Declared(decls + {info}, name)
    {
      if Declared(decls, name) {
        var d :| d in decls && d.name == name;
        assert d in decls + {info};
      }
    }
    forall name | name in entries'
      ensures entries'[name].name == name && Summarizes(entries'[name], decls + {info})
    {
      if name != info.name {
        SummaryOther(entries[name], decls, info);
      }
    }
  }

  lemma RepresentsNameless(entries: Entries, decls: set<Info>, info: Info)
    requires Represents(entries, decls) && info.name == ""
    ensures Represents(entries, decls + {info})
  {
    hide Summarizes;
    forall name
      ensures name in entries <==> Declared(decls + {info}, name)
    {
      if Declared(decls, name) {
        var d :| d in decls && d.name == name;
        assert d in decls + {info};
      }
    }
    forall name | name in entries
      ensures Summarizes(entries[name], decls + {info})
    {
      SummaryOther(entries[name], decls, info);
    }
  }

  class Registry {
    var entries: Entries
    /** The declarations registered so far. */
    ghost var decls: set<Info>

    ghost predicate Valid()
      reads this
    {
      Represents(entries, decls)
    }

    constructor ()
      ensures Valid() && entries == map[] && decls == {}
    {
      entries, decls := map[], {};
    }

    /** Registers a declaration; tells whether that changed anything. */
    method Register(info: Info) returns (changed: bool)
      requires Valid()
      modifies this
      ensures Valid() && decls == old(decls) + {info}
      ensures changed <==> entries != old(entries)
    {
      hide Represents, Summarizes, JoinOf;
      decls := decls + {info};
      if info.name == "" {
        RepresentsNameless(entries, old(decls), info);
        return false;
      }
      var values, shorter := NormalizeAllowedValues(info.allowed);
      var normal := info.(allowed := values);
      Lookup(entries, old(decls), info.name);
      if info.name !in entries {
        SummaryFirst(old(decls), info, normal);
        RepresentsMore(entries, old(decls), info, normal);
        entries := entries[info.name := normal];
        return true;
      }
      var e := entries[info.name];
      var merged;
      merged, changed := MergeInfo(e, normal);
      SummaryMore(e, merged, old(decls), info, normal);
      JoinName(merged, e, normal);
      RepresentsMore(entries, old(decls), info, merged);
      entries := entries[info.name := merged];
      assert !changed ==> entries == old(entries);
      assert changed ==> entries[info.name] != old(entries)[info.name];
    }
  }

  lemma JoinName(r: Info, a: Info, b: Info)
    requires JoinOf(r, a, b)
    ensures r.name == a.name
  {
  }

  lemma Lookup(entries: Entries, decls: set<Info>, name: string)
    requires Represents(entries, decls) && name != ""
    ensures name !in entries ==> !exists d :: d in decls && d.name == name
    ensures name in entries ==> entries[name].name == name && Summarizes(entries[name], decls) && Sorted(entries[name].allowed)
  {
    assert name in entries <==> Declared(decls, name);
  }

  /** Registers a whole list. Two lists of the same declarations, in whatever
      order and however often, leave the same registry. */
  method RegisterAll(list: seq<Info>) returns (entries: Entries)
    ensures Represents(entries, set d | d in list)
  {
    hide Represents;
    var r := new Registry();
    var i := 0;
    while i < |list|
      invariant 0 <= i <= |list| && r.Valid() && r.decls == set d | d in list[..i]
    {
      var changed := r.Register(list[i]);
      assert list[..i + 1] == list[..i] + [list[i]];
      i := i + 1;
    }
    assert list[..i] == list;
    entries := r.entries;
  }
}
