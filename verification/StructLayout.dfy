/** Flattening nested structs: where each field starts, and how large the
    struct is that starts at each place. */
module StructLayout {

  /** Types as the analysis sees them. */
  datatype Ty = Simple | Array(elem: Ty) | Struct(fields: seq<Ty>)

  /** An array counts as a single element of its type. */
  function Elem(t: Ty): (e: Ty)
    ensures !e.Array? && (e == t || e < t)
  {
    if t.Array? then Elem(t.elem) else t
  }

  // The reference: the simple values inside a type, in order.

  /** A way down to a simple value: a field number for every struct. An empty
      struct has one value of its own. */
  type Path = seq<nat>

  ghost function Leaves(t: Ty): (r: seq<Path>)
    ensures |r| >= 1
    decreases t, 2, 0
  {
    match t
    case Simple => [[]]
    case Array(e) => Leaves(e)
    case Struct(fs) => if fs == [] then [[]] else FieldLeaves(t, 0)
  }

  /** The values of the fields from `i` on. */
  ghost function FieldLeaves(t: Ty, i: nat): (r: seq<Path>)
    requires t.Struct? && i <= |t.fields|
    ensures i < |t.fields| ==> |r| >= 1
    decreases t, 1, |t.fields| - i
  {
    if i == |t.fields| then [] else Under(i, Leaves(t.fields[i])) + FieldLeaves(t, i + 1)
  }

  /** The same ways down, starting with field `i`. */
  ghost function Under(i: nat, ps: seq<Path>): (r: seq<Path>)
    ensures |r| == |ps|
  {
    seq(|ps|, k requires 0 <= k < |ps| => [i] + ps[k])
  }

  lemma {:induction false} ElemLeaves(t: Ty)
    ensures Leaves(Elem(t)) == Leaves(t)
  {
    if t.Array? {
      ElemLeaves(t.elem);
    }
  }

  // What the analysis records.

  /** The sizes recorded for one field. */
  ghost function Piece(t: Ty): (r: seq<nat>)
    ensures |r| >= 1
    decreases t, 3, 0
  {
    var e := Elem(t);
    if e.Struct? then SizesOf(e) else [1]
  }

  /** The sizes of the fields from `i` on. */
  ghost function Pieces(t: Ty, i: nat): (r: seq<nat>)
    requires t.Struct? && i <= |t.fields|
    ensures i < |t.fields| ==> |r| >= 1
    decreases t, 1, |t.fields| - i
  {
    if i == |t.fields| then [] else Piece(t.fields[i]) + Pieces(t, i + 1)
  }

  /** For each place of the flattened struct, the size of the largest struct
      that starts there. */
  ghost function SizesOf(t: Ty): (r: seq<nat>)
    requires t.Struct?
    ensures |r| >= 1
    decreases t, 2, 0
  {
    if t.fields == [] then [1] else var p := Pieces(t, 0); p[0 := |p|]
  }

  /** Where field `i` starts. */
  ghost function OffsetOf(t: Ty, i: nat): (r: nat)
    requires t.Struct? && i <= |t.fields|
  {
    if i == 0 then 0 else OffsetOf(t, i - 1) + |Piece(t.fields[i - 1])|
  }

  ghost function OffsetsOf(t: Ty): (r: seq<nat>)
    requires t.Struct?
  {
    if t.fields == [] then [0] else seq(|t.fields|, i requires 0 <= i < |t.fields| => OffsetOf(t, i))
  }

  /** As many places as simple values. */
  lemma {:induction false} AsManyPlaces(t: Ty)
    ensures |Piece(t)| == |Leaves(t)|
    decreases t, 2, 0
  {
    ElemLeaves(t);
    var e := Elem(t);
    if e.Struct? && e.fields != [] {
      AsManyInFields(e, 0);
    }
  }

  lemma {:induction false} AsManyInFields(t: Ty, i: nat)
    requires t.Struct? && i <= |t.fields|
    ensures |Pieces(t, i)| == |FieldLeaves(t, i)|
    decreases t, 1, |t.fields| - i
  {
    if i < |t.fields| {
      AsManyPlaces(t.fields[i]);
      AsManyInFields(t, i + 1);
    }
  }

  /** Every place holds the size of something that fits there. */
  ghost predicate Fitting(sz: seq<nat>) {
    forall k :: 0 <= k < |sz| ==> 1 <= sz[k] <= |sz| - k
  }

  lemma FittingConcat(a: seq<nat>, b: seq<nat>)
    requires Fitting(a) && Fitting(b)
    ensures Fitting(a + b)
  {
  }

  /** The whole is recorded at place 0, and nothing leaves the struct. */
  lemma {:induction false} SizesFit(t: Ty)
    ensures Fitting(Piece(t)) && Piece(t)[0] == |Piece(t)|
    decreases t, 2, 0
  {
    var e := Elem(t);
    if e.Struct? && e.fields != [] {
      PiecesFit(e, 0);
    }
  }

  lemma {:induction false} PiecesFit(t: Ty, i: nat)
    requires t.Struct? && i <= |t.fields|
    ensures Fitting(Pieces(t, i))
    decreases t, 1, |t.fields| - i
  {
    if i < |t.fields| {
      SizesFit(t.fields[i]);
      PiecesFit(t, i + 1);
      FittingConcat(Piece(t.fields[i]), Pieces(t, i + 1));
    }
  }

  // Fields of fields.

  ghost predicate ValidPath(t: Ty, path: seq<nat>)
    decreases |path|
  {
    path != [] ==>
      match t
      case Simple => false
      case Array(e) => ValidPath(e, path[1..])
      case Struct(fs) => path[0] < |fs| && ValidPath(fs[path[0]], path[1..])
  }

  /** The type that a path leads to. */
  ghost function Sub(t: Ty, path: seq<nat>): (s: Ty)
    requires ValidPath(t, path)
    decreases |path|
  {
    if path == [] then t
    else match t
      case Array(e) => Sub(e, path[1..])
      case Struct(fs) => Sub(fs[path[0]], path[1..])
  }

  /** The offsets along a path, added up; array indices count nothing. */
  ghost function PathOffset(t: Ty, path: seq<nat>): (o: nat)
    requires ValidPath(t, path)
    decreases |path|
  {
    if path == [] then 0
    else match t
      case Array(e) => PathOffset(e, path[1..])
      case Struct(fs) => OffsetOf(t, path[0]) + PathOffset(fs[path[0]], path[1..])
  }

  /** The fields that a path goes through. */
  ghost function FieldsOf(t: Ty, path: seq<nat>): (p: Path)
    requires ValidPath(t, path)
    decreases |path|
  {
    if path == [] then []
    else match t
      case Array(e) => FieldsOf(e, path[1..])
      case Struct(fs) => [path[0]] + FieldsOf(fs[path[0]], path[1..])
  }

  /** From place `o` on, `big` lists what `small` does, below `p`. */
  ghost predicate Holds(big: seq<Path>, o: nat, p: Path, small: seq<Path>) {
    o + |small| <= |big| && forall k :: 0 <= k < |small| ==> big[o + k] == p + small[k]
  }

  /** Field `i` starts where the values of the fields before it end. */
  lemma {:induction false} FieldStarts(t: Ty, i: nat, j: nat)
    requires t.Struct? && i <= j < |t.fields|
    ensures OffsetOf(t, i) <= OffsetOf(t, j)
    ensures Holds(FieldLeaves(t, i), OffsetOf(t, j) - OffsetOf(t, i), [j], Leaves(t.fields[j]))
    decreases j - i
  {
    AsManyPlaces(t.fields[i]);
    if i < j {
      FieldStarts(t, i + 1, j);
    }
  }

  lemma HoldsChain(a: seq<Path>, o: nat, p: Path, b: seq<Path>, o': nat, p': Path, c: seq<Path>)
    requires Holds(a, o, p, b) && Holds(b, o', p', c)
    ensures Holds(a, o + o', p + p', c)
  {
  }

  /** Adding up the offsets along a path leads to the place where the values of
      its target start, all of which are inside. */
  lemma {:induction false} PathLands(t: Ty, path: seq<nat>)
    requires ValidPath(t, path)
    ensures Holds(Leaves(t), PathOffset(t, path), FieldsOf(t, path), Leaves(Sub(t, path)))
    decreases |path|
  {
    if path != [] {
      match t
      case Array(e) => PathLands(e, path[1..]);
      case Struct(fs) =>
        var f := path[0];
        PathLands(fs[f], path[1..]);
        FieldStarts(t, 0, f);
        HoldsChain(Leaves(t), OffsetOf(t, f), [f], Leaves(fs[f]),
          PathOffset(fs[f], path[1..]), FieldsOf(fs[f], path[1..]), Leaves(Sub(t, path)));
    }
  }

  /** The size recorded there covers the target. */
  lemma {:induction false} PathSize(t: Ty, path: seq<nat>)
    requires ValidPath(t, path)
    ensures PathOffset(t, path) < |Piece(t)| && |Piece(Sub(t, path))| <= Piece(t)[PathOffset(t, path)]
    decreases |path|
  {
    SizesFit(t);
    if path != [] {
      match t
      case Array(e) => PathSize(e, path[1..]);
      case Struct(fs) =>
        var f := path[0];
        PathSize(fs[f], path[1..]);
        PieceAt(t, 0, f, PathOffset(fs[f], path[1..]));
        SizesFit(fs[f]);
        PieceInside(t, path);
    }
  }

  /** The sizes of field `j` in those of the struct. */
  lemma {:induction false} PieceAt(t: Ty, i: nat, j: nat, k: nat)
    requires t.Struct? && i <= j < |t.fields| && k < |Piece(t.fields[j])|
    ensures OffsetOf(t, i) <= OffsetOf(t, j)
    ensures OffsetOf(t, j) - OffsetOf(t, i) + k < |Pieces(t, i)|
    ensures Pieces(t, i)[OffsetOf(t, j) - OffsetOf(t, i) + k] == Piece(t.fields[j])[k]
    decreases j - i
  {
    if i < j {
      PieceAt(t, i + 1, j, k);
    }
  }

  lemma PieceInside(t: Ty, path: seq<nat>)
    requires ValidPath(t, path)
    ensures |Piece(Sub(t, path))| <= |Piece(t)|
  {
    PathLands(t, path);
    AsManyPlaces(t);
    AsManyPlaces(Sub(t, path));
  }

  /** The field that place `k` belongs to. */
  lemma {:induction false} FieldAt(t: Ty, i: nat, k: nat) returns (j: nat)
    requires t.Struct? && i <= |t.fields| && OffsetOf(t, i) <= k < OffsetOf(t, i) + |Pieces(t, i)|
    ensures i <= j < |t.fields| && OffsetOf(t, j) <= k < OffsetOf(t, j) + |Piece(t.fields[j])|
    decreases |t.fields| - i
  {
    if k < OffsetOf(t, i) + |Piece(t.fields[i])| {
      j := i;
    } else {
      j := FieldAt(t, i + 1, k);
    }
  }

  /** Some path leads to something of just the size recorded at place `k`. */
  lemma {:induction false} SizeReached(t: Ty, k: nat) returns (path: seq<nat>)
    requires k < |Piece(t)|
    ensures ValidPath(t, path) && PathOffset(t, path) == k && |Leaves(Sub(t, path))| == Piece(t)[k]
  {
    SizesFit(t);
    AsManyPlaces(t);
    path := [];
    if k > 0 {
      var p, f;
      match t {
        case Array(e) =>
          f := 0;
          p := SizeReached(e, k);
        case Struct(fs) =>
          f := FieldAt(t, 0, k);
          p := SizeReached(fs[f], k - OffsetOf(t, f));
          PieceAt(t, 0, f, k - OffsetOf(t, f));
      }
      path := [f] + p;
      assert path[1..] == p;
    }
  }

  /** The size recorded at place `k` is the largest of a target of a path that
      leads there. */
  lemma SizeIsLargest(t: Ty, k: nat)
    requires k < |Piece(t)|
    ensures exists path :: ValidPath(t, path) && PathOffset(t, path) == k && |Leaves(Sub(t, path))| == Piece(t)[k]
    ensures forall path :: ValidPath(t, path) && PathOffset(t, path) == k ==> |Leaves(Sub(t, path))| <= Piece(t)[k]
  {
    var path := SizeReached(t, k);
    forall path | ValidPath(t, path) && PathOffset(t, path) == k
      ensures |Leaves(Sub(t, path))| <= Piece(t)[k]
    {
      PathSize(t, path);
      AsManyPlaces(Sub(t, path));
    }
  }

  // The analysis.

  datatype Layout = Layout(sz: seq<nat>, off: seq<nat>)

  /** The sizes recorded for the fields before `i`. */
  ghost function Placed(t: Ty, i: nat): (r: seq<nat>)
    requires t.Struct? && i <= |t.fields|
    ensures |r| == OffsetOf(t, i)
  {
    if i == 0 then [] else Placed(t, i - 1) + Piece(t.fields[i - 1])
  }

  lemma {:induction false} PlacedThenRest(t: Ty, i: nat)
    requires t.Struct? && i <= |t.fields|
    ensures Placed(t, i) + Pieces(t, i) == Pieces(t, 0)
  {
    if i > 0 {
      PlacedThenRest(t, i - 1);
    }
  }

  lemma PlacedMore(t: Ty, i: nat)
    requires t.Struct? && i <= |t.fields|
    ensures |Placed(t, i)| == OffsetOf(t, i) && Placed(t, 0) == []
    ensures i < |t.fields| ==> Placed(t, i + 1) == Placed(t, i) + Piece(t.fields[i])
  {
  }

  /** All fields are placed; the first place gets the size of the whole. */
  lemma LayoutDone(t: Ty, sz: seq<nat>, off: seq<nat>)
    requires t.Struct? && sz == Placed(t, |t.fields|) && |off| == |t.fields|
    requires forall j :: 0 <= j < |off| ==> off[j] == OffsetOf(t, j)
    ensures t.fields == [] ==> sz + [1] == SizesOf(t) && off + [0] == OffsetsOf(t)
    ensures t.fields != [] ==> sz != [] && sz[0 := |sz|] == SizesOf(t) && off == OffsetsOf(t)
  {
    PlacedThenRest(t, |t.fields|);
  }

  /** The structs inside a type, the type included. */
  ghost function Inside(t: Ty): (r: set<Ty>)
    decreases t, 1, 0
  {
    match t
    case Simple => {}
    case Array(e) => Inside(e)
    case Struct(fs) => {t} + InsideFields(t, 0)
  }

  ghost function InsideFields(t: Ty, i: nat): (r: set<Ty>)
    requires t.Struct? && i <= |t.fields|
    decreases t, 0, |t.fields| - i
  {
    if i == |t.fields| then {} else Inside(t.fields[i]) + InsideFields(t, i + 1)
  }

  /** The structs of the first `i` fields. */
  lemma {:induction false} InsideFirst(t: Ty, i: nat, s: set<Ty>)
    requires t.Struct? && i <= |t.fields| && forall j :: i <= j < |t.fields| ==> Inside(t.fields[j]) <= s
    ensures InsideFields(t, i) <= s
    decreases |t.fields| - i
  {
    if i < |t.fields| {
      InsideFirst(t, i + 1, s);
    }
  }

  lemma {:induction false} InsideElem(t: Ty)
    ensures Inside(Elem(t)) == Inside(t)
  {
    if t.Array? {
      InsideElem(t.elem);
    }
  }

  lemma InsideStruct(t: Ty, s: set<Ty>)
    requires t.Struct? && t in s && forall j :: 0 <= j < |t.fields| ==> Inside(t.fields[j]) <= s
    ensures Inside(t) <= s
  {
    InsideFirst(t, 0, s);
  }

  class StructTable {
    var info: map<Ty, Layout>
    /** The size of the largest struct seen, the struct, and whether any was. */
    var maxSz: nat
    var maxStruct: Ty

    /** What is recorded is right, and no struct recorded is larger than the
        largest. */
    ghost predicate Valid()
      reads this
    {
      && (forall t :: t in info ==> t.Struct? && info[t] == Layout(SizesOf(t), OffsetsOf(t)))
      && (forall t :: t in info ==> Inside(t) <= info.Keys)
      && (forall t :: t in info && t.fields != [] ==> |SizesOf(t)| <= maxSz)
      && (maxSz > 0 ==> maxStruct in info && maxStruct.fields != [] && |SizesOf(maxStruct)| == maxSz)
    }

    constructor ()
      ensures Valid() && info == map[] && maxSz == 0
    {
      info, maxSz, maxStruct := map[], 0, Simple;
    }

    /** Records the layout of a struct and of the structs inside it. */
    method AnalyzeStruct(t: Ty)
      requires Valid() && t.Struct?
      modifies this
      ensures Valid() && t in info && Inside(t) <= info.Keys && old(info.Keys) <= info.Keys
      decreases t, 1
    {
      hide Valid, SizesOf, OffsetsOf, Piece, Pieces, Placed, OffsetOf, Inside, InsideFields;
      if t in info {
        Recorded(t);
        return;
      }
      PlacedMore(t, 0);
      var sz: seq<nat>, off: seq<nat> := [], [];
      var nf := 0;
      var i := 0;
      while i < |t.fields|
        invariant 0 <= i <= |t.fields| && Valid() && old(info.Keys) <= info.Keys
        invariant sz == Placed(t, i) && nf == |sz| && |off| == i
        invariant forall j :: 0 <= j < i ==> off[j] == OffsetOf(t, j) && Inside(t.fields[j]) <= info.Keys
      {
        PlacedMore(t, i);
        off := off + [nf];
        var inner := FieldSizes(t.fields[i]);
        sz := sz + inner;
        nf := nf + |inner|;
        i := i + 1;
      }
      LayoutDone(t, sz, off);
      if t.fields == [] {
        sz, off := sz + [1], off + [0];
      } else {
        sz := sz[0 := nf];
      }
      Record(t, sz, off, nf);
    }

    /** What a field takes up: the layout of a struct, or one place. */
    method FieldSizes(f: Ty) returns (inner: seq<nat>)
      requires Valid()
      modifies this
      ensures Valid() && inner == Piece(f) && Inside(f) <= info.Keys && old(info.Keys) <= info.Keys
      decreases f, 2
    {
      var e := Elem(f);
      InsideElem(f);
      if e.Struct? {
        AnalyzeStruct(e);
        inner := info[e].sz;
      } else {
        inner := [1];
      }
    }

    lemma Recorded(t: Ty)
      requires Valid() && t in info
      ensures Inside(t) <= info.Keys
    {
    }

    /** Records a struct whose inner ones are recorded. */
    method Record(t: Ty, sz: seq<nat>, off: seq<nat>, nf: nat)
      requires forall j :: t.Struct? && 0 <= j < |t.fields| ==> Inside(t.fields[j]) <= info.Keys
      requires Valid() && t.Struct? && sz == SizesOf(t) && off == OffsetsOf(t) && nf == if t.fields == [] then 0 else |sz|
      modifies this
      ensures Valid() && info == old(info)[t := Layout(sz, off)] && Inside(t) <= info.Keys
    {
      hide SizesOf, OffsetsOf, Inside, InsideFields;
      InsideStruct(t, info.Keys + {t});
      if nf > maxSz {
        maxStruct, maxSz := t, nf;
      }
      info := info[t := Layout(sz, off)];
    }

    /** The offset that a path of indices adds up to. */
    method ComputeGepOff(t: Ty, path: seq<nat>) returns (off: nat)
      requires Valid() && ValidPath(t, path)
      modifies this
      ensures Valid() && off == PathOffset(t, path)
    {
      off := 0;
      var cur, i := t, 0;
      assert path[0..] == path;
      while i < |path|
        invariant 0 <= i <= |path| && Valid() && ValidPath(cur, path[i..])
        invariant off + PathOffset(cur, path[i..]) == PathOffset(t, path)
      {
        var idx := path[i];
        assert path[i..][1..] == path[i + 1..];
        if cur.Struct? {
          AnalyzeStruct(cur);
          off := off + info[cur].off[idx];
          cur := cur.fields[idx];
        } else {
          cur := cur.elem;
        }
        i := i + 1;
      }
    }
  }
}
