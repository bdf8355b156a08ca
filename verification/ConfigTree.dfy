/** Typed configuration trees and the recursive comparison of
    `src/config/hot_reload.go`, which reports every changed setting by its
    YAML path. */
module ConfigTree {
  import opened Options
  import opened Strings

  /** How a struct field takes part in the walk: under its YAML name, inlined
      into its parent, or not at all (unexported or tagged "-"). */
  datatype Tag = Named | Inline | Skipped

  datatype Type =
    | LeafType
    | PtrType(elem: Type)
    | StructType(fields: seq<Field>)
    | MapType(elem: Type)
    | SliceType(elem: Type)

  datatype Field = Field(name: string, tag: Tag, ty: Type)

  datatype Value =
    | Leaf(text: string)
    | NilPtr
    | Ptr(target: Value)
    | Struct(fields: seq<Value>)
    | NilMap
    | Map(items: map<string, Value>)
    | NilSlice
    | Slice(elems: seq<Value>)

  predicate Conforms(t: Type, v: Value)
    decreases t
  {
    match t
    case LeafType => v.Leaf?
    case PtrType(e) => v.NilPtr? || (v.Ptr? && Conforms(e, v.target))
    case StructType(fs) =>
      v.Struct? && |v.fields| == |fs| && forall i | 0 <= i < |fs| :: Conforms(fs[i].ty, v.fields[i])
    case MapType(e) => v.NilMap? || (v.Map? && forall k | k in v.items :: Conforms(e, v.items[k]))
    case SliceType(e) => v.NilSlice? || (v.Slice? && forall i | 0 <= i < |v.elems| :: Conforms(e, v.elems[i]))
  }

  /** A `reflect.Value`, which is invalid where a map key or an index is missing. */
  predicate ConformsOpt(t: Type, v: Option<Value>) {
    v.Some? ==> Conforms(t, v.value)
  }

  function Items(v: Value): map<string, Value> {
    if v.Map? then v.items else map[]
  }

  function Elems(v: Value): seq<Value> {
    if v.Slice? then v.elems else []
  }

  function Lookup(m: map<string, Value>, k: string): Option<Value> {
    if k in m then Some(m[k]) else None
  }

  function ElemAt(s: seq<Value>, i: nat): Option<Value> {
    if i < |s| then Some(s[i]) else None
  }

  function JoinPath(parent: string, child: string): string {
    if parent == "" then child else parent + "." + child
  }

  function FieldPath(path: string, f: Field): string {
    if f.tag.Inline? then path else JoinPath(path, f.name)
  }

  function IndexPath(path: string, i: nat): string {
    path + "[" + Decimal(i) + "]"
  }

  function Max(a: nat, b: nat): nat {
    if a < b then b else a
  }

  /** One comparison the walk makes below a node. */
  datatype Pair = Pair(ty: Type, before: Option<Value>, after: Option<Value>, path: string)

  /** The two values differ at this very node, so the walk reports the node and stops. */
  predicate DiffersHere(t: Type, a: Value, b: Value)
    requires Conforms(t, a) && Conforms(t, b)
  {
    match t
    case LeafType => a != b
    case PtrType(_) => a.NilPtr? != b.NilPtr?
    case StructType(_) => false
    case MapType(_) => a.NilMap? != b.NilMap? && |Items(a)| == 0 && |Items(b)| == 0
    case SliceType(_) => a.NilSlice? != b.NilSlice? && |Elems(a)| == 0 && |Elems(b)| == 0
  }

  function MapKeys(a: Value, b: Value): seq<string> {
    SortedKeys(Items(a).Keys + Items(b).Keys)
  }

  function ChildCount(t: Type, a: Value, b: Value): nat
    requires Conforms(t, a) && Conforms(t, b)
  {
    match t
    case LeafType => 0
    case PtrType(_) => if a.NilPtr? || b.NilPtr? then 0 else 1
    case StructType(fs) => |fs|
    case MapType(_) => |MapKeys(a, b)|
    case SliceType(_) => Max(|Elems(a)|, |Elems(b)|)
  }

  /** The i-th comparison below a node; a skipped field compares two invalid values. */
  function Child(t: Type, a: Value, b: Value, path: string, i: nat): (c: Pair)
    requires Conforms(t, a) && Conforms(t, b) && i < ChildCount(t, a, b)
    ensures c.ty < t && ConformsOpt(c.ty, c.before) && ConformsOpt(c.ty, c.after)
  {
    match t
    case PtrType(e) => Pair(e, Some(a.target), Some(b.target), path)
    case StructType(fs) =>
      if fs[i].tag.Skipped? then Pair(fs[i].ty, None, None, path)
      else Pair(fs[i].ty, Some(a.fields[i]), Some(b.fields[i]), FieldPath(path, fs[i]))
    case MapType(e) =>
      var k := MapKeys(a, b)[i];
      assert k in MapKeys(a, b);
      Pair(e, Lookup(Items(a), k), Lookup(Items(b), k), JoinPath(path, k))
    case SliceType(e) => Pair(e, ElemAt(Elems(a), i), ElemAt(Elems(b), i), IndexPath(path, i))
  }

  function Report(path: string): seq<string> {
    if path == "" then [] else [path]
  }

  /** The changed paths in walk order. */
  function Compare(t: Type, before: Option<Value>, after: Option<Value>, path: string): seq<string>
    requires ConformsOpt(t, before) && ConformsOpt(t, after)
    decreases t, 1
  {
    if before.None? || after.None? then
      if before.None? != after.None? then Report(path) else []
    else if DiffersHere(t, before.value, after.value) then Report(path)
    else Flatten(Parts(t, before.value, after.value, path))
  }

  function Parts(t: Type, a: Value, b: Value, path: string): (parts: seq<seq<string>>)
    requires Conforms(t, a) && Conforms(t, b)
    ensures |parts| == ChildCount(t, a, b)
    decreases t, 0
  {
    seq(ChildCount(t, a, b), i requires 0 <= i < ChildCount(t, a, b) =>
      var c := Child(t, a, b, path, i); Compare(c.ty, c.before, c.after, c.path))
  }

  /** `compareConfigs`: the changed paths, sorted. */
  function CompareConfigs(t: Type, before: Value, after: Value): (changed: seq<string>)
    requires Conforms(t, before) && Conforms(t, after)
  {
    Sort(Compare(t, Some(before), Some(after), ""))
  }

  // --- Children and their reports ---

  lemma CompareIsFlatten(t: Type, a: Value, b: Value, path: string)
    requires Conforms(t, a) && Conforms(t, b) && !DiffersHere(t, a, b)
    ensures Compare(t, Some(a), Some(b), path) == Flatten(Parts(t, a, b, path))
  {}

  /** A path is reported below a node exactly when some child reports it. */
  lemma InCompare(t: Type, a: Value, b: Value, path: string, q: string)
    requires Conforms(t, a) && Conforms(t, b) && !DiffersHere(t, a, b)
    ensures q in Compare(t, Some(a), Some(b), path)
       <==> exists i | 0 <= i < |Parts(t, a, b, path)| :: q in Parts(t, a, b, path)[i]
  {
    CompareIsFlatten(t, a, b, path);
    InFlatten(Parts(t, a, b, path), q);
  }

  lemma PointerCompares(t: Type, a: Value, b: Value, path: string)
    requires t.PtrType? && Conforms(t, a) && Conforms(t, b) && a.Ptr? && b.Ptr?
    ensures Compare(t, Some(a), Some(b), path) == Compare(t.elem, Some(a.target), Some(b.target), path)
  {
    var parts := Parts(t, a, b, path);
    assert parts == [Compare(t.elem, Some(a.target), Some(b.target), path)];
    assert Flatten(parts) == parts[0] + Flatten<string>([]);
  }

  lemma StructPart(t: Type, a: Value, b: Value, path: string, i: nat)
    requires t.StructType? && Conforms(t, a) && Conforms(t, b) && i < |t.fields|
    ensures Parts(t, a, b, path)[i] ==
            if t.fields[i].tag.Skipped? then []
            else Compare(t.fields[i].ty, Some(a.fields[i]), Some(b.fields[i]), FieldPath(path, t.fields[i]))
  {
    var c := Child(t, a, b, path, i);
  }

  lemma FilterFlatten(keep: string -> bool, xs: seq<seq<string>>, ys: seq<seq<string>>)
    requires |xs| == |ys|
    requires forall i | 0 <= i < |xs| :: ys[i] == Filter(keep, xs[i])
    ensures Flatten(ys) == Filter(keep, Flatten(xs))
  {
    if xs != [] {
      FilterFlatten(keep, xs[1..], ys[1..]);
      FilterConcat(keep, xs[0], Flatten(xs[1..]));
    }
  }

  ghost predicate FieldFiltered(keep: string -> bool, t: Type, before: Value, after: Value, kept: Value, path: string, j: nat)
    requires t.StructType? && Conforms(t, before) && Conforms(t, after) && Conforms(t, kept) && j < |t.fields|
  {
    Compare(t.fields[j].ty, Some(before.fields[j]), Some(kept.fields[j]), FieldPath(path, t.fields[j]))
    == Filter(keep, Compare(t.fields[j].ty, Some(before.fields[j]), Some(after.fields[j]), FieldPath(path, t.fields[j])))
  }

  lemma StructFilter(keep: string -> bool, t: Type, before: Value, after: Value, kept: Value, path: string)
    requires t.StructType? && Conforms(t, before) && Conforms(t, after) && Conforms(t, kept)
    requires forall j | 0 <= j < |t.fields| && !t.fields[j].tag.Skipped? ::
               FieldFiltered(keep, t, before, after, kept, path, j)
    ensures Compare(t, Some(before), Some(kept), path) == Filter(keep, Compare(t, Some(before), Some(after), path))
  {
    var xs, ys := Parts(t, before, after, path), Parts(t, before, kept, path);
    forall j | 0 <= j < |xs| ensures ys[j] == Filter(keep, xs[j]) {
      StructPart(t, before, after, path, j);
      StructPart(t, before, kept, path, j);
      if !t.fields[j].tag.Skipped? { assert FieldFiltered(keep, t, before, after, kept, path, j); }
    }
    FilterFlatten(keep, xs, ys);
  }

  // --- Equality of trees ---

  /** Structural equality, leaving skipped fields out. Nil and empty maps or
      slices are different. */
  ghost predicate Same(t: Type, a: Value, b: Value)
    requires Conforms(t, a) && Conforms(t, b)
    decreases t
  {
    match t
    case LeafType => a == b
    case PtrType(e) => a.NilPtr? == b.NilPtr? && (a.Ptr? ==> Same(e, a.target, b.target))
    case StructType(fs) =>
      forall i | 0 <= i < |fs| && !fs[i].tag.Skipped? :: Same(fs[i].ty, a.fields[i], b.fields[i])
    case MapType(e) =>
      a.NilMap? == b.NilMap? && Items(a).Keys == Items(b).Keys &&
      forall k | k in Items(a) :: Same(e, Items(a)[k], Items(b)[k])
    case SliceType(e) =>
      a.NilSlice? == b.NilSlice? && |Elems(a)| == |Elems(b)| &&
      forall i | 0 <= i < |Elems(a)| :: Same(e, Elems(a)[i], Elems(b)[i])
  }

  ghost predicate SameOpt(t: Type, a: Option<Value>, b: Option<Value>)
    requires ConformsOpt(t, a) && ConformsOpt(t, b)
  {
    a.None? == b.None? && (a.Some? ==> Same(t, a.value, b.value))
  }

  lemma SameIsReflexive(t: Type, a: Value)
    requires Conforms(t, a)
    ensures Same(t, a, a)
  {}

  lemma {:induction false} SameIsTransitive(t: Type, a: Value, b: Value, c: Value)
    requires Conforms(t, a) && Conforms(t, b) && Conforms(t, c)
    requires Same(t, a, b) && Same(t, b, c)
    ensures Same(t, a, c)
    decreases t
  {
    match t
    case LeafType =>
    case PtrType(e) => if a.Ptr? { SameIsTransitive(e, a.target, b.target, c.target); }
    case StructType(fs) =>
      forall i | 0 <= i < |fs| && !fs[i].tag.Skipped? ensures Same(fs[i].ty, a.fields[i], c.fields[i]) {
        SameIsTransitive(fs[i].ty, a.fields[i], b.fields[i], c.fields[i]);
      }
    case MapType(e) =>
      forall k | k in Items(a) ensures Same(e, Items(a)[k], Items(c)[k]) {
        SameIsTransitive(e, Items(a)[k], Items(b)[k], Items(c)[k]);
      }
    case SliceType(e) =>
      forall i | 0 <= i < |Elems(a)| ensures Same(e, Elems(a)[i], Elems(c)[i]) {
        SameIsTransitive(e, Elems(a)[i], Elems(b)[i], Elems(c)[i]);
      }
  }

  predicate NoSkippedField(t: Type) {
    match t
    case LeafType => true
    case PtrType(e) => NoSkippedField(e)
    case StructType(fs) => forall i | 0 <= i < |fs| :: !fs[i].tag.Skipped? && NoSkippedField(fs[i].ty)
    case MapType(e) => NoSkippedField(e)
    case SliceType(e) => NoSkippedField(e)
  }

  /** Without skipped fields, `Same` is equality. */
  lemma {:induction false} SameIsEquality(t: Type, a: Value, b: Value)
    requires Conforms(t, a) && Conforms(t, b) && NoSkippedField(t)
    ensures Same(t, a, b) <==> a == b
    decreases t
  {
    SameIsReflexive(t, a);
    if Same(t, a, b) {
      match t
      case LeafType =>
      case PtrType(e) => if a.Ptr? { SameIsEquality(e, a.target, b.target); }
      case StructType(fs) =>
        forall i | 0 <= i < |fs| ensures a.fields[i] == b.fields[i] {
          SameIsEquality(fs[i].ty, a.fields[i], b.fields[i]);
        }
        assert a.fields == b.fields;
      case MapType(e) =>
        forall k | k in Items(a) ensures Items(a)[k] == Items(b)[k] {
          SameIsEquality(e, Items(a)[k], Items(b)[k]);
        }
        assert Items(a) == Items(b);
      case SliceType(e) =>
        forall i | 0 <= i < |Elems(a)| ensures Elems(a)[i] == Elems(b)[i] {
          SameIsEquality(e, Elems(a)[i], Elems(b)[i]);
        }
        assert Elems(a) == Elems(b);
    }
  }

  /** `Same` seen through the walk: no difference at the node, and every child the same. */
  lemma SameByChildren(t: Type, a: Value, b: Value, path: string)
    requires Conforms(t, a) && Conforms(t, b)
    ensures Same(t, a, b) <==>
            (!DiffersHere(t, a, b) &&
             forall i | 0 <= i < ChildCount(t, a, b) ::
               SameOpt(Child(t, a, b, path, i).ty, Child(t, a, b, path, i).before, Child(t, a, b, path, i).after))
  {
    match t
    case LeafType =>
    case PtrType(e) =>
      if ChildCount(t, a, b) == 1 {
        var c := Child(t, a, b, path, 0);
        assert SameOpt(c.ty, c.before, c.after) <==> Same(e, a.target, b.target);
      }
    case StructType(fs) =>
      forall i | 0 <= i < |fs|
        ensures SameOpt(Child(t, a, b, path, i).ty, Child(t, a, b, path, i).before, Child(t, a, b, path, i).after)
           <==> fs[i].tag.Skipped? || Same(fs[i].ty, a.fields[i], b.fields[i]) {}
    case MapType(e) => SameMapByChildren(t, a, b, path);
    case SliceType(e) => SameSliceByChildren(t, a, b, path);
  }

  ghost predicate ChildrenSame(t: Type, a: Value, b: Value, path: string)
    requires Conforms(t, a) && Conforms(t, b)
  {
    forall i | 0 <= i < ChildCount(t, a, b) ::
      SameOpt(Child(t, a, b, path, i).ty, Child(t, a, b, path, i).before, Child(t, a, b, path, i).after)
  }

  ghost predicate ItemsSame(t: Type, a: Value, b: Value)
    requires t.MapType? && Conforms(t, a) && Conforms(t, b)
  {
    Items(a).Keys == Items(b).Keys && forall k | k in Items(a) :: Same(t.elem, Items(a)[k], Items(b)[k])
  }

  lemma MapChildrenSame(t: Type, a: Value, b: Value, path: string)
    requires t.MapType? && Conforms(t, a) && Conforms(t, b)
    ensures ChildrenSame(t, a, b, path) <==> ItemsSame(t, a, b)
  {
    if ChildrenSame(t, a, b, path) { SameChildrenSameItems(t, a, b, path); }
    if ItemsSame(t, a, b) {
      var ks := MapKeys(a, b);
      forall i | 0 <= i < |ks|
        ensures SameOpt(Child(t, a, b, path, i).ty, Child(t, a, b, path, i).before, Child(t, a, b, path, i).after)
      {
        assert ks[i] in ks;
      }
    }
  }

  lemma SameChildrenSameItems(t: Type, a: Value, b: Value, path: string)
    requires t.MapType? && Conforms(t, a) && Conforms(t, b) && ChildrenSame(t, a, b, path)
    ensures ItemsSame(t, a, b)
  {
    var ks := MapKeys(a, b);
    forall k | k in ks ensures SameOpt(t.elem, Lookup(Items(a), k), Lookup(Items(b), k)) {
      var i :| 0 <= i < |ks| && ks[i] == k;
      var c := Child(t, a, b, path, i);
      assert SameOpt(c.ty, c.before, c.after);
    }
    assert forall k | k in Items(a) :: k in ks && Lookup(Items(b), k).Some?;
    assert forall k | k in Items(b) :: k in ks && Lookup(Items(a), k).Some?;
  }

  lemma SameMapByChildren(t: Type, a: Value, b: Value, path: string)
    requires t.MapType? && Conforms(t, a) && Conforms(t, b)
    ensures Same(t, a, b) <==> !DiffersHere(t, a, b) && ChildrenSame(t, a, b, path)
  {
    MapChildrenSame(t, a, b, path);
    if Items(a).Keys == Items(b).Keys && a.NilMap? != b.NilMap? {
      assert Items(a).Keys == {} && Items(b).Keys == {};
      assert Items(a) == map[] && Items(b) == map[];
    }
  }

  lemma SameSliceByChildren(t: Type, a: Value, b: Value, path: string)
    requires t.SliceType? && Conforms(t, a) && Conforms(t, b)
    ensures Same(t, a, b) <==>
            (!DiffersHere(t, a, b) &&
             forall i | 0 <= i < ChildCount(t, a, b) ::
               SameOpt(Child(t, a, b, path, i).ty, Child(t, a, b, path, i).before, Child(t, a, b, path, i).after))
  {
    var n := ChildCount(t, a, b);
    if forall i | 0 <= i < n ::
        SameOpt(Child(t, a, b, path, i).ty, Child(t, a, b, path, i).before, Child(t, a, b, path, i).after) {
      forall i | 0 <= i < n ensures SameOpt(t.elem, ElemAt(Elems(a), i), ElemAt(Elems(b), i)) {
        var c := Child(t, a, b, path, i);
      }
      if 0 < n {
        assert ElemAt(Elems(a), n - 1).None? == ElemAt(Elems(b), n - 1).None?;
      }
      assert |Elems(a)| == |Elems(b)|;
      forall i | 0 <= i < n ensures Same(t.elem, Elems(a)[i], Elems(b)[i]) {
        assert ElemAt(Elems(a), i) == Some(Elems(a)[i]) && ElemAt(Elems(b), i) == Some(Elems(b)[i]);
      }
    }
  }

  /** Every node below has a nonempty path: the root is a struct whose fields are named. */
  predicate Addressed(t: Type, path: string) {
    path != "" ||
    (t.StructType? &&
     forall i | 0 <= i < |t.fields| && !t.fields[i].tag.Skipped? ::
       if t.fields[i].tag.Inline? then Addressed(t.fields[i].ty, "") else t.fields[i].name != "")
  }

  lemma ChildAddressed(t: Type, a: Value, b: Value, path: string, i: nat)
    requires Conforms(t, a) && Conforms(t, b) && Addressed(t, path) && i < ChildCount(t, a, b)
    ensures Child(t, a, b, path, i).before.Some? || Child(t, a, b, path, i).after.Some? ==>
              Addressed(Child(t, a, b, path, i).ty, Child(t, a, b, path, i).path)
  {}

  /** The comparison reports nothing exactly when the trees are structurally equal. */
  lemma {:induction false} CompareEmptyIffSame(t: Type, before: Option<Value>, after: Option<Value>, path: string)
    requires ConformsOpt(t, before) && ConformsOpt(t, after)
    requires before.Some? || after.Some? ==> Addressed(t, path)
    requires path == "" ==> before.Some? == after.Some?
    ensures Compare(t, before, after, path) == [] <==> SameOpt(t, before, after)
    decreases t
  {
    if before.Some? && after.Some? {
      var a, b := before.value, after.value;
      SameByChildren(t, a, b, path);
      if !DiffersHere(t, a, b) {
        var parts := Parts(t, a, b, path);
        forall i | 0 <= i < |parts|
          ensures parts[i] == [] <==>
                  SameOpt(Child(t, a, b, path, i).ty, Child(t, a, b, path, i).before, Child(t, a, b, path, i).after)
        {
          var c := Child(t, a, b, path, i);
          ChildAddressed(t, a, b, path, i);
          CompareEmptyIffSame(c.ty, c.before, c.after, c.path);
        }
        if Flatten(parts) == [] {
          forall i | 0 <= i < |parts| ensures parts[i] == [] {
            if parts[i] != [] { InFlatten(parts, parts[i][0]); }
          }
        } else {
          InFlatten(parts, Flatten(parts)[0]);
        }
      }
    }
  }

  /** `compareConfigs` returns no path exactly when before and after are structurally equal. */
  lemma CompareConfigsEmptyIffSame(t: Type, before: Value, after: Value)
    requires Conforms(t, before) && Conforms(t, after) && Addressed(t, "")
    ensures CompareConfigs(t, before, after) == [] <==> Same(t, before, after)
  {
    CompareEmptyIffSame(t, Some(before), Some(after), "");
    SortIsOrderedPermutation(Compare(t, Some(before), Some(after), ""));
    assert |multiset(CompareConfigs(t, before, after))| == |multiset(Compare(t, Some(before), Some(after), ""))|;
  }

  lemma InCompareConfigs(t: Type, before: Value, after: Value, q: string)
    requires Conforms(t, before) && Conforms(t, after)
    ensures q in CompareConfigs(t, before, after) <==> q in Compare(t, Some(before), Some(after), "")
  {
    var xs := Compare(t, Some(before), Some(after), "");
    SortIsOrderedPermutation(xs);
    assert q in Sort(xs) <==> q in multiset(Sort(xs));
    assert q in xs <==> q in multiset(xs);
  }

  lemma CompareSelf(t: Type, a: Value, path: string)
    requires Conforms(t, a) && Addressed(t, path)
    ensures Compare(t, Some(a), Some(a), path) == []
  {
    SameIsReflexive(t, a);
    CompareEmptyIffSame(t, Some(a), Some(a), path);
  }

  /** Swapping before and after reports the same paths in the same order. */
  lemma {:induction false} CompareIsSymmetric(t: Type, before: Option<Value>, after: Option<Value>, path: string)
    requires ConformsOpt(t, before) && ConformsOpt(t, after)
    ensures Compare(t, before, after, path) == Compare(t, after, before, path)
    decreases t
  {
    if before.Some? && after.Some? {
      var a, b := before.value, after.value;
      assert Items(a).Keys + Items(b).Keys == Items(b).Keys + Items(a).Keys;
      assert ChildCount(t, a, b) == ChildCount(t, b, a);
      forall i | 0 <= i < ChildCount(t, a, b) ensures Parts(t, a, b, path)[i] == Parts(t, b, a, path)[i] {
        var c, d := Child(t, a, b, path, i), Child(t, b, a, path, i);
        CompareIsSymmetric(c.ty, c.before, c.after, c.path);
      }
      assert Parts(t, a, b, path) == Parts(t, b, a, path);
    }
  }

  // --- Reported paths name positions that differ ---

  datatype Step = FieldAt(i: nat) | Deref | KeyAt(k: string) | IndexAt(i: nat)

  /** The type reached by following `steps`, if they fit the schema. */
  ghost function TypeAt(t: Type, steps: seq<Step>): Option<Type>
    decreases |steps|
  {
    if steps == [] then Some(t)
    else match (t, steps[0])
      case (PtrType(e), Deref) => TypeAt(e, steps[1..])
      case (StructType(fs), FieldAt(i)) => if i < |fs| then TypeAt(fs[i].ty, steps[1..]) else None
      case (MapType(e), KeyAt(_)) => TypeAt(e, steps[1..])
      case (SliceType(e), IndexAt(_)) => TypeAt(e, steps[1..])
      case _ => None
  }

  /** The value found by following `steps`, or None where the tree does not go that far. */
  ghost function ValueAt(v: Option<Value>, steps: seq<Step>): Option<Value>
    decreases |steps|
  {
    if steps == [] then v
    else if v.None? then None
    else match (v.value, steps[0])
      case (Ptr(x), Deref) => ValueAt(Some(x), steps[1..])
      case (Struct(xs), FieldAt(i)) => ValueAt(ElemAt(xs, i), steps[1..])
      case (Map(m), KeyAt(k)) => ValueAt(Lookup(m, k), steps[1..])
      case (Slice(xs), IndexAt(i)) => ValueAt(ElemAt(xs, i), steps[1..])
      case _ => None
  }

  /** The YAML path of a position. */
  ghost function PathAt(t: Type, path: string, steps: seq<Step>): string
    requires TypeAt(t, steps).Some?
    decreases |steps|
  {
    if steps == [] then path
    else match steps[0]
      case Deref => PathAt(t.elem, path, steps[1..])
      case FieldAt(i) => PathAt(t.fields[i].ty, FieldPath(path, t.fields[i]), steps[1..])
      case KeyAt(k) => PathAt(t.elem, JoinPath(path, k), steps[1..])
      case IndexAt(i) => PathAt(t.elem, IndexPath(path, i), steps[1..])
  }

  ghost predicate DiffersAt(t: Type, before: Option<Value>, after: Option<Value>, path: string, steps: seq<Step>, q: string) {
    && TypeAt(t, steps).Some?
    && PathAt(t, path, steps) == q
    && ConformsOpt(TypeAt(t, steps).value, ValueAt(before, steps))
    && ConformsOpt(TypeAt(t, steps).value, ValueAt(after, steps))
    && !SameOpt(TypeAt(t, steps).value, ValueAt(before, steps), ValueAt(after, steps))
  }

  function ChildStep(t: Type, a: Value, b: Value, i: nat): Step
    requires Conforms(t, a) && Conforms(t, b) && i < ChildCount(t, a, b)
  {
    match t
    case PtrType(_) => Deref
    case StructType(_) => FieldAt(i)
    case MapType(_) => KeyAt(MapKeys(a, b)[i])
    case SliceType(_) => IndexAt(i)
  }

  lemma DiffersBelow(t: Type, a: Value, b: Value, path: string, i: nat, steps: seq<Step>, q: string)
    requires Conforms(t, a) && Conforms(t, b) && i < ChildCount(t, a, b)
    requires var c := Child(t, a, b, path, i);
             (c.before.Some? || c.after.Some?) && DiffersAt(c.ty, c.before, c.after, c.path, steps, q)
    ensures DiffersAt(t, Some(a), Some(b), path, [ChildStep(t, a, b, i)] + steps, q)
  {
    var c := Child(t, a, b, path, i);
    var all := [ChildStep(t, a, b, i)] + steps;
    assert all[1..] == steps;
    if steps == [] {
      assert c.before.Some? || c.after.Some?;
    }
    var s := ChildStep(t, a, b, i);
    assert ValueAt(Some(a), all) == ValueAt(c.before, steps) by { StepValue(a, s, steps, c.before, t); }
    assert ValueAt(Some(b), all) == ValueAt(c.after, steps) by { StepValue(b, s, steps, c.after, t); }
  }

  ghost predicate StepsTo(t: Type, v: Value, s: Step, target: Option<Value>) {
    match s
    case Deref => t.PtrType? && v.Ptr? && target == Some(v.target)
    case FieldAt(i) => t.StructType? && v.Struct? && i < |v.fields| && target == Some(v.fields[i])
    case KeyAt(k) => t.MapType? && target == Lookup(Items(v), k)
    case IndexAt(i) => t.SliceType? && target == ElemAt(Elems(v), i)
  }

  lemma NothingBelowNone(steps: seq<Step>)
    ensures ValueAt(None, steps) == None
  {}

  lemma StepValue(v: Value, s: Step, steps: seq<Step>, target: Option<Value>, t: Type)
    requires Conforms(t, v) && StepsTo(t, v, s, target)
    ensures ValueAt(Some(v), [s] + steps) == ValueAt(target, steps)
  {
    assert ([s] + steps)[1..] == steps;
    NothingBelowNone(steps);
  }

  /** Every reported path is the path of a position at which before and after differ. */
  lemma {:induction false} ReportedPathDiffers(t: Type, before: Option<Value>, after: Option<Value>, path: string, q: string)
    returns (steps: seq<Step>)
    requires ConformsOpt(t, before) && ConformsOpt(t, after)
    requires q in Compare(t, before, after, path)
    ensures DiffersAt(t, before, after, path, steps, q)
    decreases t
  {
    steps := [];
    if before.Some? && after.Some? {
      var a, b := before.value, after.value;
      if DiffersHere(t, a, b) {
        SameByChildren(t, a, b, path);
      } else {
        InCompare(t, a, b, path, q);
        var i :| 0 <= i < ChildCount(t, a, b) && q in Parts(t, a, b, path)[i];
        var c := Child(t, a, b, path, i);
        var rest := ReportedPathDiffers(c.ty, c.before, c.after, c.path, q);
        DiffersBelow(t, a, b, path, i, rest, q);
        steps := [ChildStep(t, a, b, i)] + rest;
      }
    }
  }

  // --- The walk as the source writes it ---

  /** The comparisons below a node, in the order of its fields, keys or elements. */
  function Pairs(t: Type, a: Value, b: Value, path: string): (pairs: seq<Pair>)
    requires Conforms(t, a) && Conforms(t, b)
    ensures |pairs| == ChildCount(t, a, b)
    ensures forall i | 0 <= i < |pairs| :: IsBelow(pairs[i], t)
  {
    seq(ChildCount(t, a, b), i requires 0 <= i < ChildCount(t, a, b) => Child(t, a, b, path, i))
  }

  ghost predicate IsBelow(c: Pair, t: Type) {
    c.ty < t && ConformsOpt(c.ty, c.before) && ConformsOpt(c.ty, c.after)
  }

  ghost predicate Reports(c: Pair, t: Type, part: seq<string>) {
    IsBelow(c, t) && part == Compare(c.ty, c.before, c.after, c.path)
  }

  /** `compareConfigValue`: appends every changed path to `changed`. */
  method CompareConfigValue(t: Type, before: Option<Value>, after: Option<Value>, path: string, changed: seq<string>)
    returns (out: seq<string>)
    requires ConformsOpt(t, before) && ConformsOpt(t, after)
    ensures out == changed + Compare(t, before, after, path)
    decreases t, 1
  {
    out := changed;
    if before.None? || after.None? {
      if before.None? != after.None? && path != "" { out := out + [path]; }
      return;
    }
    if DiffersHere(t, before.value, after.value) {
      if path != "" { out := out + [path]; }
      return;
    }
    ghost var parts := Parts(t, before.value, after.value, path);
    out := CompareChildren(t, Pairs(t, before.value, after.value, path), parts, out);
  }

  /** The fields, keys or elements of one node, in order; `parts` is what each of them reports. */
  method CompareChildren(t: Type, pairs: seq<Pair>, ghost parts: seq<seq<string>>, changed: seq<string>) returns (out: seq<string>)
    requires |parts| == |pairs| && forall i | 0 <= i < |pairs| :: Reports(pairs[i], t, parts[i])
    ensures out == changed + Flatten(parts)
    decreases t, 0, 1
  {
    out := changed;
    var i := 0;
    while i < |pairs|
      invariant 0 <= i <= |pairs| && out == changed + Flatten(parts[..i])
    {
      out := CompareChild(t, pairs[i], parts[i], out);
      FlattenStep(parts, i);
      i := i + 1;
    }
    assert parts[..i] == parts;
  }

  method CompareChild(t: Type, c: Pair, ghost part: seq<string>, changed: seq<string>) returns (out: seq<string>)
    requires Reports(c, t, part)
    ensures out == changed + part
    decreases t, 0, 0
  {
    out := CompareConfigValue(c.ty, c.before, c.after, c.path, changed);
  }
}
