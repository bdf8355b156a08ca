/** `preserveRestartValues`: puts the running values back at every setting that
    needs a restart, before the new tree is published. */
module Preserve {
  import opened Options
  import opened Strings
  import opened ConfigTree
  import opened ReloadPaths

  /** The tree `after` with the restart-required values of `before` written over it. */
  function PreserveRestart(t: Type, before: Value, after: Value, path: string): (r: Value)
    requires Conforms(t, before) && Conforms(t, after)
    ensures Conforms(t, r)
    decreases t
  {
    if path != "" && RequiresRestart(path) then before
    else if path != "" && !IsRestartAncestor(path) then after
    else match t
      case PtrType(e) =>
        if before.NilPtr? || after.NilPtr? then before
        else Ptr(PreserveRestart(e, before.target, after.target, path))
      case StructType(fs) =>
        Struct(seq(|fs|, i requires 0 <= i < |fs| =>
          if fs[i].tag.Skipped? then after.fields[i]
          else PreserveRestart(fs[i].ty, before.fields[i], after.fields[i], FieldPath(path, fs[i]))))
      case _ => after
  }

  /** `preserveRestartValues` as the source runs it: fields are set one by one. */
  method PreserveRestartValues(t: Type, before: Value, after: Value, path: string) returns (r: Value)
    requires Conforms(t, before) && Conforms(t, after)
    ensures r == PreserveRestart(t, before, after, path)
    decreases t, 1
  {
    r := after;
    if path != "" && RequiresRestart(path) { return before; }
    if path != "" && !IsRestartAncestor(path) { return; }
    match t {
      case PtrType(e) =>
        if before.NilPtr? || after.NilPtr? { return before; }
        var inner := PreserveRestartValues(e, before.target, after.target, path);
        r := Ptr(inner);
      case StructType(fs) =>
        var fields := PreserveFields(fs, before.fields, after.fields, path);
        assert fields == PreserveRestart(t, before, after, path).fields;
        r := Struct(fields);
      case _ =>
    }
  }

  /** The fields of one struct, set one by one. */
  method PreserveFields(fs: seq<Field>, before: seq<Value>, after: seq<Value>, path: string) returns (r: seq<Value>)
    requires |before| == |after| == |fs|
    requires forall i | 0 <= i < |fs| :: Conforms(fs[i].ty, before[i]) && Conforms(fs[i].ty, after[i])
    ensures |r| == |fs| && forall i | 0 <= i < |fs| :: r[i] == PreservedField(fs[i], before[i], after[i], path)
    decreases fs, 0
  {
    r := after;
    var i := 0;
    while i < |fs|
      invariant 0 <= i <= |fs| && |r| == |fs|
      invariant forall j | 0 <= j < i :: r[j] == PreservedField(fs[j], before[j], after[j], path)
      invariant forall j | i <= j < |fs| :: r[j] == after[j]
    {
      if !fs[i].tag.Skipped? {
        var v := PreserveRestartValues(fs[i].ty, before[i], after[i], FieldPath(path, fs[i]));
        r := r[i := v];
      }
      i := i + 1;
    }
  }

  function PreservedField(f: Field, before: Value, after: Value, path: string): Value
    requires Conforms(f.ty, before) && Conforms(f.ty, after)
  {
    if f.tag.Skipped? then after else PreserveRestart(f.ty, before, after, FieldPath(path, f))
  }

  // --- Paths reported below a node ---

  lemma ChildPathExtends(t: Type, a: Value, b: Value, path: string, i: nat)
    requires Conforms(t, a) && Conforms(t, b) && i < ChildCount(t, a, b) && path != ""
    ensures Child(t, a, b, path, i).path != ""
    ensures Extends(Child(t, a, b, path, i).path, path)
    ensures t.SliceType? ==> |Child(t, a, b, path, i).path| > |path| && Child(t, a, b, path, i).path[|path|] == '['
    ensures t.MapType? ==> HasPrefix(Child(t, a, b, path, i).path, path + ".")
    ensures t.StructType? && t.fields[i].tag.Named? ==> HasPrefix(Child(t, a, b, path, i).path, path + ".")
  {}

  /** Every path reported for the tree at `path` is `path` or lies below it. */
  lemma {:induction false} ReportsExtend(t: Type, before: Option<Value>, after: Option<Value>, path: string, q: string)
    requires ConformsOpt(t, before) && ConformsOpt(t, after) && path != ""
    requires q in Compare(t, before, after, path)
    ensures Extends(q, path)
    ensures t.SliceType? ==> |q| == |path| || q[|path|] == '['
    decreases t
  {
    if before.Some? && after.Some? && !DiffersHere(t, before.value, after.value) {
      var a, b := before.value, after.value;
      InCompare(t, a, b, path, q);
      var i :| 0 <= i < ChildCount(t, a, b) && q in Parts(t, a, b, path)[i];
      var c := Child(t, a, b, path, i);
      ChildPathExtends(t, a, b, path, i);
      ReportsExtend(c.ty, c.before, c.after, c.path, q);
      ExtendsIsTransitive(q, c.path, path);
      if |path| < |c.path| { assert q[|path|] == q[..|c.path|][|path|]; }
    }
  }

  lemma PreservedSelf(t: Type, a: Value, path: string)
    requires Conforms(t, a)
    ensures PreserveRestart(t, a, a, path) == a
    decreases t
  {
    if !(path != "" && RequiresRestart(path)) && !(path != "" && !IsRestartAncestor(path)) {
      match t
      case PtrType(e) => if a.Ptr? { PreservedSelf(e, a.target, path); }
      case StructType(fs) =>
        forall i | 0 <= i < |fs| && !fs[i].tag.Skipped?
          ensures PreserveRestart(fs[i].ty, a.fields[i], a.fields[i], FieldPath(path, fs[i])) == a.fields[i]
        {
          PreservedSelf(fs[i].ty, a.fields[i], FieldPath(path, fs[i]));
        }
        assert PreserveRestart(t, a, a, path).fields == a.fields;
      case _ =>
    }
  }

  // --- Exactly when diff and preserve commute ---

  ghost predicate NoneRestart(reports: seq<string>) {
    forall q | q in reports :: !RequiresRestart(q)
  }

  ghost predicate AllRestart(reports: seq<string>) {
    forall q | q in reports :: RequiresRestart(q)
  }

  lemma AllRestartFlatten(parts: seq<seq<string>>)
    ensures AllRestart(Flatten(parts)) <==> forall i | 0 <= i < |parts| :: AllRestart(parts[i])
  {
    forall q: string ensures q in Flatten(parts) <==> exists i | 0 <= i < |parts| :: q in parts[i] {
      InFlatten(parts, q);
    }
  }

  /** At a restart root: the two values differ only where the difference is reported under
      a restart-required path. The fields and entries below a plain root, and the elements
      of a list at a root, are reported under paths that need no restart, so they must be
      the same. */
  ghost predicate WithinRoot(t: Type, a: Value, b: Value, path: string)
    requires Conforms(t, a) && Conforms(t, b)
    decreases t
  {
    match t
    case LeafType => true
    case PtrType(e) => a.Ptr? && b.Ptr? ==> WithinRoot(e, a.target, b.target, path)
    case StructType(fs) =>
      forall i | 0 <= i < |fs| && !fs[i].tag.Skipped? ::
        if fs[i].tag.Inline? then WithinRoot(fs[i].ty, a.fields[i], b.fields[i], path)
        else UnderDotted(path + ".") || Same(fs[i].ty, a.fields[i], b.fields[i])
    case MapType(e) =>
      UnderDotted(path + ".") || forall k | k in Items(a).Keys + Items(b).Keys :: EntrySame(e, Items(a), Items(b), k)
    case SliceType(e) =>
      UnderDotted(path) || forall i | 0 <= i < Max(|Elems(a)|, |Elems(b)|) :: ElementSame(e, Elems(a), Elems(b), i)
  }

  ghost predicate EntrySame(e: Type, a: map<string, Value>, b: map<string, Value>, k: string)
    requires ConformsOpt(e, Lookup(a, k)) && ConformsOpt(e, Lookup(b, k))
  {
    SameOpt(e, Lookup(a, k), Lookup(b, k))
  }

  ghost predicate ElementSame(e: Type, a: seq<Value>, b: seq<Value>, i: nat)
    requires ConformsOpt(e, ElemAt(a, i)) && ConformsOpt(e, ElemAt(b, i))
  {
    SameOpt(e, ElemAt(a, i), ElemAt(b, i))
  }

  /** No position at or below the path differs whose own path is restart-required. */
  ghost predicate Quiet(t: Type, a: Option<Value>, b: Option<Value>, path: string)
    requires ConformsOpt(t, a) && ConformsOpt(t, b)
    decreases t, 1
  {
    if a.None? || b.None? then a.None? == b.None? || path == "" || !RequiresRestart(path)
    else if DiffersHere(t, a.value, b.value) then path == "" || !RequiresRestart(path)
    else forall i | 0 <= i < ChildCount(t, a.value, b.value) :: QuietChild(t, a.value, b.value, path, i)
  }

  ghost predicate QuietChild(t: Type, a: Value, b: Value, path: string, i: nat)
    requires Conforms(t, a) && Conforms(t, b) && i < ChildCount(t, a, b)
    decreases t, 0
  {
    var c := Child(t, a, b, path, i);
    Quiet(c.ty, c.before, c.after, c.path)
  }

  /** The restart-required settings of the pair stand apart from the others: above a restart
      root, pointers are nil together and no map differs at a restart-required entry. */
  ghost predicate Separates(t: Type, before: Value, after: Value, path: string)
    requires Conforms(t, before) && Conforms(t, after)
    decreases t
  {
    if path != "" && RequiresRestart(path) then WithinRoot(t, before, after, path)
    else if path != "" && !IsRestartAncestor(path) then true
    else match t
      case PtrType(e) =>
        before.NilPtr? == after.NilPtr? && (before.Ptr? ==> Separates(e, before.target, after.target, path))
      case StructType(fs) =>
        forall i | 0 <= i < |fs| && !fs[i].tag.Skipped? ::
          Separates(fs[i].ty, before.fields[i], after.fields[i], FieldPath(path, fs[i]))
      case MapType(_) => Quiet(t, Some(before), Some(after), path)
      case _ => true
  }

  /** Where no such position differs, no restart-required path is reported. */
  lemma {:induction false} QuietIffNoneRestart(t: Type, a: Option<Value>, b: Option<Value>, path: string)
    requires ConformsOpt(t, a) && ConformsOpt(t, b)
    ensures Quiet(t, a, b, path) <==> NoneRestart(Compare(t, a, b, path))
    decreases t
  {
    if a.Some? && b.Some? && !DiffersHere(t, a.value, b.value) {
      var parts := Parts(t, a.value, b.value, path);
      forall i | 0 <= i < |parts| ensures QuietChild(t, a.value, b.value, path, i) <==> NoneRestart(parts[i]) {
        var c := Child(t, a.value, b.value, path, i);
        QuietIffNoneRestart(c.ty, c.before, c.after, c.path);
      }
      NoneRestartFlatten(parts);
      assert Compare(t, a, b, path) == Flatten(parts);
    }
  }

  /** One child of a root: what it reports is restart-required throughout, or it must report nothing. */
  lemma ChildWithinRoot(t: Type, a: Value, b: Value, path: string, i: nat)
    requires Conforms(t, a) && Conforms(t, b) && path != "" && RequiresRestart(path) && i < ChildCount(t, a, b)
    requires (t.StructType? && t.fields[i].tag.Named?) || t.MapType? || t.SliceType?
    ensures var c := Child(t, a, b, path, i);
            AllRestart(Compare(c.ty, c.before, c.after, c.path)) <==>
            UnderDotted(if t.SliceType? then path else path + ".") || SameOpt(c.ty, c.before, c.after)
  {
    var c := Child(t, a, b, path, i);
    var d := if t.SliceType? then path else path + ".";
    var reports := Compare(c.ty, c.before, c.after, c.path);
    ChildPathExtends(t, a, b, path, i);
    CompareEmptyIffSame(c.ty, c.before, c.after, c.path);
    forall q | q in reports ensures RequiresRestart(q) <==> UnderDotted(d) {
      ReportsExtend(c.ty, c.before, c.after, c.path, q);
      BelowChildOfRoot(path, d, c.path, q);
    }
    if reports != [] { assert reports[0] in reports; }
  }

  lemma RootEntry(t: Type, a: Value, b: Value, path: string, i: nat)
    requires Conforms(t, a) && Conforms(t, b) && path != "" && RequiresRestart(path) && t.MapType? && i < |MapKeys(a, b)|
    ensures AllRestart(Parts(t, a, b, path)[i]) <==>
            UnderDotted(path + ".") || EntrySame(t.elem, Items(a), Items(b), MapKeys(a, b)[i])
  {
    assert MapKeys(a, b)[i] in MapKeys(a, b);
    ChildWithinRoot(t, a, b, path, i);
  }

  lemma RootEntries(t: Type, a: Value, b: Value, path: string)
    requires Conforms(t, a) && Conforms(t, b) && path != "" && RequiresRestart(path) && t.MapType?
    ensures (forall i | 0 <= i < |Parts(t, a, b, path)| :: AllRestart(Parts(t, a, b, path)[i])) <==> WithinRoot(t, a, b, path)
  {
    var ks := MapKeys(a, b);
    if WithinRoot(t, a, b, path) {
      forall i | 0 <= i < |ks| ensures AllRestart(Parts(t, a, b, path)[i]) {
        assert ks[i] in ks;
        RootEntry(t, a, b, path, i);
      }
    } else {
      var k :| k in Items(a).Keys + Items(b).Keys && !EntrySame(t.elem, Items(a), Items(b), k);
      assert k in ks;
      var i :| 0 <= i < |ks| && ks[i] == k;
      RootEntry(t, a, b, path, i);
    }
  }

  lemma RootElement(t: Type, a: Value, b: Value, path: string, i: nat)
    requires Conforms(t, a) && Conforms(t, b) && path != "" && RequiresRestart(path) && t.SliceType?
    requires i < Max(|Elems(a)|, |Elems(b)|)
    ensures AllRestart(Parts(t, a, b, path)[i]) <==> UnderDotted(path) || ElementSame(t.elem, Elems(a), Elems(b), i)
  {
    ChildWithinRoot(t, a, b, path, i);
  }

  lemma RootElements(t: Type, a: Value, b: Value, path: string)
    requires Conforms(t, a) && Conforms(t, b) && path != "" && RequiresRestart(path) && t.SliceType?
    ensures (forall i | 0 <= i < |Parts(t, a, b, path)| :: AllRestart(Parts(t, a, b, path)[i])) <==> WithinRoot(t, a, b, path)
  {
    var n := Max(|Elems(a)|, |Elems(b)|);
    if WithinRoot(t, a, b, path) {
      forall i | 0 <= i < n ensures AllRestart(Parts(t, a, b, path)[i]) {
        RootElement(t, a, b, path, i);
        if !UnderDotted(path) { assert ElementSame(t.elem, Elems(a), Elems(b), i); }
      }
    } else {
      var i :| 0 <= i < n && !ElementSame(t.elem, Elems(a), Elems(b), i);
      RootElement(t, a, b, path, i);
    }
  }

  /** A restart root reports only restart-required paths exactly when the pair stays within it. */
  lemma {:induction false} RootReportsRestartIff(t: Type, a: Value, b: Value, path: string)
    requires Conforms(t, a) && Conforms(t, b) && path != "" && RequiresRestart(path)
    ensures AllRestart(Compare(t, Some(a), Some(b), path)) <==> WithinRoot(t, a, b, path)
    decreases t
  {
    if !DiffersHere(t, a, b) {
      var parts := Parts(t, a, b, path);
      AllRestartFlatten(parts);
      match t
      case LeafType =>
      case PtrType(e) => if a.Ptr? { RootReportsRestartIff(e, a.target, b.target, path); }
      case StructType(fs) =>
        forall i | 0 <= i < |fs|
          ensures AllRestart(parts[i]) <==>
                  fs[i].tag.Skipped? ||
                  if fs[i].tag.Inline? then WithinRoot(fs[i].ty, a.fields[i], b.fields[i], path)
                  else UnderDotted(path + ".") || Same(fs[i].ty, a.fields[i], b.fields[i])
        {
          StructPart(t, a, b, path, i);
          if fs[i].tag.Inline? {
            RootReportsRestartIff(fs[i].ty, a.fields[i], b.fields[i], path);
          } else if fs[i].tag.Named? {
            ChildWithinRoot(t, a, b, path, i);
          }
        }
      case MapType(e) => RootEntries(t, a, b, path);
      case SliceType(e) => RootElements(t, a, b, path);
    }
  }

  /** Lists of equal or growing parts: the whole grows, and strictly so if one part does. */
  lemma {:induction false} FlattenLengths(xs: seq<seq<string>>, ys: seq<seq<string>>)
    requires |xs| == |ys| && forall i | 0 <= i < |xs| :: |xs[i]| <= |ys[i]|
    ensures |Flatten(xs)| <= |Flatten(ys)|
    ensures |Flatten(xs)| == |Flatten(ys)| ==> forall i | 0 <= i < |xs| :: |xs[i]| == |ys[i]|
  {
    if xs != [] {
      FlattenLengths(xs[1..], ys[1..]);
      forall i | 1 <= i < |xs| ensures xs[i] == xs[1..][i - 1] && ys[i] == ys[1..][i - 1] {}
    }
  }

  /** The nodes at which the preserve walk stops without putting the old value back. */
  lemma StopReportsNone(t: Type, before: Value, after: Value, path: string)
    requires Conforms(t, before) && Conforms(t, after) && path != "" && !RequiresRestart(path)
    requires !IsRestartAncestor(path) || t.LeafType? || t.SliceType?
    ensures NoneRestart(Compare(t, Some(before), Some(after), path))
  {
    forall q | q in Compare(t, Some(before), Some(after), path) ensures !RequiresRestart(q) {
      ReportsExtend(t, Some(before), Some(after), path, q);
      StopIsSafe(path, q);
    }
  }

  ghost function Kept(t: Type, before: Value, after: Value, path: string): seq<string>
    requires Conforms(t, before) && Conforms(t, after)
  {
    Compare(t, Some(before), Some(PreserveRestart(t, before, after, path)), path)
  }

  ghost function Wanted(t: Type, before: Value, after: Value, path: string): seq<string>
    requires Conforms(t, before) && Conforms(t, after)
  {
    Filter(NeedsNoRestart, Compare(t, Some(before), Some(after), path))
  }

  /** A pair that separates commutes; any other keeps a restart-required report or loses one that needs none. */
  ghost predicate Decided(t: Type, before: Value, after: Value, path: string)
    requires Conforms(t, before) && Conforms(t, after)
  {
    var kept, wanted := Kept(t, before, after, path), Wanted(t, before, after, path);
    && (Separates(t, before, after, path) ==> kept == wanted)
    && (NoneRestart(kept) ==> |kept| <= |wanted| && (|kept| == |wanted| ==> Separates(t, before, after, path)))
  }

  lemma DecidedAtRoot(t: Type, before: Value, after: Value, path: string)
    requires Conforms(t, before) && Conforms(t, after) && path != "" && RequiresRestart(path)
    ensures Decided(t, before, after, path)
  {
    var reports := Compare(t, Some(before), Some(after), path);
    CompareSelf(t, before, path);
    RootReportsRestartIff(t, before, after, path);
    if AllRestart(reports) {
      FilterNone(NeedsNoRestart, reports);
    } else {
      var q :| q in reports && !RequiresRestart(q);
      assert q in Filter(NeedsNoRestart, reports);
    }
  }

  lemma DecidedAtStop(t: Type, before: Value, after: Value, path: string)
    requires Conforms(t, before) && Conforms(t, after) && path != "" && !RequiresRestart(path)
    requires !IsRestartAncestor(path) || t.LeafType? || t.SliceType? || t.MapType?
    ensures Decided(t, before, after, path)
  {
    var reports := Compare(t, Some(before), Some(after), path);
    if t.MapType? && IsRestartAncestor(path) {
      QuietIffNoneRestart(t, Some(before), Some(after), path);
    } else {
      StopReportsNone(t, before, after, path);
    }
    if NoneRestart(reports) { FilterAll(NeedsNoRestart, reports); }
  }

  /** What one field reports, compared with the preserved and with the new tree. */
  lemma FieldReports(t: Type, before: Value, after: Value, path: string, i: nat)
    requires Conforms(t, before) && Conforms(t, after) && t.StructType? && i < |t.fields|
    requires path == "" || (!RequiresRestart(path) && IsRestartAncestor(path))
    ensures var f, next := t.fields[i], PreserveRestart(t, before, after, path);
            var x, y := Parts(t, before, next, path)[i], Filter(NeedsNoRestart, Parts(t, before, after, path)[i]);
            if f.tag.Skipped? then x == [] && y == []
            else x == Kept(f.ty, before.fields[i], after.fields[i], FieldPath(path, f)) &&
                 y == Wanted(f.ty, before.fields[i], after.fields[i], FieldPath(path, f))
  {
    StructPart(t, before, PreserveRestart(t, before, after, path), path, i);
    StructPart(t, before, after, path, i);
  }

  function FilterEach(keep: string -> bool, xs: seq<seq<string>>): (r: seq<seq<string>>)
    ensures |r| == |xs| && forall i | 0 <= i < |r| :: r[i] == Filter(keep, xs[i])
  {
    seq(|xs|, i requires 0 <= i < |xs| => Filter(keep, xs[i]))
  }

  ghost predicate FieldsDecided(t: Type, before: Value, after: Value, path: string)
    requires Conforms(t, before) && Conforms(t, after) && t.StructType?
  {
    forall i | 0 <= i < |t.fields| && !t.fields[i].tag.Skipped? ::
      Decided(t.fields[i].ty, before.fields[i], after.fields[i], FieldPath(path, t.fields[i]))
  }

  /** What the preserved struct reports, and what it should report, field by field. */
  lemma StructReports(t: Type, before: Value, after: Value, path: string, xs: seq<seq<string>>, zs: seq<seq<string>>)
    requires Conforms(t, before) && Conforms(t, after) && t.StructType?
    requires xs == Parts(t, before, PreserveRestart(t, before, after, path), path)
    requires zs == FilterEach(NeedsNoRestart, Parts(t, before, after, path))
    requires path == "" || (!RequiresRestart(path) && IsRestartAncestor(path))
    ensures Kept(t, before, after, path) == Flatten(xs) && Wanted(t, before, after, path) == Flatten(zs)
  {
    FilterFlatten(NeedsNoRestart, Parts(t, before, after, path), zs);
  }

  lemma DecidedStruct(t: Type, before: Value, after: Value, path: string)
    requires Conforms(t, before) && Conforms(t, after) && t.StructType?
    requires path == "" || (!RequiresRestart(path) && IsRestartAncestor(path))
    requires FieldsDecided(t, before, after, path)
    ensures Decided(t, before, after, path)
  {
    var xs := Parts(t, before, PreserveRestart(t, before, after, path), path);
    var zs := FilterEach(NeedsNoRestart, Parts(t, before, after, path));
    StructReports(t, before, after, path, xs, zs);
    if Separates(t, before, after, path) {
      forall i | 0 <= i < |xs| ensures xs[i] == zs[i] { FieldReports(t, before, after, path, i); }
      assert xs == zs;
    }
    if NoneRestart(Flatten(xs)) { StructSeparates(t, before, after, path, xs, zs); }
  }

  lemma StructSeparates(t: Type, before: Value, after: Value, path: string, xs: seq<seq<string>>, zs: seq<seq<string>>)
    requires Conforms(t, before) && Conforms(t, after) && t.StructType?
    requires path == "" || (!RequiresRestart(path) && IsRestartAncestor(path))
    requires FieldsDecided(t, before, after, path) && NoneRestart(Flatten(xs))
    requires xs == Parts(t, before, PreserveRestart(t, before, after, path), path)
    requires zs == FilterEach(NeedsNoRestart, Parts(t, before, after, path))
    ensures |Flatten(xs)| <= |Flatten(zs)|
    ensures |Flatten(xs)| == |Flatten(zs)| ==> Separates(t, before, after, path)
  {
    NoneRestartFlatten(xs);
    forall i | 0 <= i < |xs| ensures |xs[i]| <= |zs[i]| { FieldReports(t, before, after, path, i); }
    FlattenLengths(xs, zs);
    if |Flatten(xs)| == |Flatten(zs)| {
      forall i | 0 <= i < |t.fields| && !t.fields[i].tag.Skipped?
        ensures Separates(t.fields[i].ty, before.fields[i], after.fields[i], FieldPath(path, t.fields[i]))
      {
        FieldReports(t, before, after, path, i);
      }
    }
  }

  lemma {:induction false} EveryPairIsDecided(t: Type, before: Value, after: Value, path: string)
    requires Conforms(t, before) && Conforms(t, after) && Addressed(t, path)
    ensures Decided(t, before, after, path)
    decreases t
  {
    if path != "" && RequiresRestart(path) {
      DecidedAtRoot(t, before, after, path);
    } else if path != "" && (!IsRestartAncestor(path) || t.LeafType? || t.SliceType? || t.MapType?) {
      DecidedAtStop(t, before, after, path);
    } else if t.PtrType? {
      DecidedPointer(t, before, after, path);
      if before.Ptr? && after.Ptr? { EveryPairIsDecided(t.elem, before.target, after.target, path); }
    } else {
      forall i | 0 <= i < |t.fields| && !t.fields[i].tag.Skipped?
        ensures Decided(t.fields[i].ty, before.fields[i], after.fields[i], FieldPath(path, t.fields[i]))
      {
        ChildAddressed(t, before, after, path, i);
        EveryPairIsDecided(t.fields[i].ty, before.fields[i], after.fields[i], FieldPath(path, t.fields[i]));
      }
      DecidedStruct(t, before, after, path);
    }
  }

  lemma DecidedPointer(t: Type, before: Value, after: Value, path: string)
    requires t.PtrType? && Conforms(t, before) && Conforms(t, after)
    requires path != "" && !RequiresRestart(path) && IsRestartAncestor(path)
    ensures before.Ptr? && after.Ptr? && Decided(t.elem, before.target, after.target, path) ==> Decided(t, before, after, path)
    ensures !(before.Ptr? && after.Ptr?) ==> Decided(t, before, after, path)
  {
    if before.Ptr? && after.Ptr? {
      var next := PreserveRestart(t, before, after, path);
      PointerCompares(t, before, after, path);
      PointerCompares(t, before, next, path);
    } else {
      CompareSelf(t, before, path);
      if before.NilPtr? && after.NilPtr? {
        assert Compare(t, Some(before), Some(after), path) == [];
      } else {
        assert path in Filter(NeedsNoRestart, Compare(t, Some(before), Some(after), path));
      }
    }
  }

  /** Comparing with the preserved tree is comparing with the new one and dropping the
      restart-required paths, in the same order, if and only if the pair separates. */
  lemma PreserveFiltersCompareIff(t: Type, before: Value, after: Value, path: string)
    requires Conforms(t, before) && Conforms(t, after) && Addressed(t, path)
    ensures Compare(t, Some(before), Some(PreserveRestart(t, before, after, path)), path)
         == Filter(NeedsNoRestart, Compare(t, Some(before), Some(after), path))
       <==> Separates(t, before, after, path)
  {
    EveryPairIsDecided(t, before, after, path);
  }

  /** Diff and preserve commute on a pair of configurations, `compareConfigs` against the
      preserved tree being `compareConfigs` against the new tree without the restart-required
      paths, if and only if the pair separates. */
  lemma PreserveCommutesIff(t: Type, before: Value, after: Value)
    requires Conforms(t, before) && Conforms(t, after) && Addressed(t, "")
    ensures CompareConfigs(t, before, PreserveRestart(t, before, after, ""))
         == Filter(NeedsNoRestart, CompareConfigs(t, before, after))
       <==> Separates(t, before, after, "")
  {
    var kept, wanted := Kept(t, before, after, ""), Wanted(t, before, after, "");
    EveryPairIsDecided(t, before, after, "");
    SortCommutesWithFilter(NeedsNoRestart, Compare(t, Some(before), Some(after), ""));
    if Sort(kept) == Sort(wanted) {
      SortIsOrderedPermutation(kept);
      SortIsOrderedPermutation(wanted);
      assert multiset(kept) == multiset(wanted);
      assert |kept| == |multiset(kept)| && |wanted| == |multiset(wanted)|;
      forall q | q in kept ensures !RequiresRestart(q) {
        assert q in multiset(kept);
        assert q in wanted;
      }
    }
  }

  // --- Agreement at the restart-required settings ---

  /** The two trees hold the same values at every restart-required setting. */
  ghost predicate RestartAgree(t: Type, a: Value, b: Value, path: string)
    requires Conforms(t, a) && Conforms(t, b)
    decreases t
  {
    if path != "" && RequiresRestart(path) then Same(t, a, b)
    else if path != "" && !IsRestartAncestor(path) then true
    else match t
      case PtrType(e) => a.NilPtr? == b.NilPtr? && (a.Ptr? ==> RestartAgree(e, a.target, b.target, path))
      case StructType(fs) =>
        forall i | 0 <= i < |fs| && !fs[i].tag.Skipped? ::
          RestartAgree(fs[i].ty, a.fields[i], b.fields[i], FieldPath(path, fs[i]))
      case MapType(_) => Quiet(t, Some(a), Some(b), path)
      case _ => true
  }

  lemma NoneRestartFlatten(parts: seq<seq<string>>)
    ensures NoneRestart(Flatten(parts)) <==> forall i | 0 <= i < |parts| :: NoneRestart(parts[i])
  {
    forall q: string ensures q in Flatten(parts) <==> exists i | 0 <= i < |parts| :: q in parts[i] {
      InFlatten(parts, q);
    }
  }

  lemma AgreeAtRoot(t: Type, a: Value, b: Value, path: string)
    requires Conforms(t, a) && Conforms(t, b) && path != "" && RequiresRestart(path)
    ensures Same(t, a, b) <==> WithinRoot(t, a, b, path) && NoneRestart(Compare(t, Some(a), Some(b), path))
  {
    var reports := Compare(t, Some(a), Some(b), path);
    CompareEmptyIffSame(t, Some(a), Some(b), path);
    RootReportsRestartIff(t, a, b, path);
    if reports != [] { assert reports[0] in reports; }
  }

  ghost predicate FieldAgrees(t: Type, a: Value, b: Value, path: string, i: nat)
    requires t.StructType? && Conforms(t, a) && Conforms(t, b) && i < |t.fields|
  {
    var f := t.fields[i];
    RestartAgree(f.ty, a.fields[i], b.fields[i], FieldPath(path, f)) <==>
    Separates(f.ty, a.fields[i], b.fields[i], FieldPath(path, f)) &&
    NoneRestart(Compare(f.ty, Some(a.fields[i]), Some(b.fields[i]), FieldPath(path, f)))
  }

  lemma AgreeStruct(t: Type, a: Value, b: Value, path: string)
    requires Conforms(t, a) && Conforms(t, b) && t.StructType?
    requires path == "" || (!RequiresRestart(path) && IsRestartAncestor(path))
    requires forall i | 0 <= i < |t.fields| && !t.fields[i].tag.Skipped? :: FieldAgrees(t, a, b, path, i)
    ensures RestartAgree(t, a, b, path) <==> Separates(t, a, b, path) && NoneRestart(Compare(t, Some(a), Some(b), path))
  {
    var parts := Parts(t, a, b, path);
    forall i | 0 <= i < |parts|
      ensures NoneRestart(parts[i]) <==>
              t.fields[i].tag.Skipped? ||
              NoneRestart(Compare(t.fields[i].ty, Some(a.fields[i]), Some(b.fields[i]), FieldPath(path, t.fields[i])))
    {
      StructPart(t, a, b, path, i);
    }
    NoneRestartFlatten(parts);
    assert Compare(t, Some(a), Some(b), path) == Flatten(parts);
    assert forall i | 0 <= i < |t.fields| && !t.fields[i].tag.Skipped? :: FieldAgrees(t, a, b, path, i);
  }

  lemma AgreeAtStop(t: Type, a: Value, b: Value, path: string)
    requires Conforms(t, a) && Conforms(t, b) && path != "" && !RequiresRestart(path)
    requires !IsRestartAncestor(path) || t.LeafType? || t.SliceType?
    ensures RestartAgree(t, a, b, path) && Separates(t, a, b, path) && NoneRestart(Compare(t, Some(a), Some(b), path))
  {
    StopReportsNone(t, a, b, path);
  }

  lemma AgreePointer(t: Type, a: Value, b: Value, path: string)
    requires Conforms(t, a) && Conforms(t, b) && t.PtrType?
    requires path == "" || (!RequiresRestart(path) && IsRestartAncestor(path))
    requires a.Ptr? && b.Ptr? ==>
               (RestartAgree(t.elem, a.target, b.target, path) <==>
                Separates(t.elem, a.target, b.target, path) && NoneRestart(Compare(t.elem, Some(a.target), Some(b.target), path)))
    ensures RestartAgree(t, a, b, path) <==> Separates(t, a, b, path) && NoneRestart(Compare(t, Some(a), Some(b), path))
  {
    if a.Ptr? && b.Ptr? {
      PointerCompares(t, a, b, path);
    } else if a.NilPtr? && b.NilPtr? {
      assert Compare(t, Some(a), Some(b), path) == [];
    }
  }

  /** Two trees agree on all restart-required settings exactly when the pair separates and the
      diff reports none of them. */
  lemma {:induction false} RestartAgreeIffNoneReported(t: Type, a: Value, b: Value, path: string)
    requires Conforms(t, a) && Conforms(t, b) && Addressed(t, path)
    ensures RestartAgree(t, a, b, path) <==> Separates(t, a, b, path) && NoneRestart(Compare(t, Some(a), Some(b), path))
    decreases t
  {
    if path != "" && RequiresRestart(path) {
      AgreeAtRoot(t, a, b, path);
    } else if path != "" && (!IsRestartAncestor(path) || t.LeafType? || t.SliceType?) {
      AgreeAtStop(t, a, b, path);
    } else if t.PtrType? {
      if a.Ptr? && b.Ptr? { RestartAgreeIffNoneReported(t.elem, a.target, b.target, path); }
      AgreePointer(t, a, b, path);
    } else if t.StructType? {
      forall i | 0 <= i < |t.fields| && !t.fields[i].tag.Skipped? ensures FieldAgrees(t, a, b, path, i) {
        ChildAddressed(t, a, b, path, i);
        RestartAgreeIffNoneReported(t.fields[i].ty, a.fields[i], b.fields[i], FieldPath(path, t.fields[i]));
      }
      AgreeStruct(t, a, b, path);
    } else if t.MapType? {
      QuietIffNoneRestart(t, Some(a), Some(b), path);
    }
  }

  /** No map stands above a restart root. */
  predicate NoMapAbove(t: Type, path: string) {
    if path != "" && (RequiresRestart(path) || !IsRestartAncestor(path)) then true
    else match t
      case PtrType(e) => NoMapAbove(e, path)
      case StructType(fs) => forall i | 0 <= i < |fs| && !fs[i].tag.Skipped? :: NoMapAbove(fs[i].ty, FieldPath(path, fs[i]))
      case MapType(_) => false
      case _ => true
  }

  lemma {:induction false} ShapeHasNoMapAbove(t: Type, path: string)
    requires RestartShape(t, path)
    ensures NoMapAbove(t, path)
    decreases t
  {
    if t.StructType? && (path == "" || (!RequiresRestart(path) && IsRestartAncestor(path))) {
      forall i | 0 <= i < |t.fields| && !t.fields[i].tag.Skipped? ensures NoMapAbove(t.fields[i].ty, FieldPath(path, t.fields[i])) {
        ShapeHasNoMapAbove(t.fields[i].ty, FieldPath(path, t.fields[i]));
      }
    }
  }

  lemma {:induction false} RestartAgreeIsTransitive(t: Type, a: Value, b: Value, c: Value, path: string)
    requires Conforms(t, a) && Conforms(t, b) && Conforms(t, c)
    requires RestartAgree(t, a, b, path) && RestartAgree(t, b, c, path) && NoMapAbove(t, path)
    ensures RestartAgree(t, a, c, path)
    decreases t
  {
    if path != "" && RequiresRestart(path) {
      SameIsTransitive(t, a, b, c);
    } else if path == "" || IsRestartAncestor(path) {
      match t
      case PtrType(e) => if a.Ptr? { RestartAgreeIsTransitive(e, a.target, b.target, c.target, path); }
      case StructType(fs) =>
        forall i | 0 <= i < |fs| && !fs[i].tag.Skipped?
          ensures RestartAgree(fs[i].ty, a.fields[i], c.fields[i], FieldPath(path, fs[i]))
        {
          RestartAgreeIsTransitive(fs[i].ty, a.fields[i], b.fields[i], c.fields[i], FieldPath(path, fs[i]));
        }
      case _ =>
    }
  }

  // --- Schemas on which every pair separates ---

  /** The type has two values that the walk tells apart. */
  predicate Varies(t: Type) {
    t.StructType? ==> exists i | 0 <= i < |t.fields| :: !t.fields[i].tag.Skipped? && Varies(t.fields[i].ty)
  }

  /** Every path that can be reported at or below a restart root needs a restart itself. */
  predicate Covered(t: Type, path: string) {
    match t
    case LeafType => true
    case PtrType(e) => Covered(e, path)
    case StructType(fs) =>
      forall i | 0 <= i < |fs| && !fs[i].tag.Skipped? ::
        if fs[i].tag.Inline? then Covered(fs[i].ty, path) else UnderDotted(path + ".") || !Varies(fs[i].ty)
    case MapType(_) => UnderDotted(path + ".")
    case SliceType(_) => UnderDotted(path)
  }

  /** The walk reaches every restart root through structs, and each root is covered. */
  predicate RestartShape(t: Type, path: string) {
    if path != "" && RequiresRestart(path) then Covered(t, path)
    else if path != "" && !IsRestartAncestor(path) then true
    else match t
      case StructType(fs) =>
        forall i | 0 <= i < |fs| && !fs[i].tag.Skipped? :: RestartShape(fs[i].ty, FieldPath(path, fs[i]))
      case LeafType => true
      case SliceType(_) => true
      case _ => false
  }

  lemma {:induction false} OneValueOnly(t: Type, a: Value, b: Value)
    requires Conforms(t, a) && Conforms(t, b) && !Varies(t)
    ensures Same(t, a, b)
    decreases t
  {
    forall i | 0 <= i < |t.fields| && !t.fields[i].tag.Skipped? ensures Same(t.fields[i].ty, a.fields[i], b.fields[i]) {
      OneValueOnly(t.fields[i].ty, a.fields[i], b.fields[i]);
    }
  }

  lemma {:induction false} CoveredIsWithinRoot(t: Type, a: Value, b: Value, path: string)
    requires Conforms(t, a) && Conforms(t, b) && Covered(t, path)
    ensures WithinRoot(t, a, b, path)
    decreases t
  {
    match t
    case PtrType(e) => if a.Ptr? && b.Ptr? { CoveredIsWithinRoot(e, a.target, b.target, path); }
    case StructType(fs) =>
      forall i | 0 <= i < |fs| && !fs[i].tag.Skipped?
        ensures if fs[i].tag.Inline? then WithinRoot(fs[i].ty, a.fields[i], b.fields[i], path)
                else UnderDotted(path + ".") || Same(fs[i].ty, a.fields[i], b.fields[i])
      {
        if fs[i].tag.Inline? {
          CoveredIsWithinRoot(fs[i].ty, a.fields[i], b.fields[i], path);
        } else if !UnderDotted(path + ".") {
          OneValueOnly(fs[i].ty, a.fields[i], b.fields[i]);
        }
      }
    case _ =>
  }

  /** Every path reported at or below a covered restart root needs a restart. */
  lemma CoveredReportsRestart(t: Type, before: Value, after: Value, path: string, q: string)
    requires Conforms(t, before) && Conforms(t, after) && path != "" && RequiresRestart(path) && Covered(t, path)
    requires q in Compare(t, Some(before), Some(after), path)
    ensures RequiresRestart(q)
  {
    CoveredIsWithinRoot(t, before, after, path);
    RootReportsRestartIff(t, before, after, path);
  }

  /** Where structs lead to the restart roots and each root is covered, every pair separates. */
  lemma {:induction false} ShapeSeparates(t: Type, before: Value, after: Value, path: string)
    requires Conforms(t, before) && Conforms(t, after) && RestartShape(t, path)
    ensures Separates(t, before, after, path)
    decreases t
  {
    if path != "" && RequiresRestart(path) {
      CoveredIsWithinRoot(t, before, after, path);
    } else if path == "" || IsRestartAncestor(path) {
      if t.StructType? {
        forall i | 0 <= i < |t.fields| && !t.fields[i].tag.Skipped?
          ensures Separates(t.fields[i].ty, before.fields[i], after.fields[i], FieldPath(path, t.fields[i]))
        {
          ShapeSeparates(t.fields[i].ty, before.fields[i], after.fields[i], FieldPath(path, t.fields[i]));
        }
      }
    }
  }

  lemma PreserveFiltersCompare(t: Type, before: Value, after: Value, path: string)
    requires Conforms(t, before) && Conforms(t, after) && Addressed(t, path) && RestartShape(t, path)
    ensures Compare(t, Some(before), Some(PreserveRestart(t, before, after, path)), path)
         == Filter(NeedsNoRestart, Compare(t, Some(before), Some(after), path))
  {
    ShapeSeparates(t, before, after, path);
    PreserveFiltersCompareIff(t, before, after, path);
  }

  /** Diff and preserve commute on the pair. */
  ghost predicate Commutes(t: Type, before: Value, after: Value)
    requires Conforms(t, before) && Conforms(t, after)
  {
    CompareConfigs(t, before, PreserveRestart(t, before, after, "")) == Filter(NeedsNoRestart, CompareConfigs(t, before, after))
  }

  /** On such a schema diff and preserve commute for every pair of configurations. */
  lemma PreserveCommutesWithCompare(t: Type, before: Value, after: Value)
    requires Conforms(t, before) && Conforms(t, after) && Addressed(t, "") && RestartShape(t, "")
    ensures Commutes(t, before, after)
  {
    ShapeSeparates(t, before, after, "");
    PreserveCommutesIff(t, before, after);
  }

  function Default(t: Type): (v: Value)
    ensures Conforms(t, v)
  {
    match t
    case LeafType => Leaf("")
    case PtrType(_) => NilPtr
    case StructType(fs) => Struct(seq(|fs|, i requires 0 <= i < |fs| => Default(fs[i].ty)))
    case MapType(_) => NilMap
    case SliceType(_) => NilSlice
  }

  /** The default struct with one field set. */
  function WithField(t: Type, i: nat, v: Value): (s: Value)
    requires t.StructType? && i < |t.fields| && Conforms(t.fields[i].ty, v)
    ensures Conforms(t, s) && s.fields[i] == v
  {
    Struct(Default(t).fields[i := v])
  }

  lemma {:induction false} TwoValues(t: Type) returns (a: Value, b: Value)
    requires Varies(t)
    ensures Conforms(t, a) && Conforms(t, b) && !Same(t, a, b)
    decreases t
  {
    match t
    case LeafType => a, b := Leaf("x"), Leaf("y");
    case PtrType(e) => a, b := NilPtr, Ptr(Default(e));
    case StructType(fs) =>
      var i :| 0 <= i < |fs| && !fs[i].tag.Skipped? && Varies(fs[i].ty);
      var x, y := TwoValues(fs[i].ty);
      a, b := WithField(t, i, x), WithField(t, i, y);
    case MapType(e) => a, b := NilMap, Map(map["x" := Default(e)]);
    case SliceType(e) => a, b := NilSlice, Slice([Default(e)]);
  }

  lemma {:induction false} UncoveredPair(t: Type, path: string) returns (a: Value, b: Value)
    requires !Covered(t, path)
    ensures Conforms(t, a) && Conforms(t, b) && !WithinRoot(t, a, b, path)
    decreases t
  {
    match t
    case PtrType(e) =>
      var x, y := UncoveredPair(e, path);
      a, b := Ptr(x), Ptr(y);
    case StructType(fs) =>
      var i :| 0 <= i < |fs| && !fs[i].tag.Skipped? &&
               !(if fs[i].tag.Inline? then Covered(fs[i].ty, path) else UnderDotted(path + ".") || !Varies(fs[i].ty));
      var x, y;
      if fs[i].tag.Inline? { x, y := UncoveredPair(fs[i].ty, path); } else { x, y := TwoValues(fs[i].ty); }
      a, b := WithField(t, i, x), WithField(t, i, y);
    case MapType(e) =>
      a, b := NilMap, Map(map["x" := Default(e)]);
      assert "x" in Items(a).Keys + Items(b).Keys && !EntrySame(e, Items(a), Items(b), "x");
    case SliceType(e) =>
      a, b := NilSlice, Slice([Default(e)]);
      assert !ElementSame(e, Elems(a), Elems(b), 0) && Max(|Elems(a)|, |Elems(b)|) == 1;
    case LeafType =>
  }

  /** A map above a restart root can lack the entry of that root. */
  lemma MapAboveRoot(e: Type, path: string, p: string) returns (k: string)
    requires path != "" && p in RESTART_PREFIXES && HasPrefix(TrimDot(p), path + ".")
    ensures !Quiet(MapType(e), Some(NilMap), Some(Map(map[k := Default(e)])), path)
  {
    k := TrimDot(p)[|path| + 1..];
    var t, a, b := MapType(e), NilMap, Map(map[k := Default(e)]);
    assert JoinPath(path, k) == TrimDot(p);
    assert Matches(p, TrimDot(p));
    assert |Items(b)| == 1;
    assert k in MapKeys(a, b);
    var i :| 0 <= i < |MapKeys(a, b)| && MapKeys(a, b)[i] == k;
    assert Child(t, a, b, path, i) == Pair(e, None, Some(Default(e)), TrimDot(p));
    assert !QuietChild(t, a, b, path, i);
  }

  lemma MapDoesNotSeparate(t: Type, path: string) returns (a: Value, b: Value)
    requires t.MapType? && path != "" && !RequiresRestart(path) && IsRestartAncestor(path)
    ensures Conforms(t, a) && Conforms(t, b) && !Separates(t, a, b, path)
  {
    var p :| p in RESTART_PREFIXES && HasPrefix(TrimDot(p), path + ".");
    var k := MapAboveRoot(t.elem, path, p);
    a, b := NilMap, Map(map[k := Default(t.elem)]);
  }

  lemma {:induction false} UnseparatedPair(t: Type, path: string) returns (a: Value, b: Value)
    requires Addressed(t, path) && !RestartShape(t, path)
    ensures Conforms(t, a) && Conforms(t, b) && !Separates(t, a, b, path)
    decreases t
  {
    if path != "" && RequiresRestart(path) {
      a, b := UncoveredPair(t, path);
    } else {
      match t
      case PtrType(e) => a, b := NilPtr, Ptr(Default(e));
      case StructType(fs) =>
        var i :| 0 <= i < |fs| && !fs[i].tag.Skipped? && !RestartShape(fs[i].ty, FieldPath(path, fs[i]));
        var x, y := UnseparatedPair(fs[i].ty, FieldPath(path, fs[i]));
        a, b := WithField(t, i, x), WithField(t, i, y);
      case MapType(e) => a, b := MapDoesNotSeparate(t, path);
      case LeafType =>
      case SliceType(_) =>
    }
  }

  /** On any other schema some pair of configurations does not commute. */
  lemma ShapeIsNeeded(t: Type) returns (a: Value, b: Value)
    requires Addressed(t, "") && !RestartShape(t, "")
    ensures Conforms(t, a) && Conforms(t, b) && !Commutes(t, a, b)
  {
    a, b := UnseparatedPair(t, "");
    PreserveCommutesIff(t, a, b);
  }

  /** Diff and preserve commute for every pair of configurations of a schema if and only if
      only structs lead to the restart roots and each root is covered. */
  lemma ShapeIsExact(t: Type)
    requires Addressed(t, "")
    ensures RestartShape(t, "") <==> AlwaysCommutes(t)
  {
    if RestartShape(t, "") {
      AlwaysCommutesIf(t);
    } else {
      var a, b := ShapeIsNeeded(t);
    }
  }

  ghost predicate AlwaysCommutes(t: Type) {
    forall a, b | Conforms(t, a) && Conforms(t, b) :: Commutes(t, a, b)
  }

  lemma AlwaysCommutesIf(t: Type)
    requires Addressed(t, "") && RestartShape(t, "")
    ensures AlwaysCommutes(t)
  {
    forall a, b | Conforms(t, a) && Conforms(t, b) ensures Commutes(t, a, b) { PreserveCommutesWithCompare(t, a, b); }
  }
}
