/** `preserveConfigPaths` and `copyConfigPath`: roll selected settings back to
    the running values, following named struct fields only. */
module CopyPath {
  import opened Options
  import opened Strings
  import opened ConfigTree
  import opened ReloadPaths
  import opened Preserve

  /** The first exported, named, non-inline field with this YAML name. */
  function FindField(fs: seq<Field>, name: string, from: nat): (r: Option<nat>)
    requires from <= |fs|
    ensures r.Some? ==> from <= r.value < |fs| && fs[r.value].tag.Named? && fs[r.value].name == name
    ensures r.None? ==> forall j | from <= j < |fs| :: !(fs[j].tag.Named? && fs[j].name == name)
    decreases |fs| - from
  {
    if from == |fs| then None
    else if fs[from].tag.Named? && fs[from].name == name then Some(from)
    else FindField(fs, name, from + 1)
  }

  /** The tree `after` with the value of `before` at `parts` written over it. */
  function CopyAt(t: Type, before: Value, after: Value, parts: seq<string>): (r: Value)
    requires Conforms(t, before) && Conforms(t, after)
    ensures Conforms(t, r)
    decreases t
  {
    if parts == [] then after
    else match t
      case PtrType(e) =>
        if before.NilPtr? || after.NilPtr? then after
        else Ptr(CopyAt(e, before.target, after.target, parts))
      case StructType(fs) =>
        var f := FindField(fs, parts[0], 0);
        if f.None? then after
        else
          var i := f.value;
          var v := if |parts| == 1 then before.fields[i]
                   else CopyAt(fs[i].ty, before.fields[i], after.fields[i], parts[1..]);
          Struct(after.fields[i := v])
      case _ => after
  }

  /** `copyConfigPath` as the source runs it: a scan over the fields of each struct. */
  method CopyConfigPath(t: Type, before: Value, after: Value, parts: seq<string>) returns (r: Value)
    requires Conforms(t, before) && Conforms(t, after)
    ensures r == CopyAt(t, before, after, parts)
    decreases t
  {
    r := after;
    if parts == [] { return; }
    if t.PtrType? {
      if before.NilPtr? || after.NilPtr? { return; }
      var inner := CopyConfigPath(t.elem, before.target, after.target, parts);
      return Ptr(inner);
    }
    if !t.StructType? { return; }
    var fs := t.fields;
    var index := 0;
    while index < |fs|
      invariant 0 <= index <= |fs| && r == after
      invariant FindField(fs, parts[0], 0) == FindField(fs, parts[0], index)
    {
      if fs[index].tag.Named? && fs[index].name == parts[0] {
        if |parts| == 1 {
          return Struct(after.fields[index := before.fields[index]]);
        }
        var v := CopyConfigPath(fs[index].ty, before.fields[index], after.fields[index], parts[1..]);
        return Struct(after.fields[index := v]);
      }
      index := index + 1;
    }
  }

  function CopyAll(t: Type, before: Value, after: Value, paths: seq<string>): (r: Value)
    requires Conforms(t, before) && Conforms(t, after)
    ensures Conforms(t, r)
    decreases |paths|
  {
    if paths == [] then after
    else CopyAll(t, before, CopyAt(t, before, after, Split(paths[0], '.')), paths[1..])
  }

  lemma CopyAllStep(t: Type, before: Value, after: Value, paths: seq<string>, i: nat)
    requires Conforms(t, before) && Conforms(t, after) && i < |paths|
    ensures CopyAll(t, before, after, paths[..i + 1]) ==
            CopyAt(t, before, CopyAll(t, before, after, paths[..i]), Split(paths[i], '.'))
    decreases |paths|
  {
    if i == 0 {
      assert paths[..1][1..] == [];
    } else {
      assert paths[..i + 1][1..] == paths[1..][..i] && paths[..i][1..] == paths[1..][..i - 1];
      CopyAllStep(t, before, CopyAt(t, before, after, Split(paths[0], '.')), paths[1..], i - 1);
    }
  }

  /** `preserveConfigPaths`. */
  method PreserveConfigPaths(t: Type, before: Value, after: Value, paths: seq<string>) returns (r: Value)
    requires Conforms(t, before) && Conforms(t, after)
    ensures r == CopyAll(t, before, after, paths)
  {
    r := after;
    var i := 0;
    while i < |paths|
      invariant 0 <= i <= |paths|
      invariant r == CopyAll(t, before, after, paths[..i])
    {
      CopyAllStep(t, before, after, paths, i);
      r := CopyConfigPath(t, before, r, Split(paths[i], '.'));
      i := i + 1;
    }
    assert paths[..i] == paths;
  }

  // --- Which paths a copy reaches ---

  /** The path names a chain of named struct fields, with pointers in between:
      no inline field, list element or map key. */
  predicate Reaches(t: Type, parts: seq<string>)
    decreases t
  {
    parts != [] &&
    match t
    case PtrType(e) => Reaches(e, parts)
    case StructType(fs) =>
      var f := FindField(fs, parts[0], 0);
      f.Some? && (|parts| == 1 || Reaches(fs[f.value].ty, parts[1..]))
    case _ => false
  }

  /** A path the copy does not reach leaves the tree as it is. */
  lemma {:induction false} UnreachedIsUnchanged(t: Type, before: Value, after: Value, parts: seq<string>)
    requires Conforms(t, before) && Conforms(t, after) && !Reaches(t, parts)
    ensures CopyAt(t, before, after, parts) == after
    decreases t
  {
    if parts != [] {
      match t
      case PtrType(e) =>
        if before.Ptr? && after.Ptr? { UnreachedIsUnchanged(e, before.target, after.target, parts); }
      case StructType(fs) =>
        var f := FindField(fs, parts[0], 0);
        if f.Some? {
          var i := f.value;
          UnreachedIsUnchanged(fs[i].ty, before.fields[i], after.fields[i], parts[1..]);
          assert after.fields[i := after.fields[i]] == after.fields;
        }
      case _ =>
    }
  }

  predicate PlainName(n: string) {
    n != "" && '.' !in n && '[' !in n
  }

  /** `n` is the field's own YAML name, or one it inlines into its parent. */
  predicate HasName(f: Field, n: string) {
    match f.tag
    case Skipped => false
    case Named => f.name == n
    case Inline => f.ty.StructType? && exists i | 0 <= i < |f.ty.fields| :: HasName(f.ty.fields[i], n)
  }

  /** YAML names are plain, inline fields are structs, and no two fields of a
      struct claim one name. */
  ghost predicate WellNamed(t: Type) {
    match t
    case LeafType => true
    case PtrType(e) => WellNamed(e)
    case MapType(e) => WellNamed(e)
    case SliceType(e) => WellNamed(e)
    case StructType(fs) =>
      && (forall i | 0 <= i < |fs| && !fs[i].tag.Skipped? ::
            && WellNamed(fs[i].ty)
            && (fs[i].tag.Named? ==> PlainName(fs[i].name))
            && (fs[i].tag.Inline? ==> fs[i].ty.StructType?))
      && (forall i, j, n | 0 <= i < j < |fs| && HasName(fs[i], n) :: !HasName(fs[j], n))
  }

  /** The YAML path that `parts` spells below `path`. */
  function Target(path: string, parts: seq<string>): string
    decreases |parts|
  {
    if parts == [] then path else Target(JoinPath(path, parts[0]), parts[1..])
  }

  lemma {:induction false} ReachedPartsArePlain(t: Type, parts: seq<string>)
    requires WellNamed(t) && Reaches(t, parts)
    ensures forall i | 0 <= i < |parts| :: PlainName(parts[i])
    decreases t
  {
    match t
    case PtrType(e) => ReachedPartsArePlain(e, parts);
    case StructType(fs) =>
      var i := FindField(fs, parts[0], 0).value;
      if |parts| > 1 {
        ReachedPartsArePlain(fs[i].ty, parts[1..]);
        forall j | 0 <= j < |parts| ensures PlainName(parts[j]) {
          if j > 0 { assert parts[j] == parts[1..][j - 1]; }
        }
      }
  }

  lemma {:induction false} TargetExtends(path: string, parts: seq<string>)
    requires parts != [] && forall i | 0 <= i < |parts| :: PlainName(parts[i])
    ensures Extends(Target(path, parts), JoinPath(path, parts[0]))
    decreases |parts|
  {
    var p := JoinPath(path, parts[0]);
    if |parts| > 1 {
      var q := JoinPath(p, parts[1]);
      TargetExtends(p, parts[1..]);
      assert Extends(q, p);
      ExtendsIsTransitive(Target(path, parts), q, p);
    }
  }

  /** A reached path and its parts spell each other. */
  lemma {:induction false} TargetIsJoin(path: string, parts: seq<string>)
    requires parts != [] && forall i | 0 <= i < |parts| :: PlainName(parts[i])
    ensures Target(path, parts) == JoinPath(path, Join(parts, '.'))
    decreases |parts|
  {
    if |parts| > 1 {
      TargetIsJoin(JoinPath(path, parts[0]), parts[1..]);
      var rest := Join(parts[1..], '.');
      assert Join(parts, '.') == parts[0] + ['.'] + rest;
      assert JoinPath(path, parts[0]) + "." + rest == JoinPath(path, parts[0] + ['.'] + rest);
    }
  }

  lemma ReachedTarget(t: Type, p: string)
    requires WellNamed(t) && Reaches(t, Split(p, '.'))
    ensures Target("", Split(p, '.')) == p
  {
    ReachedPartsArePlain(t, Split(p, '.'));
    TargetIsJoin("", Split(p, '.'));
    JoinSplit(p, '.');
  }

  /** A path lies below at most one plain name. */
  lemma OneNamePerPath(path: string, m: string, n: string, q: string)
    requires PlainName(m) && PlainName(n)
    requires Extends(q, JoinPath(path, m)) && Extends(q, JoinPath(path, n))
    ensures m == n
  {
    var b := if path == "" then 0 else |path| + 1;
    assert |JoinPath(path, m)| == b + |m| && |JoinPath(path, n)| == b + |n|;
    assert q[b..b + |m|] == m by { assert q[..b + |m|][b..] == m; }
    assert q[b..b + |n|] == n by { assert q[..b + |n|][b..] == n; }
  }

  /** A path reported for the i-th field lies below one of that field's names. */
  lemma {:induction false} ReportedUnderAName(t: Type, a: Value, b: Value, path: string, i: nat, q: string) returns (n: string)
    requires t.StructType? && WellNamed(t) && Conforms(t, a) && Conforms(t, b) && i < |t.fields|
    requires q in Parts(t, a, b, path)[i]
    ensures HasName(t.fields[i], n) && PlainName(n) && Extends(q, JoinPath(path, n))
    decreases t
  {
    StructPart(t, a, b, path, i);
    var f := t.fields[i];
    if f.tag.Named? {
      n := f.name;
      ReportsExtend(f.ty, Some(a.fields[i]), Some(b.fields[i]), JoinPath(path, n), q);
    } else {
      InCompare(f.ty, a.fields[i], b.fields[i], path, q);
      var j :| 0 <= j < |f.ty.fields| && q in Parts(f.ty, a.fields[i], b.fields[i], path)[j];
      n := ReportedUnderAName(f.ty, a.fields[i], b.fields[i], path, j, q);
    }
  }

  /** Only the i-th field reports paths below its own name. */
  lemma OnlyOneFieldReports(t: Type, a: Value, b: Value, path: string, i: nat, j: nat, p: string, q: string)
    requires t.StructType? && WellNamed(t) && Conforms(t, a) && Conforms(t, b)
    requires i < |t.fields| && j < |t.fields| && t.fields[i].tag.Named?
    requires Extends(p, JoinPath(path, t.fields[i].name))
    requires q in Parts(t, a, b, path)[j] && Extends(q, p)
    ensures i == j
  {
    var n := ReportedUnderAName(t, a, b, path, j, q);
    ExtendsIsTransitive(q, p, JoinPath(path, t.fields[i].name));
    OneNamePerPath(path, t.fields[i].name, n, q);
    assert HasName(t.fields[i], n);
  }

  function Outside(p: string): string -> bool {
    q => !Extends(q, p)
  }

  /** A copy that reaches its target drops exactly the reports at or below it. */
  lemma {:induction false} CopyFiltersCompare(t: Type, before: Value, after: Value, path: string, parts: seq<string>)
    requires Conforms(t, before) && Conforms(t, after)
    requires WellNamed(t) && Reaches(t, parts)
    ensures Compare(t, Some(before), Some(CopyAt(t, before, after, parts)), path)
         == Filter(Outside(Target(path, parts)), Compare(t, Some(before), Some(after), path))
    decreases t
  {
    if t.PtrType? {
      CopyFiltersPointer(t, before, after, path, parts);
      if before.Ptr? && after.Ptr? {
        CopyFiltersCompare(t.elem, before.target, after.target, path, parts);
      }
    } else {
      var i := FindField(t.fields, parts[0], 0).value;
      if |parts| > 1 {
        CopyFiltersCompare(t.fields[i].ty, before.fields[i], after.fields[i], JoinPath(path, parts[0]), parts[1..]);
      }
      CopyFiltersStruct(t, before, after, path, parts, i);
    }
  }

  lemma CopyFiltersStruct(t: Type, before: Value, after: Value, path: string, parts: seq<string>, i: nat)
    requires t.StructType? && Conforms(t, before) && Conforms(t, after)
    requires WellNamed(t) && Reaches(t, parts) && FindField(t.fields, parts[0], 0) == Some(i)
    requires var p := JoinPath(path, parts[0]);
             |parts| > 1 ==>
               Compare(t.fields[i].ty, Some(before.fields[i]),
                       Some(CopyAt(t.fields[i].ty, before.fields[i], after.fields[i], parts[1..])), p)
               == Filter(Outside(Target(p, parts[1..])), Compare(t.fields[i].ty, Some(before.fields[i]), Some(after.fields[i]), p))
    ensures Compare(t, Some(before), Some(CopyAt(t, before, after, parts)), path)
         == Filter(Outside(Target(path, parts)), Compare(t, Some(before), Some(after), path))
  {
    var kept := CopyAt(t, before, after, parts);
    forall j | 0 <= j < |t.fields| && !t.fields[j].tag.Skipped?
      ensures FieldFiltered(Outside(Target(path, parts)), t, before, after, kept, path, j)
    {
      CopyFiltersField(t, before, after, path, parts, i, j);
    }
    StructFilter(Outside(Target(path, parts)), t, before, after, kept, path);
  }

  lemma CopyFiltersField(t: Type, before: Value, after: Value, path: string, parts: seq<string>, i: nat, j: nat)
    requires t.StructType? && Conforms(t, before) && Conforms(t, after)
    requires WellNamed(t) && Reaches(t, parts) && FindField(t.fields, parts[0], 0) == Some(i)
    requires j < |t.fields| && !t.fields[j].tag.Skipped?
    requires var p := JoinPath(path, parts[0]);
             |parts| > 1 ==>
               Compare(t.fields[i].ty, Some(before.fields[i]),
                       Some(CopyAt(t.fields[i].ty, before.fields[i], after.fields[i], parts[1..])), p)
               == Filter(Outside(Target(p, parts[1..])), Compare(t.fields[i].ty, Some(before.fields[i]), Some(after.fields[i]), p))
    ensures FieldFiltered(Outside(Target(path, parts)), t, before, after, CopyAt(t, before, after, parts), path, j)
  {
    if j != i {
      StructPart(t, before, after, path, j);
      CopyFiltersOtherField(t, before, after, path, parts, i, j);
    } else if |parts| == 1 {
      ReachedPartsArePlain(t, parts);
      CopyFiltersLastField(t, before, after, path, i);
    }
  }

  lemma CopyFiltersOtherField(t: Type, a: Value, b: Value, path: string, parts: seq<string>, i: nat, j: nat)
    requires t.StructType? && WellNamed(t) && Conforms(t, a) && Conforms(t, b)
    requires Reaches(t, parts) && i == FindField(t.fields, parts[0], 0).value
    requires j < |t.fields| && j != i
    ensures Filter(Outside(Target(path, parts)), Parts(t, a, b, path)[j]) == Parts(t, a, b, path)[j]
  {
    var p := Target(path, parts);
    ReachedPartsArePlain(t, parts);
    TargetExtends(path, parts);
    forall q | q in Parts(t, a, b, path)[j] ensures Outside(p)(q) {
      if Extends(q, p) { OnlyOneFieldReports(t, a, b, path, i, j, p, q); }
    }
    FilterAll(Outside(p), Parts(t, a, b, path)[j]);
  }

  lemma CopyFiltersLastField(t: Type, a: Value, b: Value, path: string, i: nat)
    requires t.StructType? && Conforms(t, a) && Conforms(t, b) && i < |t.fields|
    requires t.fields[i].tag.Named? && PlainName(t.fields[i].name)
    ensures var p := JoinPath(path, t.fields[i].name);
            && Compare(t.fields[i].ty, Some(a.fields[i]), Some(a.fields[i]), p) == []
            && Filter(Outside(p), Compare(t.fields[i].ty, Some(a.fields[i]), Some(b.fields[i]), p)) == []
  {
    var p := JoinPath(path, t.fields[i].name);
    CompareSelf(t.fields[i].ty, a.fields[i], p);
    var reports := Compare(t.fields[i].ty, Some(a.fields[i]), Some(b.fields[i]), p);
    forall q | q in reports ensures !Outside(p)(q) {
      ReportsExtend(t.fields[i].ty, Some(a.fields[i]), Some(b.fields[i]), p, q);
    }
    FilterNone(Outside(p), reports);
  }

  lemma CopyFiltersPointer(t: Type, before: Value, after: Value, path: string, parts: seq<string>)
    requires t.PtrType? && Conforms(t, before) && Conforms(t, after)
    requires WellNamed(t) && Reaches(t, parts)
    ensures before.Ptr? && after.Ptr? ==>
              && Compare(t, Some(before), Some(CopyAt(t, before, after, parts)), path)
              == Compare(t.elem, Some(before.target), Some(CopyAt(t.elem, before.target, after.target, parts)), path)
              && Compare(t, Some(before), Some(after), path)
              == Compare(t.elem, Some(before.target), Some(after.target), path)
    ensures !(before.Ptr? && after.Ptr?) ==>
              Compare(t, Some(before), Some(CopyAt(t, before, after, parts)), path)
              == Filter(Outside(Target(path, parts)), Compare(t, Some(before), Some(after), path))
  {
    if before.Ptr? && after.Ptr? {
      PointerCompares(t, before, after, path);
      PointerCompares(t, before, CopyAt(t, before, after, parts), path);
    } else {
      ReachedPartsArePlain(t, parts);
      TargetExtends(path, parts);
      assert |path| < |Target(path, parts)|;
      var reports := Compare(t, Some(before), Some(after), path);
      assert forall q | q in reports :: q == path by {
        if reports == Report(path) {} else { assert Parts(t, before, after, path) == []; }
      }
      FilterAll(Outside(Target(path, parts)), reports);
    }
  }

  // --- Rolling back a list of paths ---

  /** `q` lies at or below a rolled-back path that the copy reaches. */
  predicate RolledBack(t: Type, paths: seq<string>, q: string) {
    exists p | p in paths :: Reaches(t, Split(p, '.')) && Extends(q, p)
  }

  function NotRolledBack(t: Type, paths: seq<string>): string -> bool {
    q => !RolledBack(t, paths, q)
  }

  lemma FilterTwice(f: string -> bool, g: string -> bool, h: string -> bool, xs: seq<string>)
    requires forall q :: h(q) == (f(q) && g(q))
    ensures Filter(g, Filter(f, xs)) == Filter(h, xs)
  {
    if xs != [] {
      FilterTwice(f, g, h, xs[1..]);
      if f(xs[0]) {
        var rest := Filter(f, xs[1..]);
        assert ([xs[0]] + rest)[1..] == rest;
      } else {
        assert Filter(f, xs) == Filter(f, xs[1..]);
      }
    }
  }

  /** `preserveConfigPaths` drops from the diff exactly the reports at or below
      the paths it reaches; paths through an inline field, a list or a map stay. */
  lemma {:induction false} CopyAllFiltersCompare(t: Type, before: Value, after: Value, paths: seq<string>)
    requires Conforms(t, before) && Conforms(t, after) && WellNamed(t)
    ensures Compare(t, Some(before), Some(CopyAll(t, before, after, paths)), "")
         == Filter(NotRolledBack(t, paths), Compare(t, Some(before), Some(after), ""))
    decreases |paths|
  {
    var reports := Compare(t, Some(before), Some(after), "");
    if paths == [] {
      FilterAll(NotRolledBack(t, paths), reports);
    } else {
      var p := paths[0];
      var next := CopyAt(t, before, after, Split(p, '.'));
      CopyAllFiltersCompare(t, before, next, paths[1..]);
      assert forall x :: x in paths <==> x == p || x in paths[1..];
      if Reaches(t, Split(p, '.')) {
        CopyFiltersCompare(t, before, after, "", Split(p, '.'));
        ReachedTarget(t, p);
        FilterTwice(Outside(p), NotRolledBack(t, paths[1..]), NotRolledBack(t, paths), reports);
      } else {
        UnreachedIsUnchanged(t, before, after, Split(p, '.'));
        FilterTwice(NotRolledBack(t, paths[1..]), NotRolledBack(t, paths[1..]), NotRolledBack(t, paths), reports);
        FilterAll(NotRolledBack(t, paths[1..]), Filter(NotRolledBack(t, paths[1..]), reports));
      }
    }
  }

  // --- A reported path that a copy reaches stands alone ---

  lemma {:induction false} ReportAtNodeIsAlone(t: Type, before: Option<Value>, after: Option<Value>, path: string)
    requires ConformsOpt(t, before) && ConformsOpt(t, after) && WellNamed(t)
    requires path != "" && path in Compare(t, before, after, path)
    ensures Compare(t, before, after, path) == [path]
    decreases t
  {
    if before.Some? && after.Some? && !DiffersHere(t, before.value, after.value) {
      var a, b := before.value, after.value;
      InCompare(t, a, b, path, path);
      var i :| 0 <= i < ChildCount(t, a, b) && path in Parts(t, a, b, path)[i];
      var c := Child(t, a, b, path, i);
      if t.PtrType? {
        PointerCompares(t, a, b, path);
        ReportAtNodeIsAlone(t.elem, c.before, c.after, path);
      } else if t.StructType? {
        var n := ReportedUnderAName(t, a, b, path, i, path);
        assert false;
      } else {
        ChildPathExtends(t, a, b, path, i);
        ReportsExtend(c.ty, c.before, c.after, c.path, path);
        assert false;
      }
    }
  }

  /** A report at or below a reached path comes from the field its first part names. */
  lemma ReportedByReachedField(t: Type, a: Value, b: Value, path: string, parts: seq<string>, i: nat, q: string)
    requires t.StructType? && Conforms(t, a) && Conforms(t, b) && WellNamed(t) && Reaches(t, parts)
    requires FindField(t.fields, parts[0], 0) == Some(i)
    requires q in Compare(t, Some(a), Some(b), path) && Extends(q, Target(path, parts))
    ensures q in Compare(t.fields[i].ty, Some(a.fields[i]), Some(b.fields[i]), JoinPath(path, parts[0]))
  {
    ReachedPartsArePlain(t, parts);
    TargetExtends(path, parts);
    InCompare(t, a, b, path, q);
    var k :| 0 <= k < |t.fields| && q in Parts(t, a, b, path)[k];
    OnlyOneFieldReports(t, a, b, path, i, k, Target(path, parts), q);
    StructPart(t, a, b, path, i);
  }

  /** If the path spelled by `parts` is reported, nothing else is reported at or below it. */
  lemma {:induction false} ReachedReportIsAlone(t: Type, a: Value, b: Value, path: string, parts: seq<string>, q: string)
    requires Conforms(t, a) && Conforms(t, b) && WellNamed(t) && Reaches(t, parts)
    requires Target(path, parts) in Compare(t, Some(a), Some(b), path)
    requires q in Compare(t, Some(a), Some(b), path) && Extends(q, Target(path, parts))
    ensures q == Target(path, parts)
    decreases t
  {
    var p := Target(path, parts);
    ReachedPartsArePlain(t, parts);
    TargetExtends(path, parts);
    if t.PtrType? {
      if a.Ptr? && b.Ptr? {
        PointerCompares(t, a, b, path);
        ReachedReportIsAlone(t.elem, a.target, b.target, path, parts, q);
      } else if !DiffersHere(t, a, b) {
        assert Parts(t, a, b, path) == [];
      }
    } else {
      var i := FindField(t.fields, parts[0], 0).value;
      ReportedByReachedField(t, a, b, path, parts, i, p);
      ReportedByReachedField(t, a, b, path, parts, i, q);
      if |parts| == 1 {
        ReportAtNodeIsAlone(t.fields[i].ty, Some(a.fields[i]), Some(b.fields[i]), p);
      } else {
        ReachedReportIsAlone(t.fields[i].ty, a.fields[i], b.fields[i], JoinPath(path, parts[0]), parts[1..], q);
      }
    }
  }
}
