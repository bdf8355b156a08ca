/** The reload state machine of `src/config/hot_reload.go`: what is published,
    what stays pending, over every run of file edits and handler outcomes. */
module ConfigManager {
  import opened Options
  import opened Strings
  import opened ConfigTree
  import opened ReloadPaths
  import opened Preserve
  import opened CopyPath

  /** What the registered reload handler does when it is called. */
  datatype Handler = Absent | Succeeds | Fails

  /** A call of the reload handler: the tree and the paths it is given. */
  datatype Call = Call(config: Value, paths: seq<string>)

  datatype Step = Step(published: Value, needsRestart: seq<string>, calls: seq<Call>)

  /** The schema conditions under which setting paths identify settings. */
  ghost predicate GoodSchema(t: Type) {
    Addressed(t, "") && RestartShape(t, "") && WellNamed(t)
  }

  /** The effect of one `applyConfigChanges`. */
  function ApplyChanges(t: Type, current: Value, parsed: Value, handler: Handler): (s: Step)
    requires Conforms(t, current) && Conforms(t, parsed)
    ensures Conforms(t, s.published)
  {
    Decide(t, current, parsed, handler, Categorize(CompareConfigs(t, current, parsed)))
  }

  /** The step once the changes have been put into buckets. */
  function Decide(t: Type, current: Value, parsed: Value, handler: Handler, b: Buckets): (s: Step)
    requires Conforms(t, current) && Conforms(t, parsed)
    ensures Conforms(t, s.published)
  {
    var hot, graceful := b.hot, b.graceful;
    if handler.Absent? then
      var restart := b.restart + graceful;
      if hot == [] then Step(current, restart, [])
      else
        var rolled := if graceful == [] then parsed else CopyAll(t, current, parsed, graceful);
        Step(PreserveRestart(t, current, rolled, ""), restart, [])
    else if hot == [] && graceful == [] then Step(current, b.restart, [])
    else
      var kept := PreserveRestart(t, current, parsed, "");
      if handler.Fails? && graceful != [] then
        var rolled := CopyAll(t, current, kept, graceful);
        Step(rolled, b.restart + graceful,
             [Call(kept, hot + graceful)] + if hot == [] then [] else [Call(rolled, hot)])
      else Step(kept, b.restart, [Call(kept, hot + graceful)])
  }

  lemma NoChanges(t: Type, current: Value, parsed: Value, handler: Handler)
    requires Conforms(t, current) && Conforms(t, parsed) && CompareConfigs(t, current, parsed) == []
    ensures ApplyChanges(t, current, parsed, handler) == Step(current, [], [])
  {}

  /** The settings an edit leaves pending are the changed ones that need a
      restart, together with the graceful ones whose reload was unavailable or failed. */
  lemma PendingSettings(t: Type, current: Value, parsed: Value, handler: Handler, q: string)
    requires Conforms(t, current) && Conforms(t, parsed)
    ensures q in ApplyChanges(t, current, parsed, handler).needsRestart <==>
            q in CompareConfigs(t, current, parsed) && CannotApply(handler, q)
  {
    var b := Categorize(CompareConfigs(t, current, parsed));
    DecidePending(t, current, parsed, handler, b, q);
    InBuckets(CompareConfigs(t, current, parsed), q);
  }

  lemma DecidePending(t: Type, current: Value, parsed: Value, handler: Handler, b: Buckets, q: string)
    requires Conforms(t, current) && Conforms(t, parsed)
    ensures q in Decide(t, current, parsed, handler, b).needsRestart <==> q in b.restart || (!handler.Succeeds? && q in b.graceful)
  {}

  lemma InBuckets(changed: seq<string>, q: string)
    ensures q in Categorize(changed).restart <==> q in changed && RequiresRestart(q)
    ensures q in Categorize(changed).graceful <==> q in changed && !RequiresRestart(q) && RequiresGraceful(q)
  {}

  // --- The published tree against the running one ---

  /** The paths whose values the step publishes. */
  function Published(t: Type, graceful: seq<string>, handler: Handler): string -> bool {
    q => !RequiresRestart(q) && (handler.Succeeds? || !RolledBack(t, graceful, q))
  }

  lemma FilterOrder(f: string -> bool, g: string -> bool, h: string -> bool, xs: seq<string>)
    requires forall q :: h(q) == (f(q) && g(q))
    ensures Filter(g, Filter(f, xs)) == Filter(h, xs) == Filter(f, Filter(g, xs))
  {
    FilterTwice(f, g, h, xs);
    FilterTwice(g, f, h, xs);
  }

  /** When the step publishes a new tree, it differs from the running one at
      exactly these paths: the changed ones that need no restart and were not rolled back. */
  lemma PublishedDiff(t: Type, current: Value, parsed: Value, handler: Handler)
    requires Conforms(t, current) && Conforms(t, parsed) && GoodSchema(t)
    requires var b := Categorize(CompareConfigs(t, current, parsed));
             b.hot != [] || (b.graceful != [] && !handler.Absent?)
    ensures var graceful := Categorize(CompareConfigs(t, current, parsed)).graceful;
            Compare(t, Some(current), Some(ApplyChanges(t, current, parsed, handler).published), "")
            == Filter(Published(t, graceful, handler), Compare(t, Some(current), Some(parsed), ""))
  {
    var graceful := Categorize(CompareConfigs(t, current, parsed)).graceful;
    var xs := Compare(t, Some(current), Some(parsed), "");
    var rolled := NotRolledBack(t, graceful);
    PreserveFiltersCompare(t, current, parsed, "");
    if handler.Succeeds? {
      FilterTwice(NeedsNoRestart, NeedsNoRestart, Published(t, graceful, handler), xs);
      FilterTwice(NeedsNoRestart, NeedsNoRestart, NeedsNoRestart, xs);
    } else {
      FilterOrder(NeedsNoRestart, rolled, Published(t, graceful, handler), xs);
      var kept := PreserveRestart(t, current, parsed, "");
      CopyAllFiltersCompare(t, current, parsed, graceful);
      CopyAllFiltersCompare(t, current, kept, graceful);
      PreserveFiltersCompare(t, current, CopyAll(t, current, parsed, graceful), "");
      assert graceful == [] ==> CopyAll(t, current, kept, graceful) == kept && CopyAll(t, current, parsed, graceful) == parsed;
    }
  }

  /** The step never changes a restart-required value. */
  lemma StepKeepsRestartValues(t: Type, current: Value, parsed: Value, handler: Handler)
    requires Conforms(t, current) && Conforms(t, parsed) && GoodSchema(t)
    ensures RestartAgree(t, current, ApplyChanges(t, current, parsed, handler).published, "")
  {
    var b := Categorize(CompareConfigs(t, current, parsed));
    var next := ApplyChanges(t, current, parsed, handler).published;
    if b.hot != [] || (b.graceful != [] && !handler.Absent?) {
      PublishedDiff(t, current, parsed, handler);
    } else {
      CompareSelf(t, current, "");
    }
    ShapeSeparates(t, current, next, "");
    RestartAgreeIffNoneReported(t, current, next, "");
  }

  // --- What the reload handler is given ---

  /** The call is made exactly when there is a handler and a change that needs no restart. A second
      call follows exactly when the handler failed, and both kinds of such changes are there. */
  lemma HandlerCalledIff(t: Type, current: Value, parsed: Value, handler: Handler)
    requires Conforms(t, current) && Conforms(t, parsed)
    ensures var calls, changed := ApplyChanges(t, current, parsed, handler).calls, CompareConfigs(t, current, parsed);
            && (calls != [] <==> !handler.Absent? && exists q | q in changed :: NeedsNoRestart(q))
            && (|calls| > 1 <==> handler.Fails? && (exists q | q in changed :: IsHot(q)) && exists q | q in changed :: IsGraceful(q))
            && |calls| <= 2
  {
    var changed := CompareConfigs(t, current, parsed);
    var b := Categorize(changed);
    EmptyBuckets(changed);
    assert forall q :: NeedsNoRestart(q) <==> IsHot(q) || IsGraceful(q);
  }

  lemma EmptyBuckets(changed: seq<string>)
    ensures Categorize(changed).hot != [] <==> exists q | q in changed :: IsHot(q)
    ensures Categorize(changed).graceful != [] <==> exists q | q in changed :: IsGraceful(q)
  {
    var b := Categorize(changed);
    if b.hot != [] { assert b.hot[0] in b.hot; }
    if b.graceful != [] { assert b.graceful[0] in b.graceful; }
  }

  /** The first call names exactly the changes that need no restart, and the second one those of
      them that need no handler. */
  lemma HandlerIsToldPaths(t: Type, current: Value, parsed: Value, handler: Handler, q: string)
    requires Conforms(t, current) && Conforms(t, parsed)
    ensures var calls, changed := ApplyChanges(t, current, parsed, handler).calls, CompareConfigs(t, current, parsed);
            && (|calls| > 0 ==> (q in calls[0].paths <==> q in changed && !RequiresRestart(q)))
            && (|calls| > 1 ==> (q in calls[1].paths <==> q in changed && !RequiresRestart(q) && !RequiresGraceful(q)))
  {
    CallPaths(t, current, parsed, handler);
    HotOrGraceful(CompareConfigs(t, current, parsed), q);
  }

  lemma CallPaths(t: Type, current: Value, parsed: Value, handler: Handler)
    requires Conforms(t, current) && Conforms(t, parsed)
    ensures var calls, b := ApplyChanges(t, current, parsed, handler).calls, Categorize(CompareConfigs(t, current, parsed));
            (|calls| > 0 ==> calls[0].paths == b.hot + b.graceful) && (|calls| > 1 ==> calls[1].paths == b.hot)
  {}

  lemma HotOrGraceful(changed: seq<string>, q: string)
    ensures var b := Categorize(changed);
            && (q in b.hot <==> q in changed && !RequiresRestart(q) && !RequiresGraceful(q))
            && (q in b.hot + b.graceful <==> q in changed && !RequiresRestart(q))
  {
    var b := Categorize(changed);
    assert q in b.hot + b.graceful <==> q in b.hot || q in b.graceful;
  }

  /** Every tree the handler is given keeps the running value of each restart-required setting, and
      the first one has all other changes of the file. */
  lemma HandlerSeesNoRestartChange(t: Type, current: Value, parsed: Value, handler: Handler, i: nat)
    requires Conforms(t, current) && Conforms(t, parsed) && GoodSchema(t)
    requires i < |ApplyChanges(t, current, parsed, handler).calls|
    ensures var tree := ApplyChanges(t, current, parsed, handler).calls[i].config;
            && Conforms(t, tree) && RestartAgree(t, current, tree, "")
            && (i == 0 ==> Compare(t, Some(current), Some(tree), "") == Filter(NeedsNoRestart, Compare(t, Some(current), Some(parsed), "")))
  {
    CallTrees(t, current, parsed, handler, i);
    if i == 0 {
      StepKeepsRestartValues(t, current, parsed, Succeeds);
      PreserveFiltersCompare(t, current, parsed, "");
    } else {
      StepKeepsRestartValues(t, current, parsed, handler);
    }
  }

  /** The first tree is the one that a handler without fault would have published, and the second
      one is published. */
  lemma CallTrees(t: Type, current: Value, parsed: Value, handler: Handler, i: nat)
    requires Conforms(t, current) && Conforms(t, parsed) && i < |ApplyChanges(t, current, parsed, handler).calls|
    ensures var tree := ApplyChanges(t, current, parsed, handler).calls[i].config;
            && tree == ApplyChanges(t, current, parsed, if i == 0 then Succeeds else handler).published
            && (i == 0 ==> tree == PreserveRestart(t, current, parsed, ""))
  {
    var b := Categorize(CompareConfigs(t, current, parsed));
    DecideCalls(t, current, parsed, handler, b);
    DecideCalls(t, current, parsed, Succeeds, b);
  }

  /** The trees of the calls, once the changes have been put into buckets. */
  lemma DecideCalls(t: Type, current: Value, parsed: Value, handler: Handler, b: Buckets)
    requires Conforms(t, current) && Conforms(t, parsed)
    ensures var s, kept := Decide(t, current, parsed, handler, b), PreserveRestart(t, current, parsed, "");
            && (s.calls != [] <==> !handler.Absent? && (b.hot != [] || b.graceful != []))
            && (|s.calls| > 1 <==> handler.Fails? && b.hot != [] && b.graceful != []) && |s.calls| <= 2
            && (s.calls != [] ==> s.calls[0].config == kept)
            && (|s.calls| > 1 ==> s.calls[1].config == s.published)
            && (s.calls != [] ==> s.published == if handler.Fails? && b.graceful != [] then CopyAll(t, current, kept, b.graceful) else kept)
  {}

  lemma {:induction false} CopyAllUnreached(t: Type, before: Value, after: Value, paths: seq<string>)
    requires Conforms(t, before) && Conforms(t, after) && forall p | p in paths :: !Reaches(t, Split(p, '.'))
    ensures CopyAll(t, before, after, paths) == after
    decreases |paths|
  {
    if paths != [] {
      assert paths[0] in paths;
      UnreachedIsUnchanged(t, before, after, Split(paths[0], '.'));
      CopyAllUnreached(t, before, after, paths[1..]);
    }
  }

  lemma RollbackShows(t: Type, current: Value, kept: Value, graceful: seq<string>, p: string)
    requires Conforms(t, current) && Conforms(t, kept) && WellNamed(t)
    requires p in graceful && Reaches(t, Split(p, '.')) && p in Compare(t, Some(current), Some(kept), "")
    ensures CopyAll(t, current, kept, graceful) != kept
  {
    CopyAllFiltersCompare(t, current, kept, graceful);
    assert Extends(p, p) && RolledBack(t, graceful, p);
    FilterHolds(NotRolledBack(t, graceful), Compare(t, Some(current), Some(kept), ""), p);
  }

  lemma FilterHolds(f: string -> bool, xs: seq<string>, q: string)
    ensures q in Filter(f, xs) <==> q in xs && f(q)
  {}

  /** The published tree is the one the handler was given last, unless the handler failed, nothing
      hot changed and the rollback reaches some graceful change: then the handler is not called again. */
  lemma LastCallIsPublishedIff(t: Type, current: Value, parsed: Value, handler: Handler)
    requires Conforms(t, current) && Conforms(t, parsed) && GoodSchema(t) && ApplyChanges(t, current, parsed, handler).calls != []
    ensures var s, changed := ApplyChanges(t, current, parsed, handler), CompareConfigs(t, current, parsed);
            s.published == s.calls[|s.calls| - 1].config <==>
            !(&& handler.Fails? && (forall q | q in changed :: !IsHot(q))
              && exists q | q in changed :: IsGraceful(q) && Reaches(t, Split(q, '.')))
  {
    var changed := CompareConfigs(t, current, parsed);
    var b := Categorize(changed);
    EmptyBuckets(changed);
    DecideCalls(t, current, parsed, handler, b);
    if handler.Fails? && b.hot == [] {
      var kept := PreserveRestart(t, current, parsed, "");
      if q :| q in changed && IsGraceful(q) && Reaches(t, Split(q, '.')) {
        PreserveFiltersCompare(t, current, parsed, "");
        InCompareConfigs(t, current, parsed, q);
        FilterHolds(NeedsNoRestart, Compare(t, Some(current), Some(parsed), ""), q);
        RollbackShows(t, current, kept, b.graceful, q);
      } else {
        CopyAllUnreached(t, current, kept, b.graceful);
      }
    }
  }

  // --- The published tree against the parsed file ---

  /** `res` is `after` with whole subtrees of `before` written over it, each
      where every difference between the two has a path of class `C`. */
  ghost predicate Patched(C: string -> bool, t: Type, before: Value, after: Value, res: Value, path: string)
    requires Conforms(t, before) && Conforms(t, after) && Conforms(t, res)
    decreases t
  {
    || res == after
    || (res == before && forall q | q in Compare(t, Some(before), Some(after), path) :: C(q))
    || (t.PtrType? && before.Ptr? && after.Ptr? && res.Ptr? &&
        Patched(C, t.elem, before.target, after.target, res.target, path))
    || (t.StructType? &&
        forall i | 0 <= i < |t.fields| && !t.fields[i].tag.Skipped? ::
          Patched(C, t.fields[i].ty, before.fields[i], after.fields[i], res.fields[i], FieldPath(path, t.fields[i])))
  }

  /** A patched tree differs from the parsed one only at paths of class `C`. */
  lemma {:induction false} PatchedDiff(C: string -> bool, t: Type, before: Value, after: Value, res: Value, path: string, q: string)
    requires Conforms(t, before) && Conforms(t, after) && Conforms(t, res) && Addressed(t, path)
    requires Patched(C, t, before, after, res, path)
    requires q in Compare(t, Some(after), Some(res), path)
    ensures C(q)
    decreases t
  {
    if res == after {
      CompareSelf(t, after, path);
    } else if res == before && forall q | q in Compare(t, Some(before), Some(after), path) :: C(q) {
      CompareIsSymmetric(t, Some(before), Some(after), path);
    } else if t.PtrType? {
      PointerCompares(t, after, res, path);
      PatchedDiff(C, t.elem, before.target, after.target, res.target, path, q);
    } else {
      InCompare(t, after, res, path, q);
      var i :| 0 <= i < |t.fields| && q in Parts(t, after, res, path)[i];
      StructPart(t, after, res, path, i);
      ChildAddressed(t, after, res, path, i);
      PatchedDiff(C, t.fields[i].ty, before.fields[i], after.fields[i], res.fields[i], FieldPath(path, t.fields[i]), q);
    }
  }

  /** A report below a struct field is a report of the struct. */
  lemma FieldReport(t: Type, a: Value, b: Value, path: string, i: nat, q: string)
    requires t.StructType? && Conforms(t, a) && Conforms(t, b) && i < |t.fields| && !t.fields[i].tag.Skipped?
    requires q in Compare(t.fields[i].ty, Some(a.fields[i]), Some(b.fields[i]), FieldPath(path, t.fields[i]))
    ensures q in Compare(t, Some(a), Some(b), path)
  {
    StructPart(t, a, b, path, i);
    InCompare(t, a, b, path, q);
  }

  lemma {:induction false} PreserveKeepsPatched(C: string -> bool, t: Type, before: Value, after: Value, res: Value, path: string)
    requires Conforms(t, before) && Conforms(t, after) && Conforms(t, res)
    requires Addressed(t, path) && RestartShape(t, path)
    requires forall q | RequiresRestart(q) :: C(q)
    requires Patched(C, t, before, after, res, path)
    ensures Patched(C, t, before, after, PreserveRestart(t, before, res, path), path)
    decreases t
  {
    if path != "" && RequiresRestart(path) {
      forall q | q in Compare(t, Some(before), Some(after), path) ensures C(q) {
        CoveredReportsRestart(t, before, after, path, q);
      }
    } else if path != "" && (!IsRestartAncestor(path) || !t.StructType?) {
    } else if res == before {
      PreservedSelf(t, before, path);
    } else {
      var kept := PreserveRestart(t, before, res, path);
      forall i | 0 <= i < |t.fields| && !t.fields[i].tag.Skipped?
        ensures Patched(C, t.fields[i].ty, before.fields[i], after.fields[i], kept.fields[i], FieldPath(path, t.fields[i]))
      {
        ChildAddressed(t, before, after, path, i);
        PreserveKeepsPatched(C, t.fields[i].ty, before.fields[i], after.fields[i], res.fields[i], FieldPath(path, t.fields[i]));
      }
    }
  }

  lemma {:induction false} CopiedSelf(t: Type, a: Value, parts: seq<string>)
    requires Conforms(t, a)
    ensures CopyAt(t, a, a, parts) == a
    decreases t
  {
    if parts != [] {
      match t
      case PtrType(e) => if a.Ptr? { CopiedSelf(e, a.target, parts); }
      case StructType(fs) =>
        var f := FindField(fs, parts[0], 0);
        if f.Some? {
          CopiedSelf(fs[f.value].ty, a.fields[f.value], parts[1..]);
          assert a.fields[f.value := a.fields[f.value]] == a.fields;
        }
      case _ =>
    }
  }

  /** Copying a path keeps a tree patched when the differences at and below that path are of class `C`. */
  lemma {:induction false} CopyKeepsPatched(C: string -> bool, t: Type, before: Value, after: Value, res: Value, path: string, parts: seq<string>)
    requires Conforms(t, before) && Conforms(t, after) && Conforms(t, res)
    requires WellNamed(t) && Reaches(t, parts)
    requires forall q | q in Compare(t, Some(before), Some(after), path) && Extends(q, Target(path, parts)) :: C(q)
    requires Patched(C, t, before, after, res, path)
    ensures Patched(C, t, before, after, CopyAt(t, before, res, parts), path)
    decreases t
  {
    if res == before {
      CopiedSelf(t, before, parts);
    } else if t.PtrType? {
      if before.Ptr? && res.Ptr? {
        assert after.Ptr?;
        PointerCompares(t, before, after, path);
        CopyKeepsPatched(C, t.elem, before.target, after.target, res.target, path, parts);
      }
    } else {
      var i := FindField(t.fields, parts[0], 0).value;
      var p := JoinPath(path, parts[0]);
      forall q | q in Compare(t.fields[i].ty, Some(before.fields[i]), Some(after.fields[i]), p) &&
                 (|parts| == 1 || Extends(q, Target(path, parts))) ensures C(q) {
        FieldReport(t, before, after, path, i, q);
        if |parts| == 1 { assert Target(path, parts) == Target(p, []) == p; }
        ReachedPartsArePlain(t, parts);
        ReportsExtend(t.fields[i].ty, Some(before.fields[i]), Some(after.fields[i]), p, q);
      }
      if |parts| > 1 {
        CopyKeepsPatched(C, t.fields[i].ty, before.fields[i], after.fields[i], res.fields[i], p, parts[1..]);
      }
      var kept := CopyAt(t, before, res, parts);
      assert forall j | 0 <= j < |t.fields| && !t.fields[j].tag.Skipped? ::
        Patched(C, t.fields[j].ty, before.fields[j], after.fields[j], kept.fields[j], FieldPath(path, t.fields[j]));
    }
  }

  lemma {:induction false} CopyAllKeepsPatched(C: string -> bool, t: Type, before: Value, after: Value, res: Value, paths: seq<string>)
    requires Conforms(t, before) && Conforms(t, after) && Conforms(t, res) && WellNamed(t)
    requires forall p | p in paths :: p in Compare(t, Some(before), Some(after), "") && C(p)
    requires Patched(C, t, before, after, res, "")
    ensures Patched(C, t, before, after, CopyAll(t, before, res, paths), "")
    decreases |paths|
  {
    if paths != [] {
      var parts := Split(paths[0], '.');
      assert paths[0] in paths;
      if Reaches(t, parts) {
        ReachedTarget(t, paths[0]);
        forall q | q in Compare(t, Some(before), Some(after), "") && Extends(q, Target("", parts)) ensures C(q) {
          ReachedReportIsAlone(t, before, after, "", parts, q);
        }
        CopyKeepsPatched(C, t, before, after, res, "", parts);
      } else {
        UnreachedIsUnchanged(t, before, res, parts);
      }
      CopyAllKeepsPatched(C, t, before, after, CopyAt(t, before, res, parts), paths[1..]);
    }
  }

  predicate NotHot(q: string) {
    !IsHot(q)
  }

  /** After every step the published tree equals the parsed file at every hot path. */
  lemma StepPublishesHotPaths(t: Type, current: Value, parsed: Value, handler: Handler, q: string)
    requires Conforms(t, current) && Conforms(t, parsed) && GoodSchema(t)
    requires q in Compare(t, Some(parsed), Some(ApplyChanges(t, current, parsed, handler).published), "")
    ensures !IsHot(q)
  {
    var changes := CompareConfigs(t, current, parsed);
    var b := Categorize(changes);
    var xs := Compare(t, Some(current), Some(parsed), "");
    forall p ensures p in changes <==> p in xs { InCompareConfigs(t, current, parsed, p); }
    var next := ApplyChanges(t, current, parsed, handler).published;
    if b.hot == [] && (b.graceful == [] || handler.Absent?) {
      CompareIsSymmetric(t, Some(current), Some(parsed), "");
      assert q in b.hot <==> q in changes && IsHot(q);
    } else {
      var kept := PreserveRestart(t, current, parsed, "");
      PreserveKeepsPatched(NotHot, t, current, parsed, parsed, "");
      CopyAllKeepsPatched(NotHot, t, current, parsed, kept, b.graceful);
      CopyAllKeepsPatched(NotHot, t, current, parsed, parsed, b.graceful);
      var rolled := CopyAll(t, current, parsed, b.graceful);
      PreserveKeepsPatched(NotHot, t, current, parsed, rolled, "");
      assert Patched(NotHot, t, current, parsed, next, "");
      PatchedDiff(NotHot, t, current, parsed, next, "", q);
    }
  }

  /** When the graceful reload is unavailable or fails, a changed graceful path
      becomes pending, and it keeps its old value exactly when nothing was
      published or the rollback reaches it. A path through an inline field, a
      list or a map is not reached: it is published although its reload failed. */
  lemma StepRollsGracefulBack(t: Type, current: Value, parsed: Value, handler: Handler, p: string)
    requires Conforms(t, current) && Conforms(t, parsed) && GoodSchema(t)
    requires !handler.Succeeds? && p in Categorize(CompareConfigs(t, current, parsed)).graceful
    ensures var b := Categorize(CompareConfigs(t, current, parsed));
            var s := ApplyChanges(t, current, parsed, handler);
            && p in s.needsRestart
            && (p !in Compare(t, Some(current), Some(s.published), "") <==>
                (b.hot == [] && handler.Absent?) || Reaches(t, Split(p, '.')))
  {
    var b := Categorize(CompareConfigs(t, current, parsed));
    PendingSettings(t, current, parsed, handler, p);
    InCompareConfigs(t, current, parsed, p);
    CompareSelf(t, current, "");
    if b.hot != [] || !handler.Absent? {
      PublishedDiff(t, current, parsed, handler);
      RolledBackIffReached(t, current, parsed, p);
    }
  }

  /** A changed graceful path is rolled back exactly when the copy reaches it. */
  lemma RolledBackIffReached(t: Type, current: Value, parsed: Value, p: string)
    requires Conforms(t, current) && Conforms(t, parsed) && WellNamed(t)
    requires p in Categorize(CompareConfigs(t, current, parsed)).graceful
    ensures RolledBack(t, Categorize(CompareConfigs(t, current, parsed)).graceful, p) <==> Reaches(t, Split(p, '.'))
  {
    var graceful := Categorize(CompareConfigs(t, current, parsed)).graceful;
    assert Extends(p, p);
    InCompareConfigs(t, current, parsed, p);
    if RolledBack(t, graceful, p) {
      var r :| r in graceful && Reaches(t, Split(r, '.')) && Extends(p, r);
      InCompareConfigs(t, current, parsed, r);
      ReachedTarget(t, r);
      ReachedReportIsAlone(t, current, parsed, "", Split(r, '.'), p);
    }
  }

  // --- The shape of the real configuration ---

  const LOG_FILE := StructType([Field("rotate", Named, LeafType)])
  const AUDIT_LOG := StructType([Field("LogFileConfig", Inline, LOG_FILE), Field("compress", Named, LeafType)])
  const LOGGING := StructType([Field("audit", Named, AUDIT_LOG)])
  const POOL := StructType([Field("max_open", Named, LeafType)])
  const DATABASE := StructType([Field("driver", Named, LeafType), Field("pool", Named, POOL)])
  const LETS_ENCRYPT := StructType([Field("email", Named, LeafType)])
  const SSL := StructType([Field("enabled", Named, LeafType), Field("letsencrypt", Named, LETS_ENCRYPT)])
  const TOR := StructType([Field("binary", Named, LeafType)])
  const TOR_IDENTITY := StructType([Field("onion_address", Named, LeafType)])
  const OUTPUT := StructType([Field("color", Named, PtrType(LeafType))])
  const SERVER := StructType([
    Field("port", Named, LeafType), Field("address", Named, LeafType), Field("daemonize", Named, LeafType),
    Field("database", Named, DATABASE), Field("logging", Named, LOGGING), Field("tor", Named, TOR), Field("ssl", Named, SSL)])
  /** An excerpt of `AppConfig` with all its restart roots, the inlined settings of the audit
      log and one of its pointer fields. */
  const APP_CONFIG := StructType([Field("server", Named, SERVER), Field("tor", Named, TOR_IDENTITY), Field("output", Named, OUTPUT)])

  lemma StructIsWellNamed(fs: seq<Field>)
    requires forall i | 0 <= i < |fs| :: fs[i].tag.Named? && PlainName(fs[i].name) && WellNamed(fs[i].ty)
    requires forall i, j | 0 <= i < j < |fs| :: fs[i].name != fs[j].name
    ensures WellNamed(StructType(fs))
  {}

  lemma AuditLogIsWellNamed()
    ensures WellNamed(AUDIT_LOG)
  {
    StructIsWellNamed(LOG_FILE.fields);
    var fs := AUDIT_LOG.fields;
    forall n | HasName(fs[0], n) ensures n == "rotate" {
      var i :| 0 <= i < |LOG_FILE.fields| && HasName(LOG_FILE.fields[i], n);
    }
    assert forall n | HasName(fs[1], n) :: n == "compress";
    assert "rotate" != "compress" by { assert "rotate"[0] != "compress"[0]; }
    assert WellNamed(fs[0].ty) && WellNamed(fs[1].ty) && PlainName(fs[1].name);
  }

  lemma NamesDiffer(a: string, b: string, i: nat)
    requires i < |a| && i < |b| && a[i] != b[i]
    ensures a != b
  {}

  lemma OneFieldIsWellNamed(f: Field)
    requires f.tag.Named? && PlainName(f.name) && WellNamed(f.ty)
    ensures WellNamed(StructType([f]))
  {
    StructIsWellNamed([f]);
  }

  lemma TwoFieldsAreWellNamed(f: Field, g: Field)
    requires f.tag.Named? && PlainName(f.name) && WellNamed(f.ty) && g.tag.Named? && PlainName(g.name) && WellNamed(g.ty)
    requires f.name != g.name
    ensures WellNamed(StructType([f, g]))
  {
    StructIsWellNamed([f, g]);
  }

  lemma DatabaseIsWellNamed()
    ensures WellNamed(DATABASE)
  {
    OneFieldIsWellNamed(POOL.fields[0]);
    NamesDiffer("driver", "pool", 0);
    TwoFieldsAreWellNamed(DATABASE.fields[0], DATABASE.fields[1]);
  }

  lemma SslIsWellNamed()
    ensures WellNamed(SSL)
  {
    OneFieldIsWellNamed(LETS_ENCRYPT.fields[0]);
    NamesDiffer("enabled", "letsencrypt", 0);
    TwoFieldsAreWellNamed(SSL.fields[0], SSL.fields[1]);
  }

  lemma SmallStructsAreWellNamed()
    ensures WellNamed(TOR) && WellNamed(TOR_IDENTITY) && WellNamed(OUTPUT)
  {
    OneFieldIsWellNamed(TOR.fields[0]);
    OneFieldIsWellNamed(TOR_IDENTITY.fields[0]);
    OneFieldIsWellNamed(OUTPUT.fields[0]);
  }

  lemma ServerFieldsAreWellNamed()
    ensures forall i | 0 <= i < |SERVER.fields| ::
              SERVER.fields[i].tag.Named? && PlainName(SERVER.fields[i].name) && WellNamed(SERVER.fields[i].ty)
  {
    ServerStructsAreWellNamed();
  }

  lemma ServerStructsAreWellNamed()
    ensures WellNamed(DATABASE) && WellNamed(LOGGING) && WellNamed(TOR) && WellNamed(SSL)
  {
    AuditLogIsWellNamed();
    OneFieldIsWellNamed(LOGGING.fields[0]);
    DatabaseIsWellNamed();
    SslIsWellNamed();
    SmallStructsAreWellNamed();
  }

  lemma ServerIsWellNamed()
    ensures WellNamed(SERVER)
  {
    ServerFieldsDiffer();
    ServerFieldsAreWellNamed();
    StructIsWellNamed(SERVER.fields);
  }

  lemma AppConfigIsWellNamed()
    ensures WellNamed(APP_CONFIG)
  {
    ServerIsWellNamed();
    SmallStructsAreWellNamed();
    NamesDiffer("server", "tor", 0);
    NamesDiffer("server", "output", 0);
    NamesDiffer("tor", "output", 0);
    StructIsWellNamed(APP_CONFIG.fields);
  }

  lemma ServerFieldsDiffer()
    ensures forall i, j | 0 <= i < j < |SERVER.fields| :: SERVER.fields[i].name != SERVER.fields[j].name
  {
    NamesDiffer("daemonize", "database", 2);
    forall i, j | 0 <= i < j < |SERVER.fields| && !(i == 2 && j == 3) ensures SERVER.fields[i].name != SERVER.fields[j].name {
      NamesDiffer(SERVER.fields[i].name, SERVER.fields[j].name, 0);
    }
  }

  lemma LoggingIsNoRestartPath()
    ensures !RequiresRestart("server.logging") && !IsRestartAncestor("server.logging")
  {
    forall p | p in RESTART_PREFIXES ensures !Matches(p, "server.logging") && !HasPrefix(TrimDot(p), "server.logging" + ".") {
      assert |TrimDot(p)| < 18;
      if |p| > 7 && p[7] == 'l' { assert false; }
    }
  }

  lemma OutputIsNoRestartPath()
    ensures !RequiresRestart("output") && !IsRestartAncestor("output")
  {
    forall p | p in RESTART_PREFIXES ensures p != "" && p[0] != 'o' && TrimDot(p) != "" {}
    StartsElsewhere("output");
  }

  lemma StartsElsewhere(path: string)
    requires path != "" && forall p | p in RESTART_PREFIXES :: p != "" && p[0] != path[0] && TrimDot(p) != ""
    ensures !RequiresRestart(path) && !IsRestartAncestor(path)
  {
    forall p | p in RESTART_PREFIXES ensures !Matches(p, path) && !HasPrefix(TrimDot(p), path + ".") {
      StartsDifferently(p, path);
    }
  }

  lemma StartsDifferently(p: string, path: string)
    requires path != "" && p != "" && p[0] != path[0] && TrimDot(p) != ""
    ensures !Matches(p, path) && !HasPrefix(TrimDot(p), path + ".")
  {
    assert TrimDot(p)[0] == p[0];
  }

  lemma ServerLeadsToRestart()
    ensures !RequiresRestart("server") && IsRestartAncestor("server")
  {
    assert HasPrefix(TrimDot(RESTART_PREFIXES[0]), "server" + ".");
  }

  /** A struct whose fields are all named fits at a dotted restart root. */
  lemma DottedRootFits(fs: seq<Field>, path: string, p: string)
    requires p in RESTART_PREFIXES && Dotted(p) && path != "" && path + "." == p
    requires forall i | 0 <= i < |fs| :: fs[i].tag.Named?
    ensures RestartShape(StructType(fs), path)
  {
    assert TrimDot(p) == path && Matches(p, path);
    assert HasPrefix(path + ".", p);
  }

  lemma ServerPaths()
    ensures FieldPath("server", SERVER.fields[3]) == "server.database"
    ensures FieldPath("server", SERVER.fields[4]) == "server.logging"
    ensures FieldPath("server", SERVER.fields[5]) == "server.tor"
    ensures FieldPath("server", SERVER.fields[6]) == "server.ssl"
  {}

  lemma RootsOfServerFit()
    ensures RestartShape(DATABASE, "server.database") && RestartShape(TOR, "server.tor") && RestartShape(SSL, "server.ssl")
  {
    DottedRootFits(DATABASE.fields, "server.database", RESTART_PREFIXES[6]);
    DottedRootFits(TOR.fields, "server.tor", RESTART_PREFIXES[8]);
    DottedRootFits(SSL.fields, "server.ssl", RESTART_PREFIXES[4]);
  }

  lemma LeafFits(path: string)
    ensures RestartShape(LeafType, path)
  {}

  lemma StopFits(t: Type, path: string)
    requires path != "" && !RequiresRestart(path) && !IsRestartAncestor(path)
    ensures RestartShape(t, path)
  {}

  function FitsAt(path: string): Field -> bool {
    (f: Field) => RestartShape(f.ty, FieldPath(path, f))
  }

  lemma FieldsFit(fs: seq<Field>, path: string)
    requires path == "" || (!RequiresRestart(path) && IsRestartAncestor(path))
    requires forall i | 0 <= i < |fs| :: FitsAt(path)(fs[i])
    ensures RestartShape(StructType(fs), path)
  {
    forall i | 0 <= i < |fs| ensures RestartShape(fs[i].ty, FieldPath(path, fs[i])) { assert FitsAt(path)(fs[i]); }
  }

  lemma EachOfSeven(fits: Field -> bool, fs: seq<Field>)
    requires |fs| == 7 && fits(fs[0]) && fits(fs[1]) && fits(fs[2]) && fits(fs[3]) && fits(fs[4]) && fits(fs[5]) && fits(fs[6])
    ensures forall i | 0 <= i < |fs| :: fits(fs[i])
  {}

  lemma EachOfThree(fits: Field -> bool, fs: seq<Field>)
    requires |fs| == 3 && fits(fs[0]) && fits(fs[1]) && fits(fs[2])
    ensures forall i | 0 <= i < |fs| :: fits(fs[i])
  {}

  lemma ServerFits()
    ensures RestartShape(SERVER, "server")
  {
    ServerLeadsToRestart();
    LoggingIsNoRestartPath();
    StopFits(LOGGING, "server.logging");
    RootsOfServerFit();
    ServerPaths();
    LeafFits(FieldPath("server", SERVER.fields[0]));
    LeafFits(FieldPath("server", SERVER.fields[1]));
    LeafFits(FieldPath("server", SERVER.fields[2]));
    EachOfSeven(FitsAt("server"), SERVER.fields);
    FieldsFit(SERVER.fields, "server");
  }

  lemma AppConfigFits()
    ensures RestartShape(APP_CONFIG, "")
  {
    ServerFits();
    OutputIsNoRestartPath();
    StopFits(OUTPUT, "output");
    DottedRootFits(TOR_IDENTITY.fields, "tor", RESTART_PREFIXES[7]);
    EachOfThree(FitsAt(""), APP_CONFIG.fields);
    FieldsFit(APP_CONFIG.fields, "");
  }

  /** The hypotheses of the theorems hold of the real configuration's shape. */
  lemma AppConfigIsGood()
    ensures GoodSchema(APP_CONFIG)
  {
    AppConfigIsWellNamed();
    AppConfigFits();
  }

  lemma FindLogging()
    ensures FindField(SERVER.fields, "logging", 0) == Some(4)
  {
    ServerFieldsDiffer();
    assert FindField(SERVER.fields, "logging", 4) == Some(4);
    assert FindField(SERVER.fields, "logging", 3) == FindField(SERVER.fields, "logging", 4);
    assert FindField(SERVER.fields, "logging", 2) == FindField(SERVER.fields, "logging", 3);
    assert FindField(SERVER.fields, "logging", 1) == FindField(SERVER.fields, "logging", 2);
    assert FindField(SERVER.fields, "logging", 0) == FindField(SERVER.fields, "logging", 1);
  }

  /** The rollback reaches the audit log's own settings, but not the inlined ones. */
  lemma AuditRotateIsNotReached()
    ensures RequiresGraceful("server.logging.audit.rotate")
    ensures !Reaches(APP_CONFIG, ["server", "logging", "audit", "rotate"])
    ensures Reaches(APP_CONFIG, ["server", "logging", "audit", "compress"])
  {
    assert HasPrefix("server.logging.audit.rotate", "server.logging.");
    var p, r := ["server", "logging", "audit", "rotate"], ["server", "logging", "audit", "compress"];
    assert FindField(AUDIT_LOG.fields, "rotate", 0) == FindField(AUDIT_LOG.fields, "rotate", 1) == None;
    assert FindField(AUDIT_LOG.fields, "compress", 0) == FindField(AUDIT_LOG.fields, "compress", 1) == Some(1);
    assert p[1..] == ["logging", "audit", "rotate"] && p[1..][1..] == ["audit", "rotate"] && p[1..][1..][1..] == ["rotate"];
    assert r[1..] == ["logging", "audit", "compress"] && r[1..][1..] == ["audit", "compress"] && r[1..][1..][1..] == ["compress"];
    assert !Reaches(AUDIT_LOG, ["rotate"]) && Reaches(AUDIT_LOG, ["compress"]);
    assert !Reaches(LOGGING, ["audit", "rotate"]) && Reaches(LOGGING, ["audit", "compress"]);
    FindLogging();
    assert !Reaches(SERVER, p[1..]) && Reaches(SERVER, r[1..]);
  }

  // --- Runs ---

  /** A change of server.yml noticed by the watcher, or an operator's acknowledgement. */
  datatype Event = Edit(parsed: Value, handler: Handler) | Clear

  datatype State = State(current: Value, pendingRestart: bool, restartSettings: seq<string>)

  ghost predicate GoodRun(t: Type, events: seq<Event>) {
    forall i | 0 <= i < |events| && events[i].Edit? :: Conforms(t, events[i].parsed)
  }

  function Next(t: Type, s: State, e: Event): (r: State)
    requires Conforms(t, s.current) && (e.Edit? ==> Conforms(t, e.parsed))
    ensures Conforms(t, r.current)
  {
    match e
    case Clear => State(s.current, false, [])
    case Edit(parsed, handler) =>
      var step := ApplyChanges(t, s.current, parsed, handler);
      State(step.published, s.pendingRestart || step.needsRestart != [], s.restartSettings + step.needsRestart)
  }

  /** The state after a run that starts from the configuration loaded at boot. */
  function Run(t: Type, boot: Value, events: seq<Event>): (s: State)
    requires Conforms(t, boot) && GoodRun(t, events)
    ensures Conforms(t, s.current)
  {
    if events == [] then State(boot, false, [])
    else
      var prefix := events[..|events| - 1];
      assert GoodRun(t, prefix) by { assert forall i | 0 <= i < |prefix| :: prefix[i] == events[i]; }
      Next(t, Run(t, boot, prefix), events[|events| - 1])
  }

  lemma RunStep(t: Type, boot: Value, events: seq<Event>, i: nat)
    requires Conforms(t, boot) && GoodRun(t, events) && i < |events|
    ensures GoodRun(t, events[..i]) && GoodRun(t, events[..i + 1])
    ensures Run(t, boot, events[..i + 1]) == Next(t, Run(t, boot, events[..i]), events[i])
  {
    assert events[..i + 1][..i] == events[..i];
  }

  /** In every run the published configuration keeps its boot value at every
      restart-required path. */
  lemma {:induction false} RunKeepsBootValues(t: Type, boot: Value, events: seq<Event>)
    requires Conforms(t, boot) && GoodRun(t, events) && GoodSchema(t)
    ensures var current := Run(t, boot, events).current;
            && RestartAgree(t, boot, current, "")
            && forall q | q in CompareConfigs(t, boot, current) :: !RequiresRestart(q)
  {
    var current := Run(t, boot, events).current;
    if events == [] {
      CompareSelf(t, boot, "");
      ShapeSeparates(t, boot, boot, "");
      RestartAgreeIffNoneReported(t, boot, boot, "");
    } else {
      var n := |events| - 1;
      assert events[..n + 1] == events;
      RunStep(t, boot, events, n);
      RunKeepsBootValues(t, boot, events[..n]);
      var before := Run(t, boot, events[..n]).current;
      if events[n].Edit? {
        StepKeepsRestartValues(t, before, events[n].parsed, events[n].handler);
        ShapeHasNoMapAbove(t, "");
        RestartAgreeIsTransitive(t, boot, before, current, "");
      }
    }
    ShapeSeparates(t, boot, current, "");
    RestartAgreeIffNoneReported(t, boot, current, "");
    forall q | q in CompareConfigs(t, boot, current) ensures !RequiresRestart(q) {
      InCompareConfigs(t, boot, current, q);
    }
  }

  /** In every run, right after each edit the published configuration equals the
      parsed file at every hot path. */
  lemma RunFollowsFileAtHotPaths(t: Type, boot: Value, events: seq<Event>, i: nat)
    requires Conforms(t, boot) && GoodRun(t, events) && GoodSchema(t)
    requires i < |events| && events[i].Edit?
    ensures GoodRun(t, events[..i + 1])
    ensures forall q | q in CompareConfigs(t, events[i].parsed, Run(t, boot, events[..i + 1]).current) :: !IsHot(q)
  {
    RunStep(t, boot, events, i);
    var before, after := Run(t, boot, events[..i]).current, Run(t, boot, events[..i + 1]).current;
    forall q | q in CompareConfigs(t, events[i].parsed, after) ensures !IsHot(q) {
      InCompareConfigs(t, events[i].parsed, after, q);
      StepPublishesHotPaths(t, before, events[i].parsed, events[i].handler, q);
    }
  }

  lemma GoodPrefix(t: Type, events: seq<Event>, i: nat)
    requires GoodRun(t, events) && i <= |events|
    ensures GoodRun(t, events[..i])
  {
    assert forall j | 0 <= j < i :: events[..i][j] == events[j];
  }

  /** What each event adds to the pending list; None stands for an acknowledgement. */
  ghost function Additions(t: Type, boot: Value, events: seq<Event>): (r: seq<Option<seq<string>>>)
    requires Conforms(t, boot) && GoodRun(t, events)
    ensures |r| == |events|
  {
    if events == [] then []
    else
      var n := |events| - 1;
      GoodPrefix(t, events, n);
      Additions(t, boot, events[..n]) +
      [match events[n]
       case Clear => None
       case Edit(parsed, handler) => Some(ApplyChanges(t, Run(t, boot, events[..n]).current, parsed, handler).needsRestart)]
  }

  function Gathered(xs: seq<Option<seq<string>>>): seq<string> {
    if xs == [] then []
    else
      var last := xs[|xs| - 1];
      if last.None? then [] else Gathered(xs[..|xs| - 1]) + last.value
  }

  predicate AddedBy(xs: seq<Option<seq<string>>>, i: int, q: string) {
    && 0 <= i < |xs| && xs[i].Some? && q in xs[i].value
    && forall j | i < j < |xs| :: xs[j].Some?
  }

  lemma {:induction false} GatheredHolds(xs: seq<Option<seq<string>>>, q: string)
    ensures q in Gathered(xs) <==> exists i :: AddedBy(xs, i, q)
  {
    if xs != [] {
      var n := |xs| - 1;
      GatheredHolds(xs[..n], q);
      forall i | 0 <= i < n ensures AddedBy(xs, i, q) <==> xs[n].Some? && AddedBy(xs[..n], i, q) {
        assert forall j | i < j < n :: xs[..n][j] == xs[j];
      }
      assert xs[n].Some? && q in xs[n].value ==> AddedBy(xs, n, q);
    }
  }

  lemma {:induction false} RunGathers(t: Type, boot: Value, events: seq<Event>)
    requires Conforms(t, boot) && GoodRun(t, events)
    ensures Run(t, boot, events).restartSettings == Gathered(Additions(t, boot, events))
  {
    if events != [] {
      var n := |events| - 1;
      GoodPrefix(t, events, n);
      RunGathers(t, boot, events[..n]);
      assert Additions(t, boot, events)[..n] == Additions(t, boot, events[..n]);
    }
  }

  lemma {:induction false} AdditionAt(t: Type, boot: Value, events: seq<Event>, i: nat)
    requires Conforms(t, boot) && GoodRun(t, events) && i < |events|
    ensures GoodRun(t, events[..i])
    ensures Additions(t, boot, events)[i] ==
            match events[i]
            case Clear => None
            case Edit(parsed, handler) => Some(ApplyChanges(t, Run(t, boot, events[..i]).current, parsed, handler).needsRestart)
  {
    var n := |events| - 1;
    GoodPrefix(t, events, i);
    if i < n {
      GoodPrefix(t, events, n);
      AdditionAt(t, boot, events[..n], i);
      assert events[..n][..i] == events[..i] && events[..n][i] == events[i];
    }
  }

  predicate CannotApply(handler: Handler, q: string) {
    RequiresRestart(q) || (!handler.Succeeds? && RequiresGraceful(q))
  }

  /** The edit at `i` changed `q` against the configuration then running, `q` could not take
      effect, and the operator has not acknowledged anything since. */
  ghost predicate LeftPendingBy(t: Type, boot: Value, events: seq<Event>, i: int, q: string)
    requires Conforms(t, boot) && GoodRun(t, events)
  {
    && 0 <= i < |events| && events[i].Edit?
    && (forall j | i < j < |events| :: !events[j].Clear?)
    && (GoodPrefix(t, events, i);
        q in CompareConfigs(t, Run(t, boot, events[..i]).current, events[i].parsed))
    && CannotApply(events[i].handler, q)
  }

  lemma LeftPendingIsAdded(t: Type, boot: Value, events: seq<Event>, i: int, q: string)
    requires Conforms(t, boot) && GoodRun(t, events)
    ensures LeftPendingBy(t, boot, events, i, q) <==> AddedBy(Additions(t, boot, events), i, q)
  {
    if 0 <= i < |events| {
      forall j | i <= j < |events| ensures Additions(t, boot, events)[j].None? <==> events[j].Clear? {
        AdditionAt(t, boot, events, j);
      }
      AdditionAt(t, boot, events, i);
      if events[i].Edit? {
        PendingSettings(t, Run(t, boot, events[..i]).current, events[i].parsed, events[i].handler, q);
      }
    }
  }

  /** Over every run: a setting is listed exactly when some edit since the last
      `ClearPendingRestart` left it pending. */
  lemma RunListsExactly(t: Type, boot: Value, events: seq<Event>, q: string)
    requires Conforms(t, boot) && GoodRun(t, events)
    ensures q in Run(t, boot, events).restartSettings <==> exists i :: LeftPendingBy(t, boot, events, i, q)
  {
    RunGathers(t, boot, events);
    GatheredHolds(Additions(t, boot, events), q);
    forall i ensures LeftPendingBy(t, boot, events, i, q) <==> AddedBy(Additions(t, boot, events), i, q) {
      LeftPendingIsAdded(t, boot, events, i, q);
    }
  }

  lemma {:induction false} FlagIffListed(t: Type, boot: Value, events: seq<Event>)
    requires Conforms(t, boot) && GoodRun(t, events)
    ensures Run(t, boot, events).pendingRestart <==> Run(t, boot, events).restartSettings != []
  {
    if events != [] {
      var n := |events| - 1;
      assert events[..n + 1] == events;
      RunStep(t, boot, events, n);
      FlagIffListed(t, boot, events[..n]);
    }
  }

  /** Over every run: the restart flag is up exactly when some edit since the last
      `ClearPendingRestart` left some setting pending. */
  lemma RunPendingIsExact(t: Type, boot: Value, events: seq<Event>)
    requires Conforms(t, boot) && GoodRun(t, events)
    ensures Run(t, boot, events).pendingRestart <==> exists i, q :: LeftPendingBy(t, boot, events, i, q)
  {
    FlagIffListed(t, boot, events);
    var listed := Run(t, boot, events).restartSettings;
    if listed != [] {
      assert listed[0] in listed;
      RunListsExactly(t, boot, events, listed[0]);
    }
    if i, q :| LeftPendingBy(t, boot, events, i, q) {
      RunListsExactly(t, boot, events, q);
    }
  }

  // --- The manager ---

  class Manager {
    const schema: Type
    var current: Value
    var reloadHandler: Handler
    var pendingRestart: bool
    var restartSettings: seq<string>
    /** The handler calls made so far. */
    var calls: seq<Call>

    ghost predicate Valid() reads this {
      Conforms(schema, current)
    }

    constructor (schema: Type, boot: Value)
      requires Conforms(schema, boot)
      ensures Valid() && this.schema == schema && State(current, pendingRestart, restartSettings) == State(boot, false, [])
      ensures reloadHandler == Absent && calls == []
    {
      this.schema := schema;
      current, reloadHandler := boot, Absent;
      pendingRestart, restartSettings, calls := false, [], [];
    }

    method SetReloadHandler(handler: Handler)
      modifies this`reloadHandler
      ensures reloadHandler == handler
    {
      reloadHandler := handler;
    }

    /** Calls the handler with the given tree and paths; true means it failed. */
    method CallHandler(config: Value, paths: seq<string>) returns (failed: bool)
      requires !reloadHandler.Absent?
      modifies this`calls
      ensures failed == reloadHandler.Fails?
      ensures calls == old(calls) + [Call(config, paths)]
    {
      calls := calls + [Call(config, paths)];
      failed := reloadHandler.Fails?;
    }

    /** `applyConfigChanges`. */
    method ApplyConfigChanges(parsed: Value)
      requires Valid() && Conforms(schema, parsed)
      modifies this`current, this`pendingRestart, this`restartSettings, this`calls
      ensures Valid()
      ensures State(current, pendingRestart, restartSettings) ==
              Next(schema, old(State(current, pendingRestart, restartSettings)), Edit(parsed, reloadHandler))
      ensures calls == old(calls) + ApplyChanges(schema, old(current), parsed, reloadHandler).calls
    {
      var walked := CompareConfigValue(schema, Some(current), Some(parsed), "", []);
      var changes := Sort(walked);
      assert walked == Compare(schema, Some(current), Some(parsed), "");
      if changes == [] {
        NoChanges(schema, current, parsed, reloadHandler);
        return;
      }
      var b := CategorizeReloadChanges(changes);
      ApplyBuckets(parsed, b);
    }

    method ApplyBuckets(parsed: Value, b: Buckets)
      requires Valid() && Conforms(schema, parsed)
      modifies this`current, this`pendingRestart, this`restartSettings, this`calls
      ensures Valid()
      ensures var s := Decide(schema, old(current), parsed, reloadHandler, b);
              && current == s.published
              && pendingRestart == (old(pendingRestart) || s.needsRestart != [])
              && restartSettings == old(restartSettings) + s.needsRestart
              && calls == old(calls) + s.calls
    {
      var before, config := current, parsed;
      var graceful, needsRestart := b.graceful, b.restart;
      if graceful != [] && reloadHandler.Absent? {
        config := PreserveConfigPaths(schema, before, config, graceful);
        needsRestart := needsRestart + graceful;
        graceful := [];
      }
      if b.hot != [] || graceful != [] {
        config := PreserveRestartValues(schema, before, config, "");
        current := config;
        if graceful != [] {
          var failed := CallHandler(config, b.hot + graceful);
          if failed {
            config := PreserveConfigPaths(schema, before, config, graceful);
            current := config;
            needsRestart := needsRestart + graceful;
            if b.hot != [] {
              var hotFailed := CallHandler(config, b.hot);
            }
          }
        } else if !reloadHandler.Absent? && b.hot != [] {
          var failed := CallHandler(config, b.hot + graceful);
        }
      }
      if needsRestart != [] {
        pendingRestart := true;
        restartSettings := restartSettings + needsRestart;
      }
    }

    method ClearPendingRestart()
      modifies this`pendingRestart, this`restartSettings
      ensures !pendingRestart && restartSettings == []
    {
      pendingRestart, restartSettings := false, [];
    }
  }
}
