/** Retention by age in `src/log/rotate.go`, over whole runs: which archives the prunings of a
    run leave, and that the records left are the newest ones, without a gap. */
module LogAge {
  import opened Strings
  import opened LogWriter
  import opened LogRetention

  // --- One pruning ---

  /** The named files are there, and none was modified after a later one. */
  predicate InOrder(files: map<string, File>, names: seq<string>) {
    && (forall k | k in names :: k in files)
    && forall i, j | 0 <= i < j < |names| :: files[names[i]].mtime.unix <= files[names[j]].mtime.unix
  }

  predicate IsOld(p: Policy, files: map<string, File>, at: Time, k: string) {
    IsDoomed(p, files, at, k, 0)
  }

  /** How many of the newest names are not too old at the time `at`. */
  function Young(p: Policy, files: map<string, File>, at: Time, names: seq<string>): (n: nat)
    ensures n <= |names|
  {
    if names == [] || IsOld(p, files, at, names[|names| - 1]) then 0
    else 1 + Young(p, files, at, names[..|names| - 1])
  }

  /** In order, the young names are all at the end. */
  lemma {:induction false} YoungAreLast(p: Policy, files: map<string, File>, at: Time, names: seq<string>, j: nat)
    requires p.keep.KeepAge? && InOrder(files, names) && j < |names|
    ensures IsOld(p, files, at, names[j]) <==> |names| - 1 - j >= Young(p, files, at, names)
  {
    var front, last := names[..|names| - 1], names[|names| - 1];
    assert last in names && names[j] in names;
    if j < |names| - 1 {
      assert forall k | k in front :: k in names;
      YoungAreLast(p, files, at, front, j);
    }
  }

  lemma {:induction false} YoungSame(p: Policy, a: map<string, File>, b: map<string, File>, at: Time, names: seq<string>)
    requires forall k | k in names :: k in a && k in b && a[k] == b[k]
    ensures Young(p, a, at, names) == Young(p, b, at, names)
  {
    if names != [] {
      assert names[|names| - 1] in names;
      YoungSame(p, a, b, at, names[..|names| - 1]);
    }
  }

  lemma YoungIsIn(p: Policy, files: map<string, File>, at: Time, names: seq<string>, k: string)
    requires p.keep.KeepAge? && InOrder(files, names) && Ascending(names) && k in names
    ensures k in LastOf(names, Young(p, files, at, names)) <==> !IsOld(p, files, at, k)
  {
    var j :| 0 <= j < |names| && names[j] == k;
    YoungAreLast(p, files, at, names, j);
    LastOfHolds(names, Young(p, files, at, names), j);
  }

  lemma PruneByAge(p: Policy, files: map<string, File>, at: Time, k: string)
    requires p.keep.KeepAge? && k in files && IsArchiveName(p.filename, k)
    ensures k in Prune(p, files, at, ALL_WORK) <==> !IsOld(p, files, at, k)
  {
    ArchivesHold(p, files, k);
    var i :| 0 <= i < |Archives(p, files)| && Archives(p, files)[i] == k;
    PruneIsExact(p, files, at, ALL_WORK, Archives(p, files), i);
  }

  /** Pruning a directory that was already narrowed, but still has every young archive, leaves those. */
  lemma PruneNarrowed(p: Policy, files: map<string, File>, names: seq<string>, some: seq<string>, at: Time)
    requires p.keep.KeepAge? && Filed(p.filename, files, names) && AllArchives(p.filename, names) && InOrder(files, names)
    requires forall k | k in names && !IsOld(p, files, at, k) :: k in some
    ensures Prune(p, Restrict(p.filename, files, some), at, ALL_WORK) ==
            Restrict(p.filename, files, LastOf(names, Young(p, files, at, names)))
  {
    var narrow, l := Restrict(p.filename, files, some), LastOf(names, Young(p, files, at, names));
    var pruned := Prune(p, narrow, at, ALL_WORK);
    PruneIsSubmap(p, narrow, at, ALL_WORK);
    forall k | k in files && k != p.filename ensures k in pruned <==> k in l {
      FiledNames(p.filename, files, names, k);
      YoungIsIn(p, files, at, names, k);
      if k in some { PruneByAge(p, narrow, at, k); }
    }
    RestrictedTo(p.filename, files, pruned, l);
  }

  lemma RestrictedTo(filename: string, files: map<string, File>, part: map<string, File>, names: seq<string>)
    requires filename in part && forall k | k in part :: k in files && part[k] == files[k]
    requires forall k | k in files && k != filename :: k in part <==> k in names
    ensures part == Restrict(filename, files, names)
  {}

  // --- The two writers side by side ---

  /** When an archive was last modified: at the rotation that compressed it, or else when its last line was written. */
  predicate Stamped(p: Policy, f: File, t: Time) {
    f.lines != [] && f.mtime == if p.compress then t else f.lines[|f.lines| - 1].at
  }

  /** The archives of the rotations are stamped in order, and none later than the active file. */
  ghost predicate Aged(p: Policy, files: map<string, File>, times: seq<Time>, now: Time) {
    && p.filename in files && InOrder(files, Names(p, times))
    && (forall i | 0 <= i < |times| :: ArchivePath(p, times[i]) in files && Stamped(p, files[ArchivePath(p, times[i])], times[i]))
    && forall k | k in Names(p, times) ::
         files[k].mtime.unix <= now.unix && (files[p.filename].lines != [] ==> files[k].mtime.unix <= files[p.filename].mtime.unix)
  }

  /** Seen through the archives that were young at the last pruning, the writer `t` is `s`. */
  ghost predicate AgeFollows(p: Policy, s: State, t: State, times: seq<Time>, pruned: Time) {
    Follows(p, s, t, times, Young(p, t.files, pruned, Names(p, times)))
  }

  lemma NamesAreApart(p: Policy, times: seq<Time>)
    ensures p.filename !in Names(p, times)
  {
    NamesAreArchives(p, times);
    ActiveIsNoArchive(p.filename);
  }

  lemma ReplaceAges(p: Policy, files: map<string, File>, times: seq<Time>, f: File, was: Time, now: Time, pruned: Time)
    requires Aged(p, files, times, was) && was.unix <= now.unix && (f.lines == [] || f.mtime == now)
    ensures Aged(p, files[p.filename := f], times, now)
    ensures Young(p, files[p.filename := f], pruned, Names(p, times)) == Young(p, files, pruned, Names(p, times))
  {
    NamesAreApart(p, times);
    YoungSame(p, files, files[p.filename := f], pruned, Names(p, times));
    forall i | 0 <= i < |times| ensures ArchivePath(p, times[i]) != p.filename { assert Names(p, times)[i] in Names(p, times); }
  }

  lemma TimeAges(p: Policy, files: map<string, File>, times: seq<Time>, was: Time, now: Time)
    requires Aged(p, files, times, was) && was.unix <= now.unix
    ensures Aged(p, files, times, now)
  {}

  /** What the rotation archives is stamped no earlier than the archives before it. */
  lemma ArchivedAges(p: Policy, files: map<string, File>, times: seq<Time>, was: Time, now: Time)
    requires Aged(p, files, times, was) && NoLater(was, now) && Spaced(times + [now])
    requires var a := files[p.filename]; a.lines != [] && a.mtime == a.lines[|a.lines| - 1].at && NoLater(a.mtime, was)
    ensures Aged(p, ArchivedAt(p, files, now), times + [now], now)
  {
    var name, path, after := ArchiveName(p.filename, now), ArchivePath(p, now), ArchivedAt(p, files, now);
    NamesAreLater(p, times, now);
    NamesAreApart(p, times);
    NamesAppend(p, times, now);
    assert name + "" == name;
    forall k | k in Names(p, times) ensures k in after && after[k] == files[k] {}
    forall i | 0 <= i < |times| ensures ArchivePath(p, times[i]) in after && after[ArchivePath(p, times[i])] == files[ArchivePath(p, times[i])] {
      assert Names(p, times)[i] in Names(p, times);
    }
    InOrderAppend(files, after, Names(p, times), path);
  }

  lemma InOrderAppend(files: map<string, File>, after: map<string, File>, names: seq<string>, path: string)
    requires InOrder(files, names) && path in after
    requires forall k | k in names :: k in after && after[k] == files[k] && files[k].mtime.unix <= after[path].mtime.unix
    ensures InOrder(after, names + [path])
  {
    var more := names + [path];
    forall k | k in more ensures k in after {}
    forall i, j | 0 <= i < j < |more| ensures after[more[i]].mtime.unix <= after[more[j]].mtime.unix {
      assert more[i] == names[i] && names[i] in names;
      if j < |names| { assert more[j] == names[j] && names[j] in names; }
    }
  }

  lemma RotationAges(p: Policy, s: State, t: State, times: seq<Time>, pruned: Time, was: Time, now: Time)
    requires p.keep.KeepAge? && AgeFollows(p, s, t, times, pruned) && Aged(p, t.files, times, was)
    requires Segmented(Unpruned(p), t, was) && t.files[p.filename].lines != []
    requires NoLater(was, now) && pruned.unix <= now.unix && Spaced(times + [now])
    ensures AgeFollows(p, Rotate(p, s, now, ALL_WORK), Rotate(Unpruned(p), t, now, ALL_WORK), times + [now], now)
    ensures Aged(p, Rotate(Unpruned(p), t, now, ALL_WORK).files, times + [now], now)
  {
    ArchivedAges(p, t.files, times, was, now);
    ArchiveThenPruneByAge(p, t.files, times, pruned, now);
    RotateForever(Unpruned(p), t, now);
    RotatePrunes(p, s, now);
  }

  lemma ArchiveThenPruneByAge(p: Policy, files: map<string, File>, times: seq<Time>, pruned: Time, now: Time)
    requires p.keep.KeepAge? && Filed(p.filename, files, Names(p, times)) && files[p.filename].lines != []
    requires InOrder(files, Names(p, times)) && Aged(p, ArchivedAt(p, files, now), times + [now], now)
    requires pruned.unix <= now.unix && Spaced(times + [now])
    ensures var narrow := Restrict(p.filename, files, LastOf(Names(p, times), Young(p, files, pruned, Names(p, times))));
            var full, names := ArchivedAt(p, files, now), Names(p, times + [now]);
            && Filed(p.filename, full, names)
            && Prune(p, ArchivedAt(p, narrow, now), now, ALL_WORK) == Restrict(p.filename, full, LastOf(names, Young(p, full, now, names)))
  {
    var names, name, path := Names(p, times), ArchiveName(p.filename, now), ArchivePath(p, now);
    var l := LastOf(names, Young(p, files, pruned, names));
    var full, narrow := ArchivedAt(p, files, now), Restrict(p.filename, files, l);
    NamesAreLater(p, times, now);
    NamesAppend(p, times, now);
    NamesAreArchives(p, times + [now]);
    NewArchiveConserves(p.filename, files, names, name, path, now);
    ArchivedNarrow(p, files, names, l, now);
    YoungStayInView(p, files, full, names, path, pruned, now);
    PruneNarrowed(p, full, names + [path], l + [path], now);
  }

  /** What is young now was young at the last pruning, or is new. */
  lemma YoungStayInView(p: Policy, files: map<string, File>, full: map<string, File>, names: seq<string>, path: string, pruned: Time, now: Time)
    requires p.keep.KeepAge? && InOrder(files, names) && Ascending(names) && pruned.unix <= now.unix
    requires forall k | k in names :: k in full && full[k] == files[k]
    ensures forall k | k in names + [path] && !IsOld(p, full, now, k) :: k in LastOf(names, Young(p, files, pruned, names)) + [path]
  {
    forall k | k in names + [path] && !IsOld(p, full, now, k) ensures k in LastOf(names, Young(p, files, pruned, names)) + [path] {
      if k != path { YoungIsIn(p, files, pruned, names, k); }
    }
  }

  lemma ArchivedNarrow(p: Policy, files: map<string, File>, names: seq<string>, l: seq<string>, now: Time)
    requires Filed(p.filename, files, names) && (forall k | k in l :: k in names)
    requires Later(p.filename, names, ArchiveName(p.filename, now), ArchivePath(p, now))
    ensures ArchivedAt(p, Restrict(p.filename, files, l), now) == Restrict(p.filename, ArchivedAt(p, files, now), l + [ArchivePath(p, now)])
  {
    FiledNames(p.filename, files, names, ArchiveName(p.filename, now));
    FiledNames(p.filename, files, names, ArchivePath(p, now));
  }

  lemma AppendAges(p: Policy, s: State, t: State, times: seq<Time>, pruned: Time, text: string, was: Time, now: Time)
    requires AgeFollows(p, s, t, times, pruned) && Aged(p, t.files, times, was) && was.unix <= now.unix
    ensures AgeFollows(p, Appended(p, s, text, now), Appended(Unpruned(p), t, text, now), times, pruned)
    ensures Aged(p, Appended(Unpruned(p), t, text, now).files, times, now)
  {
    ReplaceAges(p, t.files, times, File(Active(p, t).lines + [Line(text, now)], now), was, now, pruned);
    AppendFollows(p, s, t, times, Young(p, t.files, pruned, Names(p, times)), text, now);
  }

  /** The rotations, and the time of the last pruning, after one more event. */
  function RotationsWith(p: Policy, s: State, e: Event, times: seq<Time>): seq<Time> {
    if Rotates(p, s, e) then times + [e.now] else times
  }

  function PruningWith(p: Policy, s: State, e: Event, pruned: Time): Time {
    if Rotates(p, s, e) || e.Scheduled? then e.now else pruned
  }

  lemma WriteAges(p: Policy, s: State, t: State, times: seq<Time>, pruned: Time, text: string, was: Time, now: Time)
    requires p.keep.KeepAge? && AgeFollows(p, s, t, times, pruned) && Aged(p, t.files, times, was)
    requires Segmented(Unpruned(p), t, was) && NoLater(was, now) && pruned.unix <= now.unix && text != ""
    requires NeedsRotate(p, s, now, LineBytes(text)) ==> Spaced(times + [now])
    ensures var rotates := NeedsRotate(p, s, now, LineBytes(text));
            var more, at := if rotates then times + [now] else times, if rotates then now else pruned;
            var after := WriteText(Unpruned(p), t, text, now, ALL_WORK);
            AgeFollows(p, WriteText(p, s, text, now, ALL_WORK), after, more, at) && Aged(p, after.files, more, now)
  {
    var q := Unpruned(p);
    WriteAppends(p, s, text, now);
    WriteAppends(q, t, text, now);
    if NeedsRotate(p, s, now, LineBytes(text)) {
      EmptyIffNoBytes(Active(q, t).lines);
      RotationAges(p, s, t, times, pruned, was, now);
      RotatePrunes(p, s, now);
      AppendAges(p, Rotate(p, s, now, ALL_WORK), Rotate(q, t, now, ALL_WORK), times + [now], now, text, now, now);
    } else {
      AppendAges(p, s, t, times, pruned, text, was, now);
    }
  }

  /** Pruning between rotations leaves what is still young. */
  lemma PruneAgainByAge(p: Policy, files: map<string, File>, times: seq<Time>, pruned: Time, now: Time)
    requires p.keep.KeepAge? && Filed(p.filename, files, Names(p, times)) && InOrder(files, Names(p, times)) && pruned.unix <= now.unix
    ensures var names := Names(p, times);
            Prune(p, Restrict(p.filename, files, LastOf(names, Young(p, files, pruned, names))), now, ALL_WORK) ==
            Restrict(p.filename, files, LastOf(names, Young(p, files, now, names)))
  {
    var names := Names(p, times);
    var l := LastOf(names, Young(p, files, pruned, names));
    NamesAreArchives(p, times);
    forall k | k in names && !IsOld(p, files, now, k) ensures k in l { YoungIsIn(p, files, pruned, names, k); }
    PruneNarrowed(p, files, names, l, now);
  }

  lemma ScheduledAges(p: Policy, s: State, t: State, times: seq<Time>, pruned: Time, was: Time, now: Time)
    requires p.keep.KeepAge? && AgeFollows(p, s, t, times, pruned) && Aged(p, t.files, times, was)
    requires Segmented(Unpruned(p), t, was) && NoLater(was, now) && pruned.unix <= now.unix
    requires NeedsRotate(p, s, now, 0) ==> Spaced(times + [now])
    ensures var more := if NeedsRotate(p, s, now, 0) then times + [now] else times;
            var after := RotateIfDue(Unpruned(p), t, now, ALL_WORK);
            AgeFollows(p, RotateIfDue(p, s, now, ALL_WORK), after, more, now) && Aged(p, after.files, more, now)
  {
    if NeedsRotate(p, s, now, 0) {
      EmptyIffNoBytes(Active(Unpruned(p), t).lines);
      RotationAges(p, s, t, times, pruned, was, now);
    } else {
      PruneAgainByAge(p, t.files, times, pruned, now);
      TimeAges(p, t.files, times, was, now);
    }
  }

  lemma OpenAges(p: Policy, s: State, t: State, times: seq<Time>, pruned: Time, was: Time, now: Time)
    requires AgeFollows(p, s, t, times, pruned) && Aged(p, t.files, times, was) && was.unix <= now.unix
    ensures AgeFollows(p, Open(p, s.files, now), Open(Unpruned(p), t.files, now), times, pruned)
    ensures Aged(p, Open(Unpruned(p), t.files, now).files, times, now)
  {
    OpenFollows(p, s, t, times, Young(p, t.files, pruned, Names(p, times)), now);
    ReplaceAges(p, t.files, times, File([], now), was, now, pruned);
    TimeAges(p, t.files, times, was, now);
  }

  lemma StepAges(p: Policy, s: State, t: State, times: seq<Time>, e: Event, pruned: Time, was: Time)
    requires p.keep.KeepAge? && AgeFollows(p, s, t, times, pruned) && Aged(p, t.files, times, was)
    requires Segmented(Unpruned(p), t, was) && NoLater(was, e.now) && pruned.unix <= was.unix
    requires Rotates(p, s, e) ==> Spaced(times + [e.now])
    ensures Rotates(p, s, e) == Rotates(Unpruned(p), t, e)
    ensures AgeFollows(p, Step(p, s, e), Step(Unpruned(p), t, e), RotationsWith(p, s, e, times), PruningWith(p, s, e, pruned))
    ensures Aged(p, Step(Unpruned(p), t, e).files, RotationsWith(p, s, e, times), e.now)
  {
    match e
    case WriteLine(raw, now) =>
      if Sanitized(raw) != "" {
        WriteAges(p, s, t, times, pruned, Sanitized(raw), was, now);
      } else {
        TimeAges(p, t.files, times, was, now);
      }
    case Scheduled(now) => ScheduledAges(p, s, t, times, pruned, was, now);
    case Restart(now) => OpenAges(p, s, t, times, pruned, was, now);
  }

  // --- Whole runs ---

  /** The time of a run's last pruning: of its last rotation or scheduled check. */
  function LastPruning(p: Policy, start: Time, events: seq<Event>): Time {
    if events == [] then start
    else
      var before := events[..|events| - 1];
      PruningWith(p, Run(p, start, before), events[|events| - 1], LastPruning(p, start, before))
  }

  lemma {:induction false} PruningIsPast(p: Policy, start: Time, events: seq<Event>)
    requires Monotone(start, events)
    ensures LastPruning(p, start, events).unix <= Now(start, events).unix
  {
    if events != [] { PruningIsPast(p, start, events[..|events| - 1]); }
  }

  /** A run that keeps archives for some time rotates exactly when the run that keeps all of them
      does, and its directory is the other one's, narrowed to what was young at the last pruning. */
  lemma {:induction false} AgeRunFollows(p: Policy, start: Time, events: seq<Event>)
    requires p.keep.KeepAge? && Monotone(start, events) && Spaced(Rotations(p, start, events))
    ensures Rotations(p, start, events) == Rotations(Unpruned(p), start, events)
    ensures AgeFollows(p, Run(p, start, events), Run(Unpruned(p), start, events), Rotations(p, start, events), LastPruning(p, start, events))
    ensures Aged(p, Run(Unpruned(p), start, events).files, Rotations(p, start, events), Now(start, events))
  {
    var q := Unpruned(p);
    if events == [] {
      var files := map[p.filename := File([], start)];
      assert files.Keys - {p.filename} == {};
      assert Names(p, []) == [];
      assert Restrict(p.filename, files, []) == files;
    } else {
      var before, e := events[..|events| - 1], events[|events| - 1];
      var times := Rotations(p, start, before);
      SpacedPrefix(times, if Rotates(p, Run(p, start, before), e) then [Now(start, events)] else []);
      AgeRunFollows(p, start, before);
      RunIsSegmented(q, start, before);
      PruningIsPast(p, start, before);
      assert times + [] == times;
      StepAges(p, Run(p, start, before), Run(q, start, before), times, e, LastPruning(p, start, before), Now(start, before));
    }
  }

  /** After such a run that never rotates twice in one second, an archive is left exactly when it
      was modified no longer than the retention age before the last pruning. Its time is that of
      the rotation if archives are compressed, and otherwise that of its last line. */
  lemma AgeRunLeavesYoung(p: Policy, start: Time, events: seq<Event>, i: nat)
    requires p.keep.KeepAge? && Monotone(start, events) && Spaced(Rotations(p, start, events))
    requires i < |Rotations(p, start, events)|
    ensures var t, all := Rotations(p, start, events)[i], Run(Unpruned(p), start, events).files;
            var path := ArchivePath(p, t);
            && path in all && all[path].lines != []
            && var modified := if p.compress then t else all[path].lines[|all[path].lines| - 1].at;
               path in Run(p, start, events).files <==> modified.unix + p.keep.seconds >= LastPruning(p, start, events).unix
  {
    var times, all := Rotations(p, start, events), Run(Unpruned(p), start, events).files;
    var names := Names(p, times);
    AgeRunFollows(p, start, events);
    assert names[i] == ArchivePath(p, times[i]) && names[i] in names;
    NamesAreApart(p, times);
    YoungIsIn(p, all, LastPruning(p, start, events), names, names[i]);
  }

  /** What is left is the archives of the last rotations, and all that is left of the records,
      read in order, is an unbroken tail. */
  lemma AgeRunKeepsTail(p: Policy, start: Time, events: seq<Event>) returns (left: nat, lost: nat)
    requires p.keep.KeepAge? && Monotone(start, events) && Spaced(Rotations(p, start, events))
    ensures var files := Run(p, start, events).files;
            && SortedKeys(files.Keys - {p.filename}) == Names(p, LastOf(Rotations(p, start, events), left))
            && lost <= |Records(events)| && Gathered(p.filename, files) == Records(events)[lost..]
  {
    var q, times := Unpruned(p), Rotations(p, start, events);
    AgeRunFollows(p, start, events);
    RunConservesIffSpaced(q, start, events);
    left := Young(p, Run(q, start, events).files, LastPruning(p, start, events), Names(p, times));
    LastNames(p, times, left);
    lost := FollowerKeepsNewest(p, Run(p, start, events), Run(q, start, events), times, left);
  }
}
