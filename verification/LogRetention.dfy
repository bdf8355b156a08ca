/** Retention by count in `src/log/rotate.go`, over whole runs: a writer that keeps `n`
    archives behaves like one that keeps them all, seen through the newest `n`. */
module LogRetention {
  import opened Strings
  import opened LogWriter

  function LastOf<T>(xs: seq<T>, n: nat): seq<T> {
    if |xs| <= n then xs else xs[|xs| - n..]
  }

  lemma LastOfAppend<T>(xs: seq<T>, y: T, n: nat)
    ensures LastOf(LastOf(xs, n) + [y], n) == LastOf(xs + [y], n)
    ensures LastOf(LastOf(xs, n), n) == LastOf(xs, n)
  {}

  /** The directory seen through the active file and the named archives. */
  function Restrict(filename: string, files: map<string, File>, names: seq<string>): map<string, File> {
    map k | k in files && (k == filename || k in names) :: files[k]
  }

  // --- Sorted names ---

  lemma {:induction false} SortedIsItself(names: seq<string>, s: set<string>)
    requires Ascending(names) && forall k :: k in s <==> k in names
    ensures SortedKeys(s) == names
    decreases |names|
  {
    if names == [] {
      assert s == {};
    } else {
      var front, last := names[..|names| - 1], names[|names| - 1];
      assert names == front + [last];
      LessIsStrict(last, last);
      forall k | k in front ensures Less(k, last) {
        var i :| 0 <= i < |front| && front[i] == k;
        assert names[i] == k;
      }
      SortedIsItself(front, s - {last});
      assert s == (s - {last}) + {last};
      SortedKeysAppend(s - {last}, last);
    }
  }

  lemma LastOfAscends(names: seq<string>, n: nat)
    requires Ascending(names)
    ensures Ascending(LastOf(names, n))
  {
    var l := LastOf(names, n);
    var c := |names| - |l|;
    forall i, j | 0 <= i < j < |l| ensures Less(l[i], l[j]) { assert Less(names[c + i], names[c + j]); }
  }

  lemma LastOfIsPart<T>(names: seq<T>, n: nat, k: T)
    requires k in LastOf(names, n)
    ensures k in names
  {}

  /** Narrowing a directory to its newest archives leaves exactly those. */
  lemma RestrictFiled(filename: string, files: map<string, File>, names: seq<string>, n: nat)
    requires Filed(filename, files, names)
    ensures Filed(filename, Restrict(filename, files, LastOf(names, n)), LastOf(names, n))
  {
    var l, r := LastOf(names, n), Restrict(filename, files, LastOf(names, n));
    LastOfAscends(names, n);
    forall k ensures k in r.Keys - {filename} <==> k in l {
      if k in l { LastOfIsPart(names, n, k); }
    }
    SortedIsItself(l, r.Keys - {filename});
  }

  // --- One pruning ---

  predicate AllArchives(filename: string, names: seq<string>) {
    forall k | k in names :: IsArchiveName(filename, k)
  }

  lemma ArchivesAreNames(p: Policy, files: map<string, File>, names: seq<string>)
    requires Filed(p.filename, files, names) && AllArchives(p.filename, names)
    ensures Archives(p, files) == NewestFirst(names)
  {
    ActiveIsNoArchive(p.filename);
    assert (set k | k in files && IsArchiveName(p.filename, k)) == files.Keys - {p.filename};
  }

  /** Pruning by count keeps the last `n` of the archives. */
  lemma PruneKeepsLast(p: Policy, files: map<string, File>, names: seq<string>, now: Time)
    requires p.keep.KeepCount? && Filed(p.filename, files, names) && AllArchives(p.filename, names)
    ensures Prune(p, files, now, ALL_WORK) == Restrict(p.filename, files, LastOf(names, p.keep.count))
  {
    var pruned, l := Prune(p, files, now, ALL_WORK), LastOf(names, p.keep.count);
    ActiveIsNoArchive(p.filename);
    PruneRemovesOnlyArchives(p, files, now, ALL_WORK, p.filename);
    PruneIsSubmap(p, files, now, ALL_WORK);
    forall k | k in files && k != p.filename ensures k in pruned <==> k in l {
      ArchivePruned(p, files, names, now, k);
    }
    assert pruned == Restrict(p.filename, files, l);
  }

  lemma ArchivePruned(p: Policy, files: map<string, File>, names: seq<string>, now: Time, k: string)
    requires p.keep.KeepCount? && Filed(p.filename, files, names) && AllArchives(p.filename, names)
    requires k in files && k != p.filename
    ensures k in Prune(p, files, now, ALL_WORK) <==> k in LastOf(names, p.keep.count)
  {
    FiledNames(p.filename, files, names, k);
    var j :| 0 <= j < |names| && names[j] == k;
    var i := |names| - 1 - j;
    ArchivesAreNames(p, files, names);
    PruneIsExact(p, files, now, ALL_WORK, Archives(p, files), i);
    LastOfHolds(names, p.keep.count, j);
  }

  lemma LastOfHolds(names: seq<string>, n: nat, j: nat)
    requires Ascending(names) && j < |names|
    ensures names[j] in LastOf(names, n) <==> |names| - 1 - j < n
  {
    var l := LastOf(names, n);
    var c := |names| - |l|;
    if |names| - 1 - j < n { assert l[j - c] == names[j]; }
    if names[j] in l {
      var i :| 0 <= i < |l| && l[i] == names[j];
      LessIsStrict(names[j], names[j]);
      assert names[c + i] == names[j] && c + i == j;
    }
  }

  /** A writer that keeps no archive has none, at any time of any run: what is left is the active file. */
  lemma {:induction false} NoneRunKeepsNothing(p: Policy, start: Time, events: seq<Event>)
    requires p.keep.KeepNone?
    ensures Run(p, start, events).files.Keys == {p.filename}
  {
    if events != [] {
      var s, e := Run(p, start, events[..|events| - 1]), events[|events| - 1];
      NoneRunKeepsNothing(p, start, events[..|events| - 1]);
      PrunedToActive(p, s.files, e.now);
      RotatedToActive(p, s, e.now);
    }
  }

  lemma PrunedToActive(p: Policy, files: map<string, File>, now: Time)
    requires p.keep.KeepNone? && p.filename in files && forall k | k in files && k != p.filename :: IsArchiveName(p.filename, k)
    ensures Prune(p, files, now, ALL_WORK).Keys == {p.filename}
  {
    PruneIsSubmap(p, files, now, ALL_WORK);
    forall k | k in files && k != p.filename ensures k !in Prune(p, files, now, ALL_WORK) {
      ArchivesHold(p, files, k);
      var i :| 0 <= i < |Archives(p, files)| && Archives(p, files)[i] == k;
      PruneIsExact(p, files, now, ALL_WORK, Archives(p, files), i);
    }
  }

  lemma RotatedToActive(p: Policy, s: State, now: Time)
    requires p.keep.KeepNone? && s.files.Keys == {p.filename}
    ensures Rotate(p, s, now, ALL_WORK).files.Keys == {p.filename}
  {
    if s.handle.Usable? {
      RotatedNameIsArchive(p, now);
      PrunedToActive(p, ArchivedAt(p, s.files, now), now);
    }
  }

  // --- The two writers side by side ---

  function Unpruned(p: Policy): Policy {
    p.(keep := Forever)
  }

  /** The pruning writer `s` is the other one, `t`, seen through the newest `n` archives. */
  ghost predicate Follows(p: Policy, s: State, t: State, times: seq<Time>, n: nat) {
    && Filed(p.filename, t.files, Names(p, times))
    && s == t.(files := Restrict(p.filename, t.files, LastOf(Names(p, times), n)))
  }

  lemma NamesAreArchives(p: Policy, times: seq<Time>)
    ensures AllArchives(p.filename, Names(p, times))
  {
    forall k | k in Names(p, times) ensures IsArchiveName(p.filename, k) {
      var i :| 0 <= i < |times| && Names(p, times)[i] == k;
      RotatedNameIsArchive(p, times[i]);
    }
  }

  lemma LastAreArchives(p: Policy, times: seq<Time>, n: nat)
    ensures AllArchives(p.filename, LastOf(Names(p, times), n))
  {
    NamesAreArchives(p, times);
    forall k | k in LastOf(Names(p, times), n) ensures IsArchiveName(p.filename, k) { LastOfIsPart(Names(p, times), n, k); }
  }

  /** Archiving commutes with looking only at some of the older archives. */
  lemma ArchivedRestricted(filename: string, files: map<string, File>, active: File, names: seq<string>, more: seq<string>,
                           name: string, path: string, now: Time)
    requires name != filename && path != filename && filename in files && name !in files && path !in files
    requires forall k | k in more :: k in names || k == path
    ensures Restrict(filename, Archived(filename, Restrict(filename, files, names), active, name, path, now), more) ==
            Restrict(filename, Archived(filename, files, active, name, path, now), more)
  {}

  /** Archiving and pruning in the narrowed directory is archiving in the full one, narrowed again. */
  lemma ArchiveThenPrune(p: Policy, files: map<string, File>, names: seq<string>, name: string, path: string, now: Time)
    requires p.keep.KeepCount? && Filed(p.filename, files, names) && files[p.filename].lines != []
    requires Later(p.filename, names, name, path) && AllArchives(p.filename, names) && IsArchiveName(p.filename, path)
    ensures var n := p.keep.count;
            var narrow := Restrict(p.filename, files, LastOf(names, n));
            && Filed(p.filename, Archived(p.filename, files, files[p.filename], name, path, now), names + [path])
            && Prune(p, Archived(p.filename, narrow, files[p.filename], name, path, now), now, ALL_WORK) ==
               Restrict(p.filename, Archived(p.filename, files, files[p.filename], name, path, now), LastOf(names + [path], n))
  {
    var n := p.keep.count;
    var l := LastOf(names, n);
    var narrow := Restrict(p.filename, files, l);
    NewArchiveConserves(p.filename, files, names, name, path, now);
    RestrictFiled(p.filename, files, names, n);
    forall k | k in l ensures k in names { LastOfIsPart(names, n, k); }
    NewArchiveConserves(p.filename, narrow, l, name, path, now);
    PruneKeepsLast(p, Archived(p.filename, narrow, files[p.filename], name, path, now), l + [path], now);
    LastOfAppend(names, path, n);
    var more := LastOf(names + [path], n);
    forall k | k in more ensures k in l || k == path { LastOfIsPart(l + [path], n, k); }
    FiledNames(p.filename, files, names, name);
    FiledNames(p.filename, files, names, path);
    ArchivedRestricted(p.filename, files, files[p.filename], l, more, name, path, now);
  }

  lemma RotatePrunes(p: Policy, s: State, now: Time)
    requires s.handle.Usable? && p.filename in s.files
    ensures Rotate(p, s, now, ALL_WORK) == State(Usable, 0, now, Prune(p, ArchivedAt(p, s.files, now), now, ALL_WORK))
  {}

  lemma RotationFollows(p: Policy, s: State, t: State, times: seq<Time>, now: Time)
    requires p.keep.KeepCount? && Follows(p, s, t, times, p.keep.count) && Spaced(times + [now])
    requires t.handle.Usable? && t.files[p.filename].lines != []
    ensures Follows(p, Rotate(p, s, now, ALL_WORK), Rotate(Unpruned(p), t, now, ALL_WORK), times + [now], p.keep.count)
  {
    NamesAreLater(p, times, now);
    NamesAppend(p, times, now);
    NamesAreArchives(p, times);
    RotatedNameIsArchive(p, now);
    ArchiveThenPrune(p, t.files, Names(p, times), ArchiveName(p.filename, now), ArchivePath(p, now), now);
    RotateForever(Unpruned(p), t, now);
    RotatePrunes(p, s, now);
  }

  lemma ReplaceFollows(p: Policy, s: State, t: State, times: seq<Time>, n: nat, f: File)
    requires Follows(p, s, t, times, n)
    ensures Follows(p, s.(files := s.files[p.filename := f]), t.(files := t.files[p.filename := f]), times, n)
    ensures s.files[p.filename] == t.files[p.filename]
  {
    ActiveReplaced(p.filename, t.files, Names(p, times), f);
  }

  lemma AppendFollows(p: Policy, s: State, t: State, times: seq<Time>, n: nat, text: string, now: Time)
    requires Follows(p, s, t, times, n)
    ensures Follows(p, Appended(p, s, text, now), Appended(Unpruned(p), t, text, now), times, n)
  {
    ReplaceFollows(p, s, t, times, n, File(Active(p, t).lines + [Line(text, now)], now));
  }

  lemma WriteFollows(p: Policy, s: State, t: State, times: seq<Time>, text: string, now: Time, was: Time)
    requires p.keep.KeepCount? && Follows(p, s, t, times, p.keep.count) && Segmented(Unpruned(p), t, was) && text != ""
    requires NeedsRotate(p, s, now, LineBytes(text)) ==> Spaced(times + [now])
    ensures Follows(p, WriteText(p, s, text, now, ALL_WORK), WriteText(Unpruned(p), t, text, now, ALL_WORK),
                    if NeedsRotate(p, s, now, LineBytes(text)) then times + [now] else times, p.keep.count)
  {
    var q := Unpruned(p);
    WriteAppends(p, s, text, now);
    WriteAppends(q, t, text, now);
    if NeedsRotate(p, s, now, LineBytes(text)) {
      EmptyIffNoBytes(Active(q, t).lines);
      RotationFollows(p, s, t, times, now);
      RotatePrunes(p, s, now);
      AppendFollows(p, Rotate(p, s, now, ALL_WORK), Rotate(q, t, now, ALL_WORK), times + [now], p.keep.count, text, now);
    } else {
      AppendFollows(p, s, t, times, p.keep.count, text, now);
    }
  }

  lemma ScheduledFollows(p: Policy, s: State, t: State, times: seq<Time>, now: Time, was: Time)
    requires p.keep.KeepCount? && Follows(p, s, t, times, p.keep.count) && Segmented(Unpruned(p), t, was)
    requires NeedsRotate(p, s, now, 0) ==> Spaced(times + [now])
    ensures Follows(p, RotateIfDue(p, s, now, ALL_WORK), RotateIfDue(Unpruned(p), t, now, ALL_WORK),
                    if NeedsRotate(p, s, now, 0) then times + [now] else times, p.keep.count)
  {
    if NeedsRotate(p, s, now, 0) {
      EmptyIffNoBytes(Active(Unpruned(p), t).lines);
      RotationFollows(p, s, t, times, now);
    } else {
      PruneAgain(p, t.files, times, now);
    }
  }

  /** There is nothing left to prune between rotations. */
  lemma PruneAgain(p: Policy, files: map<string, File>, times: seq<Time>, now: Time)
    requires p.keep.KeepCount? && Filed(p.filename, files, Names(p, times))
    ensures var narrow := Restrict(p.filename, files, LastOf(Names(p, times), p.keep.count));
            Prune(p, narrow, now, ALL_WORK) == narrow
  {
    var n, names := p.keep.count, Names(p, times);
    var narrow := Restrict(p.filename, files, LastOf(names, n));
    RestrictFiled(p.filename, files, names, n);
    LastAreArchives(p, times, n);
    PruneKeepsLast(p, narrow, LastOf(names, n), now);
    assert LastOf(LastOf(names, n), n) == LastOf(names, n);
    assert Restrict(p.filename, narrow, LastOf(names, n)) == narrow;
  }

  lemma OpenFollows(p: Policy, s: State, t: State, times: seq<Time>, n: nat, now: Time)
    requires Follows(p, s, t, times, n)
    ensures Follows(p, Open(p, s.files, now), Open(Unpruned(p), t.files, now), times, n)
  {
    ReplaceFollows(p, s, t, times, n, File([], now));
  }

  lemma StepFollows(p: Policy, s: State, t: State, times: seq<Time>, e: Event, was: Time)
    requires p.keep.KeepCount? && Follows(p, s, t, times, p.keep.count) && Segmented(Unpruned(p), t, was)
    requires Rotates(p, s, e) ==> Spaced(times + [e.now])
    ensures Rotates(p, s, e) == Rotates(Unpruned(p), t, e)
    ensures Follows(p, Step(p, s, e), Step(Unpruned(p), t, e), if Rotates(p, s, e) then times + [e.now] else times, p.keep.count)
  {
    match e
    case WriteLine(raw, now) =>
      if Sanitized(raw) != "" { WriteFollows(p, s, t, times, Sanitized(raw), now, was); }
    case Scheduled(now) => ScheduledFollows(p, s, t, times, now, was);
    case Restart(now) => OpenFollows(p, s, t, times, p.keep.count, now);
  }

  // --- Whole runs ---

  lemma SpacedPrefix(times: seq<Time>, more: seq<Time>)
    requires Spaced(times + more)
    ensures Spaced(times)
  {
    var all := times + more;
    forall i | 0 <= i < |times| ensures ValidTime(times[i]) { assert all[i] == times[i]; }
    forall i, j | 0 <= i < j < |times| ensures EarlierSecond(times[i], times[j]) {
      assert all[i] == times[i] && all[j] == times[j];
    }
  }

  /** A run that keeps `n` archives rotates exactly when the run that keeps all of them does, and
      its directory is the other one's, narrowed to the last `n` archives. */
  lemma {:induction false} CountRunFollows(p: Policy, start: Time, events: seq<Event>)
    requires p.keep.KeepCount? && Monotone(start, events) && Spaced(Rotations(p, start, events))
    ensures Rotations(p, start, events) == Rotations(Unpruned(p), start, events)
    ensures Follows(p, Run(p, start, events), Run(Unpruned(p), start, events), Rotations(p, start, events), p.keep.count)
  {
    var q := Unpruned(p);
    if events == [] {
      var files := map[p.filename := File([], start)];
      assert files.Keys - {p.filename} == {};
      assert Names(p, []) == [] && LastOf<string>([], p.keep.count) == [];
      assert Restrict(p.filename, files, []) == files;
    } else {
      var before, e := events[..|events| - 1], events[|events| - 1];
      var times := Rotations(p, start, before);
      SpacedPrefix(times, if Rotates(p, Run(p, start, before), e) then [Now(start, events)] else []);
      CountRunFollows(p, start, before);
      RunIsSegmented(q, start, before);
      assert times + [] == times;
      StepFollows(p, Run(p, start, before), Run(q, start, before), times, e, Now(start, before));
    }
  }

  lemma {:induction false} LinesInSplit(files: map<string, File>, xs: seq<string>, ys: seq<string>)
    requires (forall k | k in xs :: k in files) && (forall k | k in ys :: k in files)
    ensures LinesIn(files, xs + ys) == LinesIn(files, xs) + LinesIn(files, ys)
    decreases |ys|
  {
    if ys == [] {
      assert xs + ys == xs;
    } else {
      var front, last := ys[..|ys| - 1], ys[|ys| - 1];
      assert ys == front + [last] && xs + ys == (xs + front) + [last];
      LinesInLast(files, xs + front, last);
      LinesInLast(files, front, last);
      LinesInSplit(files, xs, front);
    }
  }

  lemma TailOf(a: seq<Line>, b: seq<Line>, c: seq<Line>)
    ensures (a + b + c)[|a|..] == b + c
  {}

  lemma NarrowedGathersTail(filename: string, files: map<string, File>, names: seq<string>, n: nat) returns (lost: nat)
    requires Filed(filename, files, names)
    ensures lost <= |Gathered(filename, files)|
    ensures Gathered(filename, Restrict(filename, files, LastOf(names, n))) == Gathered(filename, files)[lost..]
  {
    var l := LastOf(names, n);
    var older := names[..|names| - |l|];
    assert names == older + l;
    forall k | k in older || k in l ensures k in files { assert k in names; }
    GatheredFiled(filename, files, names);
    LinesInSplit(files, older, l);
    NarrowedGathers(filename, files, names, n);
    lost := |LinesIn(files, older)|;
    TailOf(LinesIn(files, older), LinesIn(files, l), files[filename].lines);
  }

  lemma NarrowedGathers(filename: string, files: map<string, File>, names: seq<string>, n: nat)
    requires Filed(filename, files, names)
    ensures forall k | k in LastOf(names, n) :: k in files
    ensures Gathered(filename, Restrict(filename, files, LastOf(names, n))) == LinesIn(files, LastOf(names, n)) + files[filename].lines
  {
    var l, narrow := LastOf(names, n), Restrict(filename, files, LastOf(names, n));
    RestrictFiled(filename, files, names, n);
    GatheredFiled(filename, narrow, l);
    LinesInSame(files, narrow, l);
  }

  /** After a run that keeps `n` archives and never rotates twice in one second, the directory
      holds the archives of the last `n` rotations, and all that is left of the records, read in
      order, is an unbroken tail. */
  lemma CountRunKeepsNewest(p: Policy, start: Time, events: seq<Event>) returns (lost: nat)
    requires p.keep.KeepCount? && Monotone(start, events) && Spaced(Rotations(p, start, events))
    ensures var files := Run(p, start, events).files;
            && SortedKeys(files.Keys - {p.filename}) == Names(p, LastOf(Rotations(p, start, events), p.keep.count))
            && lost <= |Records(events)| && Gathered(p.filename, files) == Records(events)[lost..]
  {
    var q, times, n := Unpruned(p), Rotations(p, start, events), p.keep.count;
    CountRunFollows(p, start, events);
    RunConservesIffSpaced(q, start, events);
    LastNames(p, times, n);
    lost := FollowerKeepsNewest(p, Run(p, start, events), Run(q, start, events), times, n);
  }

  lemma LastNames(p: Policy, times: seq<Time>, n: nat)
    ensures LastOf(Names(p, times), n) == Names(p, LastOf(times, n))
  {}

  lemma FollowerKeepsNewest(p: Policy, s: State, t: State, times: seq<Time>, n: nat) returns (lost: nat)
    requires Follows(p, s, t, times, n)
    ensures SortedKeys(s.files.Keys - {p.filename}) == LastOf(Names(p, times), n)
    ensures lost <= |Gathered(p.filename, t.files)| && Gathered(p.filename, s.files) == Gathered(p.filename, t.files)[lost..]
  {
    RestrictFiled(p.filename, t.files, Names(p, times), n);
    lost := NarrowedGathersTail(p.filename, t.files, Names(p, times), n);
  }

  /** As long as there were no more rotations than archives to keep, nothing is lost. */
  lemma NothingLostWithinCount(p: Policy, start: Time, events: seq<Event>)
    requires p.keep.KeepCount? && Monotone(start, events) && Spaced(Rotations(p, start, events))
    requires |Rotations(p, start, events)| <= p.keep.count
    ensures Gathered(p.filename, Run(p, start, events).files) == Records(events)
  {
    var q := Unpruned(p);
    var files := Run(q, start, events).files;
    CountRunFollows(p, start, events);
    RunConservesIffSpaced(q, start, events);
    RestrictToAll(p.filename, files, Names(p, Rotations(p, start, events)));
  }

  lemma RestrictToAll(filename: string, files: map<string, File>, names: seq<string>)
    requires Filed(filename, files, names)
    ensures Restrict(filename, files, names) == files
  {
    forall k | k in files ensures k == filename || k in names {
      if k != filename { FiledNames(filename, files, names, k); }
    }
  }
}
