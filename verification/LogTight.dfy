/** `src/log/rotate.go` over whole runs: no file is rotated before its time. Together with the
    segmentation of `LogWriter` this says where a run's records are divided into files. */
module LogTight {
  import opened Strings
  import opened LogWriter
  import opened LogRetention
  import opened LogAge

  /** Since when the active file has been there: the last rotation, or the start. */
  function Birth(start: Time, times: seq<Time>): Time {
    if times == [] then start else times[|times| - 1]
  }

  /** The lines of the `i`-th file: of the `i`-th archive, or of the active file after the last one. */
  function LinesAt(p: Policy, files: map<string, File>, times: seq<Time>, i: nat): seq<Line> {
    var k := if i < |times| then ArchivePath(p, times[i]) else p.filename;
    if k in files then files[k].lines else []
  }

  /** The bytes of the line that did not go into the file before `lines`. */
  function FirstBytes(lines: seq<Line>, pending: nat): nat {
    if lines == [] then pending else LineBytes(lines[0].text)
  }

  /** Why the file `a`, there since `birth`, was rotated at the time `at`: `next` more bytes would
      have exceeded the ceiling, or its last line is of another period than `at`, or its only line
      was written in another period than the one in which the file was opened. */
  predicate IsDue(p: Policy, birth: Time, a: seq<Line>, at: Time, next: nat) {
    a != [] &&
    (|| (p.maxBytes > 0 && FileBytes(a) + next > p.maxBytes)
     || PeriodKey(p.period, a[|a| - 1].at) != PeriodKey(p.period, at)
     || (|a| == 1 && PeriodKey(p.period, birth) != PeriodKey(p.period, a[0].at)))
  }

  /** Every archive was due; `pending` is the size of a line about to be written to an empty active file. */
  ghost predicate AllDue(p: Policy, files: map<string, File>, start: Time, times: seq<Time>, pending: nat) {
    forall i | 0 <= i < |times| ::
      IsDue(p, Birth(start, times[..i]), LinesAt(p, files, times, i), times[i], FirstBytes(LinesAt(p, files, times, i + 1), pending))
  }

  /** Neither the period anchor nor the lines of the active file are older than the file. */
  ghost predicate Since(p: Policy, s: State, start: Time, times: seq<Time>) {
    && NoLater(Birth(start, times), s.since)
    && (Active(p, s).lines != [] ==> NoLater(Birth(start, times), Active(p, s).mtime))
  }

  // --- One step ---

  lemma ActiveIsDue(p: Policy, s: State, start: Time, times: seq<Time>, now: Time, n: nat, was: Time)
    requires Segmented(p, s, was) && Since(p, s, start, times) && NeedsRotate(p, s, now, n)
    ensures IsDue(p, Birth(start, times), Active(p, s).lines, now, n)
  {
    EmptyIffNoBytes(Active(p, s).lines);
    PeriodKeyIsMonotone(p.period, Birth(start, times), s.since);
  }

  /** Archiving the active file moves the end of the list of files and nothing else. */
  lemma ArchivedLines(p: Policy, files: map<string, File>, times: seq<Time>, now: Time, i: nat)
    requires Filed(p.filename, files, Names(p, times)) && Spaced(times + [now]) && i <= |times| + 1
    ensures LinesAt(p, ArchivedAt(p, files, now), times + [now], i) == if i <= |times| then LinesAt(p, files, times, i) else []
  {
    NamesAreLater(p, times, now);
    NamesAreApart(p, times);
    if i < |times| {
      assert (times + [now])[i] == times[i];
      assert Names(p, times)[i] == ArchivePath(p, times[i]) && Names(p, times)[i] in Names(p, times);
    }
  }

  lemma RotationIsDue(p: Policy, s: State, start: Time, times: seq<Time>, now: Time, n: nat, was: Time)
    requires p.keep.Forever? && Segmented(p, s, was) && Since(p, s, start, times) && NeedsRotate(p, s, now, n)
    requires Filed(p.filename, s.files, Names(p, times)) && Spaced(times + [now]) && AllDue(p, s.files, start, times, 0)
    ensures AllDue(p, Rotate(p, s, now, ALL_WORK).files, start, times + [now], n)
    ensures Since(p, Rotate(p, s, now, ALL_WORK), start, times + [now])
  {
    var more, after := times + [now], ArchivedAt(p, s.files, now);
    RotateForever(p, s, now);
    ActiveIsDue(p, s, start, times, now, n, was);
    forall i | 0 <= i < |more|
      ensures IsDue(p, Birth(start, more[..i]), LinesAt(p, after, more, i), more[i], FirstBytes(LinesAt(p, after, more, i + 1), n))
    {
      ArchivedLines(p, s.files, times, now, i);
      ArchivedLines(p, s.files, times, now, i + 1);
      assert more[..i] == times[..i];
      if i == |times| { assert times[..i] == times; } else { EmptyIffNoBytes(Active(p, s).lines); }
    }
  }

  lemma LinesReplaced(p: Policy, files: map<string, File>, times: seq<Time>, f: File, i: nat)
    ensures LinesAt(p, files[p.filename := f], times, i) == if i < |times| then LinesAt(p, files, times, i) else f.lines
  {
    NamesAreApart(p, times);
    if i < |times| { assert Names(p, times)[i] in Names(p, times); }
  }

  lemma MoreIsDue(p: Policy, birth: Time, a: seq<Line>, at: Time, m: nat, n: nat)
    requires IsDue(p, birth, a, at, m) && m <= n
    ensures IsDue(p, birth, a, at, n)
  {}

  /** Writing a line into the active file keeps the reasons, also that of the archive before it. */
  lemma ReplaceKeepsDue(p: Policy, files: map<string, File>, start: Time, times: seq<Time>, pending: nat, f: File)
    requires p.filename in files && AllDue(p, files, start, times, pending)
    requires FirstBytes(f.lines, 0) >= FirstBytes(files[p.filename].lines, pending)
    ensures AllDue(p, files[p.filename := f], start, times, 0)
  {
    var after := files[p.filename := f];
    forall i | 0 <= i < |times|
      ensures IsDue(p, Birth(start, times[..i]), LinesAt(p, after, times, i), times[i], FirstBytes(LinesAt(p, after, times, i + 1), 0))
    {
      LinesReplaced(p, files, times, f, i);
      LinesReplaced(p, files, times, f, i + 1);
      if i + 1 < |times| { ArchiveHasLines(p, files, start, times, pending, i + 1); }
      MoreIsDue(p, Birth(start, times[..i]), LinesAt(p, files, times, i), times[i],
                FirstBytes(LinesAt(p, files, times, i + 1), pending), FirstBytes(LinesAt(p, after, times, i + 1), 0));
    }
  }

  lemma ArchiveHasLines(p: Policy, files: map<string, File>, start: Time, times: seq<Time>, pending: nat, i: nat)
    requires AllDue(p, files, start, times, pending) && i < |times|
    ensures LinesAt(p, files, times, i) != []
  {
    assert IsDue(p, Birth(start, times[..i]), LinesAt(p, files, times, i), times[i], FirstBytes(LinesAt(p, files, times, i + 1), pending));
  }

  lemma AppendIsDue(p: Policy, s: State, start: Time, times: seq<Time>, pending: nat, text: string, now: Time)
    requires p.filename in s.files && AllDue(p, s.files, start, times, pending) && pending <= LineBytes(text)
    requires NoLater(Birth(start, times), s.since) && NoLater(Birth(start, times), now)
    ensures AllDue(p, Appended(p, s, text, now).files, start, times, 0) && Since(p, Appended(p, s, text, now), start, times)
  {
    var f := File(Active(p, s).lines + [Line(text, now)], now);
    assert f.lines[0] == if Active(p, s).lines == [] then Line(text, now) else Active(p, s).lines[0];
    ReplaceKeepsDue(p, s.files, start, times, pending, f);
  }

  /** The state of an unpruned writer: filed, segmented, and with every archive due. */
  ghost predicate Due(p: Policy, s: State, start: Time, times: seq<Time>, was: Time) {
    && Segmented(p, s, was) && Filed(p.filename, s.files, Names(p, times)) && NoLater(Birth(start, times), was)
    && Since(p, s, start, times) && AllDue(p, s.files, start, times, 0)
  }

  lemma WriteIsDue(p: Policy, s: State, start: Time, times: seq<Time>, text: string, now: Time, was: Time)
    requires p.keep.Forever? && Due(p, s, start, times, was) && NoLater(was, now) && text != ""
    requires NeedsRotate(p, s, now, LineBytes(text)) ==> Spaced(times + [now])
    ensures var after, more := WriteText(p, s, text, now, ALL_WORK), if NeedsRotate(p, s, now, LineBytes(text)) then times + [now] else times;
            AllDue(p, after.files, start, more, 0) && Since(p, after, start, more)
  {
    NoLaterIsTransitive(Birth(start, times), was, now);
    WriteAppends(p, s, text, now);
    if NeedsRotate(p, s, now, LineBytes(text)) {
      RotationIsDue(p, s, start, times, now, LineBytes(text), was);
      RotateForever(p, s, now);
      AppendIsDue(p, Rotate(p, s, now, ALL_WORK), start, times + [now], LineBytes(text), text, now);
    } else {
      AppendIsDue(p, s, start, times, 0, text, now);
    }
  }

  lemma OpenIsDue(p: Policy, s: State, start: Time, times: seq<Time>, now: Time, was: Time)
    requires Due(p, s, start, times, was) && NoLater(was, now)
    ensures AllDue(p, Open(p, s.files, now).files, start, times, 0) && Since(p, Open(p, s.files, now), start, times)
  {
    NoLaterIsTransitive(Birth(start, times), was, now);
    EmptyIffNoBytes(s.files[p.filename].lines);
    if s.files[p.filename].lines == [] { ReplaceKeepsDue(p, s.files, start, times, 0, File([], now)); }
  }

  lemma StepIsDue(p: Policy, s: State, start: Time, times: seq<Time>, e: Event, was: Time)
    requires p.keep.Forever? && Due(p, s, start, times, was) && NoLater(was, e.now)
    requires Rotates(p, s, e) ==> Spaced(times + [e.now])
    ensures AllDue(p, Step(p, s, e).files, start, RotationsWith(p, s, e, times), 0)
    ensures Since(p, Step(p, s, e), start, RotationsWith(p, s, e, times))
  {
    match e
    case WriteLine(raw, now) => if Sanitized(raw) != "" { WriteIsDue(p, s, start, times, Sanitized(raw), now, was); }
    case Scheduled(now) => if NeedsRotate(p, s, now, 0) { RotationIsDue(p, s, start, times, now, 0, was); }
    case Restart(now) => OpenIsDue(p, s, start, times, now, was);
  }

  // --- Whole runs ---

  lemma RunIsFiled(p: Policy, start: Time, events: seq<Event>)
    requires p.keep.Forever? && Monotone(start, events) && Spaced(Rotations(p, start, events))
    ensures Filed(p.filename, Run(p, start, events).files, Names(p, Rotations(p, start, events)))
  {
    RunTallies(p, start, events);
    LedgerTracks(Rotations(p, start, events));
    SpacedIsWhole(Rotations(p, start, events));
  }

  lemma {:induction false} RunIsDue(p: Policy, start: Time, events: seq<Event>)
    requires p.keep.Forever? && Monotone(start, events) && Spaced(Rotations(p, start, events))
    ensures Due(p, Run(p, start, events), start, Rotations(p, start, events), Now(start, events))
  {
    RunIsSegmented(p, start, events);
    RunIsFiled(p, start, events);
    if events != [] {
      var before, e := events[..|events| - 1], events[|events| - 1];
      var times := Rotations(p, start, before);
      SpacedPrefix(times, if Rotates(p, Run(p, start, before), e) then [Now(start, events)] else []);
      RunIsDue(p, start, before);
      assert times + [] == times;
      StepIsDue(p, Run(p, start, before), start, times, e, Now(start, before));
      NoLaterIsTransitive(Birth(start, times), Now(start, before), Now(start, events));
    }
  }

  /** In every run that keeps all archives and never rotates twice in one second, each archive was
      due when it was rotated: it and the first line of the next file exceed the ceiling, or its
      last line is of an earlier period than the rotation, or its only line was written in a later
      period than the one in which the file was opened. */
  lemma EveryArchiveWasDue(p: Policy, start: Time, events: seq<Event>, i: nat)
    requires p.keep.Forever? && Monotone(start, events) && Spaced(Rotations(p, start, events)) && i < |Rotations(p, start, events)|
    ensures var times, files := Rotations(p, start, events), Run(p, start, events).files;
            && ArchivePath(p, times[i]) in files
            && IsDue(p, Birth(start, times[..i]), LinesAt(p, files, times, i), times[i], FirstBytes(LinesAt(p, files, times, i + 1), 0))
  {
    RunIsDue(p, start, events);
    var times := Rotations(p, start, events);
    assert Names(p, times)[i] in Names(p, times);
  }

  /** Without a period, two neighbouring files could not have been one. */
  lemma NeighboursExceedCeiling(p: Policy, start: Time, events: seq<Event>, i: nat)
    requires p.keep.Forever? && p.period.NoPeriod? && Monotone(start, events) && Spaced(Rotations(p, start, events))
    requires i < |Rotations(p, start, events)|
    ensures var times, files := Rotations(p, start, events), Run(p, start, events).files;
            var a, b := LinesAt(p, files, times, i), LinesAt(p, files, times, i + 1);
            p.maxBytes > 0 && FileBytes(a) + (if b == [] then 0 else LineBytes(b[0].text)) > p.maxBytes
  {
    EveryArchiveWasDue(p, start, events, i);
  }

  /** Retention by count or by age does not change this: an archive that is left, and the file
      after it, are those of the run that keeps everything. */
  lemma PrunedRunIsDue(p: Policy, start: Time, events: seq<Event>, i: nat)
    requires (p.keep.KeepCount? || p.keep.KeepAge?) && Monotone(start, events) && Spaced(Rotations(p, start, events))
    requires i < |Rotations(p, start, events)| && ArchivePath(p, Rotations(p, start, events)[i]) in Run(p, start, events).files
    ensures var times, files := Rotations(p, start, events), Run(p, start, events).files;
            IsDue(p, Birth(start, times[..i]), LinesAt(p, files, times, i), times[i], FirstBytes(LinesAt(p, files, times, i + 1), 0))
  {
    var q, times := Unpruned(p), Rotations(p, start, events);
    var n := if p.keep.KeepCount? then p.keep.count else Young(p, Run(q, start, events).files, LastPruning(p, start, events), Names(p, times));
    if p.keep.KeepCount? { CountRunFollows(p, start, events); } else { AgeRunFollows(p, start, events); }
    EveryArchiveWasDue(q, start, events, i);
    FollowerKeepsNeighbours(p, Run(p, start, events), Run(q, start, events), times, n, i);
    assert Birth(start, times[..i]) == Birth(start, Rotations(q, start, events)[..i]);
  }

  /** The active file, and an archive in view, have the lines they have in the other run. */
  lemma FollowerKeepsFile(p: Policy, s: State, t: State, times: seq<Time>, n: nat, i: nat)
    requires Follows(p, s, t, times, n) && i <= |times|
    requires i < |times| ==> ArchivePath(p, times[i]) in LastOf(Names(p, times), n)
    ensures LinesAt(p, s.files, times, i) == LinesAt(Unpruned(p), t.files, times, i)
  {}

  lemma FollowerKeepsNeighbours(p: Policy, s: State, t: State, times: seq<Time>, n: nat, i: nat)
    requires Follows(p, s, t, times, n) && i < |times| && ArchivePath(p, times[i]) in s.files
    ensures LinesAt(p, s.files, times, i) == LinesAt(Unpruned(p), t.files, times, i)
    ensures LinesAt(p, s.files, times, i + 1) == LinesAt(Unpruned(p), t.files, times, i + 1)
  {
    var names := Names(p, times);
    NamesAreApart(p, times);
    assert names[i] == ArchivePath(p, times[i]) && names[i] in names;
    LastOfHolds(names, n, i);
    if i + 1 < |times| { LastOfHolds(names, n, i + 1); }
    FollowerKeepsFile(p, s, t, times, n, i);
    FollowerKeepsFile(p, s, t, times, n, i + 1);
  }

  /** The last reason is not the calendar's: without a ceiling, the first line into a file that was
      opened in an earlier period is rotated away before the next one, of the same period. */
  lemma FirstLineOfPeriodIsAlone(p: Policy, start: Time, first: Time, second: Time, a: string, b: string)
    requires !p.period.NoPeriod? && Sanitized(a) != "" && Sanitized(b) != ""
    requires PeriodKey(p.period, start) != PeriodKey(p.period, first) == PeriodKey(p.period, second)
    ensures Rotations(p, start, [WriteLine(a, first), WriteLine(b, second)]) == [second]
  {
    var one, two := [WriteLine(a, first)], [WriteLine(a, first), WriteLine(b, second)];
    assert one[..0] == [] && two[..1] == one;
    var s := Run(p, start, []);
    assert !NeedsRotate(p, s, first, LineBytes(Sanitized(a)));
    WriteAppends(p, s, Sanitized(a), first);
    assert Rotations(p, start, []) == [] && Rotations(p, start, one) == [] + [];
    assert NeedsRotate(p, Run(p, start, one), second, LineBytes(Sanitized(b)));
  }

  // --- The scheduled check ---

  /** After a scheduled check the active file is within the ceiling, and all its lines are of the
      period of the check, whatever is kept. */
  lemma ScheduledLeavesNothingDue(p: Policy, start: Time, events: seq<Event>, now: Time)
    requires Monotone(start, events + [Scheduled(now)])
    ensures var lines := Active(p, Run(p, start, events + [Scheduled(now)])).lines;
            && (p.maxBytes > 0 ==> FileBytes(lines) <= p.maxBytes)
            && forall i | 0 <= i < |lines| :: PeriodKey(p.period, lines[i].at) == PeriodKey(p.period, now)
  {
    var all := events + [Scheduled(now)];
    assert all[..|events|] == events && all[|events|] == Scheduled(now);
    RunIsSegmented(p, start, events);
    NothingDue(p, Run(p, start, events), now, Now(start, events));
  }

  lemma NothingDue(p: Policy, s: State, now: Time, was: Time)
    requires Segmented(p, s, was) && NoLater(was, now)
    ensures var lines := Active(p, RotateIfDue(p, s, now, ALL_WORK)).lines;
            && (p.maxBytes > 0 ==> FileBytes(lines) <= p.maxBytes)
            && forall i | 0 <= i < |lines| :: PeriodKey(p.period, lines[i].at) == PeriodKey(p.period, now)
  {
    var lines := Active(p, s).lines;
    if NeedsRotate(p, s, now, 0) {
      RotatedHasFreshActive(p, s, now, ALL_WORK);
    } else {
      PruneIsSubmap(p, s.files, now, ALL_WORK);
      EmptyIffNoBytes(lines);
      if lines != [] { PeriodKeyIsMonotone(p.period, lines[|lines| - 1].at, was); }
      PeriodKeyIsMonotone(p.period, was, now);
    }
  }
}
