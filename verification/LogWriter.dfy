/** The self-rotating log writer (`src/log/rotate.go`, `src/log/manager.go`,
    `src/log/format.go`): rotation by size and calendar period, archiving and pruning. */
module LogWriter {
  import opened Strings

  // --- Time ---

  /** A clock reading: seconds, and the calendar fields Go formats from it
      (YYYYMMDD, HHMMSS, and ISO year and week). */
  datatype Time = Time(unix: nat, date: nat, tod: nat, week: nat)

  predicate ValidTime(t: Time) {
    t.date < 100000000 && t.tod < 1000000
  }

  /** A wall clock that has not been turned back between two readings. */
  predicate NoLater(a: Time, b: Time) {
    a.unix <= b.unix && (a.date < b.date || (a.date == b.date && a.tod <= b.tod)) && a.week <= b.week
  }

  datatype Period = NoPeriod | Daily | Weekly | Monthly | Yearly

  /** `periodKey`: changes exactly when the rotation period rolls over. */
  function PeriodKey(p: Period, t: Time): nat {
    match p
    case NoPeriod => 0
    case Daily => t.date
    case Weekly => t.week
    case Monthly => t.date / 100
    case Yearly => t.date / 10000
  }

  /** Two readings have the same key exactly when they fall in the same day, ISO week, month or
      year; without a period they always do. */
  lemma SamePeriodIff(a: Time, b: Time, y: nat, m: nat, d: nat, y': nat, m': nat, d': nat)
    requires a.date == y * 10000 + m * 100 + d && m < 100 && d < 100
    requires b.date == y' * 10000 + m' * 100 + d' && m' < 100 && d' < 100
    ensures PeriodKey(Daily, a) == PeriodKey(Daily, b) <==> y == y' && m == m' && d == d'
    ensures PeriodKey(Weekly, a) == PeriodKey(Weekly, b) <==> a.week == b.week
    ensures PeriodKey(Monthly, a) == PeriodKey(Monthly, b) <==> y == y' && m == m'
    ensures PeriodKey(Yearly, a) == PeriodKey(Yearly, b) <==> y == y'
    ensures PeriodKey(NoPeriod, a) == PeriodKey(NoPeriod, b)
  {
    DateFields(a.date, y, m, d);
    DateFields(b.date, y', m', d');
    assert (y == y' && m == m') || y * 100 + m != y' * 100 + m';
    assert (y * 100 + m == y' * 100 + m' && d == d') || a.date != b.date;
  }

  lemma DateFields(date: nat, y: nat, m: nat, d: nat)
    requires date == y * 10000 + m * 100 + d && m < 100 && d < 100
    ensures date / 100 == y * 100 + m && date / 10000 == y
  {
    var month := y * 100 + m;
    assert date == month * 100 + d;
  }

  lemma PeriodKeyIsMonotone(p: Period, a: Time, b: Time)
    requires NoLater(a, b)
    ensures PeriodKey(p, a) <= PeriodKey(p, b)
  {}

  // --- Lines ---

  predicate IsControl(c: char) {
    c == '\n' || c == '\r' || (c < ' ' && c != '\t') || c == '\U{7f}'
  }

  function Sanitized(s: string): string {
    if s == "" then "" else (if IsControl(s[0]) then "" else [s[0]]) + Sanitized(s[1..])
  }

  /** Sanitizing drops control characters and nothing else: the tab is kept, the delete character is not. */
  lemma {:induction false} SanitizedHolds(s: string, c: char)
    ensures c in Sanitized(s) <==> c in s && (c == '\t' || (' ' <= c && c != '\U{7f}'))
  {
    if s != "" {
      SanitizedHolds(s[1..], c);
      assert s == [s[0]] + s[1..];
    }
  }

  /** It works character by character. */
  lemma {:induction false} SanitizedConcat(a: string, b: string)
    ensures Sanitized(a + b) == Sanitized(a) + Sanitized(b)
    decreases |a|
  {
    if a == "" {
      assert a + b == b;
    } else {
      assert (a + b)[1..] == a[1..] + b;
      SanitizedConcat(a[1..], b);
    }
  }

  /** A line without control characters is written as it is. */
  lemma {:induction false} CleanLineStays(s: string)
    requires forall c | c in s :: c == '\t' || (' ' <= c && c != '\U{7f}')
    ensures Sanitized(s) == s
  {
    if s != "" {
      assert s[0] in s && s == [s[0]] + s[1..];
      forall c | c in s[1..] ensures c in s {}
      CleanLineStays(s[1..]);
    }
  }

  lemma SanitizedFrom(s: string, i: nat)
    requires i < |s|
    ensures Sanitized(s[i..]) == (if IsControl(s[i]) then "" else [s[i]]) + Sanitized(s[i + 1..])
  {
    assert s[i..][1..] == s[i + 1..];
  }

  /** `sanitizeLine`. */
  method SanitizeLine(s: string) returns (r: string)
    ensures r == Sanitized(s)
  {
    r := "";
    var i := 0;
    while i < |s|
      invariant 0 <= i <= |s|
      invariant r + Sanitized(s[i..]) == Sanitized(s)
    {
      SanitizedFrom(s, i);
      if !IsControl(s[i]) { r := r + [s[i]]; }
      i := i + 1;
    }
    assert s[i..] == "";
  }

  /** A line in a file, with the time it was written. */
  datatype Line = Line(text: string, at: Time)

  function CharBytes(c: char): nat {
    if c < '\U{80}' then 1 else if c < '\U{800}' then 2 else if c < '\U{10000}' then 3 else 4
  }

  function TextBytes(s: string): nat {
    if s == "" then 0 else CharBytes(s[0]) + TextBytes(s[1..])
  }

  /** The bytes a line takes in the file, newline included. */
  function LineBytes(text: string): (n: nat)
    ensures n > 0
  {
    TextBytes(text) + 1
  }

  function FileBytes(lines: seq<Line>): nat {
    if lines == [] then 0 else FileBytes(lines[..|lines| - 1]) + LineBytes(lines[|lines| - 1].text)
  }

  /** The raw text of a file. */
  function FileText(lines: seq<Line>): string {
    if lines == [] then "" else lines[0].text + "\n" + FileText(lines[1..])
  }

  /** A character takes as many bytes as its UTF-8 encoding (section 3 of RFC 3629). */
  lemma CharBytesAreUtf8(c: char)
    ensures CharBytes(c) == 1 <==> c as int <= 0x7f
    ensures CharBytes(c) == 2 <==> 0x80 <= c as int <= 0x7ff
    ensures CharBytes(c) == 3 <==> 0x800 <= c as int <= 0xffff
    ensures CharBytes(c) == 4 <==> 0x1_0000 <= c as int
  {}

  lemma {:induction false} TextBytesConcat(a: string, b: string)
    ensures TextBytes(a + b) == TextBytes(a) + TextBytes(b)
    decreases |a|
  {
    if a == "" {
      assert a + b == b;
    } else {
      assert (a + b)[1..] == a[1..] + b;
      TextBytesConcat(a[1..], b);
    }
  }

  lemma {:induction false} FileTextLast(lines: seq<Line>, l: Line)
    ensures FileText(lines + [l]) == FileText(lines) + (l.text + "\n")
    decreases |lines|
  {
    if lines == [] {
      assert lines + [l] == [l] && [l][1..] == [];
    } else {
      assert (lines + [l])[1..] == lines[1..] + [l];
      FileTextLast(lines[1..], l);
    }
  }

  /** The size that the writer keeps for a file is the number of bytes in it, newlines included. */
  lemma {:induction false} FileBytesAreTextBytes(lines: seq<Line>)
    ensures FileBytes(lines) == TextBytes(FileText(lines))
    decreases |lines|
  {
    if lines != [] {
      var front, l := lines[..|lines| - 1], lines[|lines| - 1];
      assert lines == front + [l];
      FileBytesAreTextBytes(front);
      FileTextLast(front, l);
      TextBytesConcat(FileText(front), l.text + "\n");
      TextBytesConcat(l.text, "\n");
      assert "\n"[1..] == "" && TextBytes("\n") == CharBytes('\n') + TextBytes("");
    }
  }

  function Texts(lines: seq<Line>): (r: seq<string>)
    ensures |r| == |lines| && forall i | 0 <= i < |r| :: r[i] == lines[i].text
  {
    seq(|lines|, i requires 0 <= i < |lines| => lines[i].text)
  }

  predicate CleanLines(lines: seq<Line>) {
    forall i | 0 <= i < |lines| :: lines[i].text != "" && '\n' !in lines[i].text
  }

  /** One record per line: splitting the file at newlines gives back exactly the records. */
  lemma {:induction false} OneRecordPerLine(lines: seq<Line>)
    requires CleanLines(lines)
    ensures Split(FileText(lines), '\n') == Texts(lines) + [""]
  {
    if lines != [] {
      OneRecordPerLine(lines[1..]);
      SplitFirst(lines[0].text, FileText(lines[1..]), '\n');
      assert Texts(lines) == [lines[0].text] + Texts(lines[1..]);
    }
  }

  // --- Archive names ---

  /** `n` with leading zeros, `w` digits wide. */
  function Padded(n: nat, w: nat): (r: string)
    ensures |r| == w
    decreases w, n
  {
    if w == 0 then "" else Padded(n / 10, w - 1) + [Digit(n % 10)]
  }

  function Stamp(t: Time): (r: string)
    ensures |r| == 15
  {
    Padded(t.date, 8) + "-" + Padded(t.tod, 6)
  }

  /** `filepath.Ext` of a bare file name: from its last dot on. */
  function Ext(name: string): (e: string)
    ensures |e| <= |name|
  {
    if name == "" then ""
    else
      var e := Ext(name[1..]);
      if e != "" then e
      else if name[0] == '.' then name
      else ""
  }

  function Stem(name: string): string {
    name[..|name| - |Ext(name)|]
  }

  lemma {:induction false} ExtIsSuffix(name: string)
    ensures name[|name| - |Ext(name)|..] == Ext(name) && (Ext(name) == "" || Ext(name)[0] == '.')
  {
    if name != "" { ExtIsSuffix(name[1..]); }
  }

  lemma StemAndExt(name: string)
    ensures name == Stem(name) + Ext(name) && (Ext(name) == "" || Ext(name)[0] == '.')
  {
    ExtIsSuffix(name);
  }

  function ArchiveName(filename: string, t: Time): string {
    Stem(filename) + "-" + Stamp(t) + Ext(filename)
  }

  /** The archive test of `pruneLocked`. */
  predicate IsArchiveName(filename: string, name: string) {
    HasPrefix(name, Stem(filename) + "-") && (HasSuffix(name, Ext(filename)) || HasSuffix(name, Ext(filename) + ".gz"))
  }

  /** Pruning never takes the active file for an archive. */
  lemma ActiveIsNoArchive(filename: string)
    ensures !IsArchiveName(filename, filename)
  {
    var stem, ext := Stem(filename), Ext(filename);
    StemAndExt(filename);
    assert ext == "" || filename[|stem|] == ext[0];
  }

  lemma {:induction false} PaddedOrder(m: nat, n: nat, w: nat)
    requires m < n && n < Pow10(w)
    ensures Less(Padded(m, w), Padded(n, w))
    decreases w
  {
    if w > 0 {
      var p, q := Padded(m / 10, w - 1), Padded(n / 10, w - 1);
      if m / 10 < n / 10 {
        PaddedOrder(m / 10, n / 10, w - 1);
        LessIgnoresTails(p, q, [Digit(m % 10)], [Digit(n % 10)]);
      } else {
        LessCancelsPrefix(p, [Digit(m % 10)], [Digit(n % 10)]);
      }
    }
  }

  function Pow10(w: nat): nat {
    if w == 0 then 1 else 10 * Pow10(w - 1)
  }

  /** Strings of one length that differ keep their order whatever follows. */
  lemma {:induction false} LessIgnoresTails(a: string, b: string, x: string, y: string)
    requires |a| == |b| && Less(a, b)
    ensures Less(a + x, b + y)
    decreases |a|
  {
    assert (a + x)[1..] == a[1..] + x && (b + y)[1..] == b[1..] + y;
    if a[0] == b[0] { LessIgnoresTails(a[1..], b[1..], x, y); }
  }

  predicate EarlierSecond(a: Time, b: Time) {
    a.date < b.date || (a.date == b.date && a.tod < b.tod)
  }

  /** Archive names sort in the order of their timestamps, gzipped or not. */
  lemma ArchiveNamesSortByTime(filename: string, a: Time, b: Time, x: string, y: string)
    requires ValidTime(a) && ValidTime(b) && EarlierSecond(a, b)
    ensures Less(ArchiveName(filename, a) + x, ArchiveName(filename, b) + y)
  {
    StampOrder(a, b);
    MiddleOrder(Stem(filename) + "-", Stamp(a), Stamp(b), Ext(filename), x, y);
  }

  lemma MiddleOrder(front: string, a: string, b: string, back: string, x: string, y: string)
    requires |a| == |b| && Less(a, b)
    ensures Less(front + a + back + x, front + b + back + y)
  {
    LessIgnoresTails(a, b, back + x, back + y);
    LessCancelsPrefix(front, a + (back + x), b + (back + y));
    assert front + a + back + x == front + (a + (back + x));
    assert front + b + back + y == front + (b + (back + y));
  }

  lemma StampOrder(a: Time, b: Time)
    requires ValidTime(a) && ValidTime(b) && EarlierSecond(a, b)
    ensures Less(Stamp(a), Stamp(b))
  {
    Pow10Values();
    if a.date < b.date {
      PaddedOrder(a.date, b.date, 8);
    } else {
      PaddedOrder(a.tod, b.tod, 6);
    }
    JoinedOrder(Padded(a.date, 8), Padded(a.tod, 6), Padded(b.date, 8), Padded(b.tod, 6), "-");
  }

  lemma JoinedOrder(a: string, x: string, b: string, y: string, dash: string)
    requires |a| == |b| && (Less(a, b) || (a == b && Less(x, y)))
    ensures Less(a + dash + x, b + dash + y)
  {
    assert a + dash + x == a + (dash + x) && b + dash + y == b + (dash + y);
    if Less(a, b) {
      LessIgnoresTails(a, b, dash + x, dash + y);
    } else {
      LessCancelsPrefix(dash, x, y);
      LessCancelsPrefix(a, dash + x, dash + y);
    }
  }

  lemma Pow10Values()
    ensures Pow10(6) == 1000000 && Pow10(8) == 100000000
  {
    assert Pow10(2) == 100 && Pow10(4) == 10000;
    assert Pow10(6) == 1000000;
    assert Pow10(8) == 100000000;
  }

  // --- The writer ---

  datatype Keep = KeepNone | KeepCount(count: nat) | KeepAge(seconds: nat) | Forever

  datatype Policy = Policy(filename: string, period: Period, maxBytes: nat, keep: Keep, compress: bool)

  datatype File = File(lines: seq<Line>, mtime: Time)

  /** The writer's file handle: none, open, or closed underneath the writer. */
  datatype Handle = NoFile | Usable | Stale

  datatype State = State(handle: Handle, size: nat, since: Time, files: map<string, File>)

  /** Which of the file system calls of one operation work, and which archives cannot be removed. */
  datatype Outcome = Outcome(closes: bool, renames: bool, reopens: bool, compresses: bool, lists: bool, writes: bool, stuck: set<string>)

  const ALL_WORK := Outcome(true, true, true, true, true, true, {})

  predicate NeedsRotate(p: Policy, s: State, now: Time, n: nat) {
    && !s.handle.NoFile? && s.size != 0
    && (|| (p.maxBytes > 0 && s.size + n > p.maxBytes)
        || (!p.period.NoPeriod? && PeriodKey(p.period, s.since) != PeriodKey(p.period, now)))
  }

  /** The archives of a directory, newest name first. */
  function Archives(p: Policy, files: map<string, File>): seq<string> {
    NewestFirst(SortedKeys(set k | k in files && IsArchiveName(p.filename, k)))
  }

  function NewestFirst(names: seq<string>): seq<string> {
    seq(|names|, i requires 0 <= i < |names| => names[|names| - 1 - i])
  }

  predicate Descending(names: seq<string>) {
    forall i, j | 0 <= i < j < |names| :: Less(names[j], names[i])
  }

  lemma NewestFirstHolds(names: seq<string>, k: string)
    ensures k in NewestFirst(names) <==> k in names
  {
    if k in names {
      var i :| 0 <= i < |names| && names[i] == k;
      assert NewestFirst(names)[|names| - 1 - i] == k;
    }
  }

  lemma ArchivesDescend(p: Policy, files: map<string, File>)
    ensures Descending(Archives(p, files))
  {}

  /** Archives are listed by name alone: prefix, and suffix with or without `.gz`. */
  lemma ArchivesHold(p: Policy, files: map<string, File>, k: string)
    ensures k in Archives(p, files) <==> k in files && IsArchiveName(p.filename, k)
  {
    NewestFirstHolds(SortedKeys(set k | k in files && IsArchiveName(p.filename, k)), k);
  }

  /** Whether retention removes `name`, the `i`-th newest archive. */
  predicate IsDoomed(p: Policy, files: map<string, File>, now: Time, name: string, i: nat) {
    match p.keep
    case KeepNone => true
    case KeepCount(n) => i >= n
    case KeepAge(seconds) => name in files && files[name].mtime.unix + seconds < now.unix
    case Forever => false
  }

  /** What the pruning loop has removed after `n` of the names. */
  function Removed(p: Policy, files: map<string, File>, now: Time, stuck: set<string>, names: seq<string>, n: nat): set<string>
    requires n <= |names|
  {
    if n == 0 then {}
    else
      Removed(p, files, now, stuck, names, n - 1) +
      if IsDoomed(p, files, now, names[n - 1], n - 1) && names[n - 1] !in stuck then {names[n - 1]} else {}
  }

  function Prunable(p: Policy, files: map<string, File>, now: Time, stuck: set<string>, names: seq<string>): set<string> {
    Removed(p, files, now, stuck, names, |names|)
  }

  /** `pruneLocked`. */
  function Prune(p: Policy, files: map<string, File>, now: Time, o: Outcome): map<string, File> {
    if p.keep.Forever? || !o.lists then files else files - Prunable(p, files, now, o.stuck, Archives(p, files))
  }

  function Active(p: Policy, s: State): File {
    if p.filename in s.files then s.files[p.filename] else File([], s.since)
  }

  function ArchivePath(p: Policy, now: Time): string {
    ArchiveName(p.filename, now) + if p.compress then ".gz" else ""
  }

  /** The directory once the active file has become `name`, gzipped to `path` if that
      is another name, and a fresh active file is open. */
  function Archived(filename: string, files: map<string, File>, active: File, name: string, path: string, now: Time): map<string, File> {
    (files - {name})[path := if path == name then active else File(active.lines, now)][filename := File([], now)]
  }

  function Rotated(p: Policy, s: State, now: Time, o: Outcome): map<string, File> {
    var name := ArchiveName(p.filename, now);
    if p.compress && !o.compresses then Archived(p.filename, s.files, Active(p, s), name, name, now)
    else Prune(p, Archived(p.filename, s.files, Active(p, s), name, ArchivePath(p, now), now), now, o)
  }

  /** `rotateLocked`. */
  function Rotate(p: Policy, s: State, now: Time, o: Outcome): State {
    if s.handle.NoFile? then s
    else if s.handle.Stale? || !o.closes then s.(handle := Stale)
    else if !o.renames then
      if o.reopens then State(Usable, FileBytes(Active(p, s).lines), now, s.files[p.filename := Active(p, s)])
      else s.(handle := NoFile)
    else if !o.reopens then
      s.(handle := NoFile, files := s.files[ArchiveName(p.filename, now) := Active(p, s)] - {p.filename})
    else State(Usable, 0, now, Rotated(p, s, now, o))
  }

  /** `write`, after sanitizing. */
  function WriteText(p: Policy, s: State, text: string, now: Time, o: Outcome): State {
    if text == "" || s.handle.NoFile? then s
    else
      var r := if NeedsRotate(p, s, now, LineBytes(text)) then Rotate(p, s, now, o) else s;
      if !r.handle.Usable? || !o.writes then r
      else r.(size := r.size + LineBytes(text),
              files := r.files[p.filename := File(Active(p, r).lines + [Line(text, now)], now)])
  }

  function Write(p: Policy, s: State, raw: string, now: Time, o: Outcome): State {
    WriteText(p, s, Sanitized(raw), now, o)
  }

  /** `rotateIfDue`. */
  function RotateIfDue(p: Policy, s: State, now: Time, o: Outcome): State {
    if s.handle.NoFile? then s
    else if NeedsRotate(p, s, now, 0) then Rotate(p, s, now, o)
    else s.(files := Prune(p, s.files, now, o))
  }

  /** `openWriter` on the same directory: a restart, or a reload of the configuration. */
  function Open(p: Policy, files: map<string, File>, now: Time): State {
    if p.filename in files && FileBytes(files[p.filename].lines) > 0 then
      State(Usable, FileBytes(files[p.filename].lines), files[p.filename].mtime, files)
    else State(Usable, 0, now, files[p.filename := File([], now)])
  }

  // --- Retention ---

  lemma {:induction false} RemovedHolds(p: Policy, files: map<string, File>, now: Time, stuck: set<string>,
                                         names: seq<string>, n: nat, i: nat)
    requires n <= |names| && i < |names| && Descending(names)
    ensures names[i] in Removed(p, files, now, stuck, names, n) <==>
            i < n && IsDoomed(p, files, now, names[i], i) && names[i] !in stuck
  {
    if n > 0 {
      RemovedHolds(p, files, now, stuck, names, n - 1, i);
      LessIsStrict(names[i], names[i]);
    }
  }

  lemma {:induction false} RemovedOnly(p: Policy, files: map<string, File>, now: Time, stuck: set<string>,
                                        names: seq<string>, n: nat, k: string)
    requires n <= |names| && k in Removed(p, files, now, stuck, names, n)
    ensures k in names
  {
    if k in Removed(p, files, now, stuck, names, n - 1) { RemovedOnly(p, files, now, stuck, names, n - 1, k); }
  }

  /** Pruning removes exactly the archives retention dooms and the file system lets go;
      in count mode the survivors are the newest `count`. */
  lemma PruneIsExact(p: Policy, files: map<string, File>, now: Time, o: Outcome, names: seq<string>, i: nat)
    requires names == Archives(p, files) && i < |names| && o.lists
    ensures names[i] in Prune(p, files, now, o) <==> !IsDoomed(p, files, now, names[i], i) || names[i] in o.stuck
    ensures p.keep.KeepCount? && o.stuck == {} ==> (names[i] in Prune(p, files, now, o) <==> i < p.keep.count)
  {
    ArchivesDescend(p, files);
    ArchivesHold(p, files, names[i]);
    RemovedHolds(p, files, now, o.stuck, names, |names|, i);
  }

  /** Whatever the mode and whatever fails, pruning removes nothing but archives. */
  lemma PruneRemovesOnlyArchives(p: Policy, files: map<string, File>, now: Time, o: Outcome, k: string)
    requires k in files && !IsArchiveName(p.filename, k)
    ensures k in Prune(p, files, now, o) && Prune(p, files, now, o)[k] == files[k]
  {
    var names := Archives(p, files);
    ArchivesHold(p, files, k);
    if k in Prunable(p, files, now, o.stuck, names) { RemovedOnly(p, files, now, o.stuck, names, |names|, k); }
  }

  // --- Whose files the archive test takes ---

  lemma SuffixOf(a: string, b: string)
    ensures HasSuffix(a + b, b)
  {
    assert (a + b)[|a + b| - |b|..] == b;
  }

  lemma PrefixOf(a: string, b: string)
    ensures HasPrefix(a + b, a)
  {
    assert (a + b)[..|a|] == a;
  }

  /** Anything between the stem and the extension passes the archive test, gzipped or not. */
  lemma DashedNameIsArchive(filename: string, middle: string)
    ensures IsArchiveName(filename, Stem(filename) + "-" + middle + Ext(filename))
    ensures IsArchiveName(filename, Stem(filename) + "-" + middle + Ext(filename) + ".gz")
  {
    var prefix, ext := Stem(filename) + "-", Ext(filename);
    var front := prefix + middle;
    PrefixOf(prefix, middle + ext);
    assert prefix + (middle + ext) == front + ext;
    SuffixOf(front, ext);
    PrefixOf(prefix, middle + ext + ".gz");
    assert prefix + (middle + ext + ".gz") == front + ext + ".gz";
    SuffixOf(front, ext + ".gz");
    assert front + (ext + ".gz") == front + ext + ".gz";
  }

  /** Every name a rotation gives to a file is recognized as an archive of the log. */
  lemma RotatedNameIsArchive(p: Policy, t: Time)
    ensures IsArchiveName(p.filename, ArchiveName(p.filename, t)) && IsArchiveName(p.filename, ArchivePath(p, t))
  {
    DashedNameIsArchive(p.filename, Stamp(t));
    assert ArchiveName(p.filename, t) + "" == ArchiveName(p.filename, t);
  }

  /** No pruning of the log `filename`, with any retention, time, directory or failing call, touches `k`. */
  ghost predicate SafeFromPruning(filename: string, k: string) {
    forall p: Policy, files: map<string, File>, now: Time, o: Outcome | p.filename == filename && k in files ::
      k in Prune(p, files, now, o) && Prune(p, files, now, o)[k] == files[k]
  }

  /** A file is out of pruning's reach exactly when its name fails the prefix and suffix test. */
  lemma SafeIffNoArchiveName(filename: string, k: string)
    ensures SafeFromPruning(filename, k) <==>
            !HasPrefix(k, Stem(filename) + "-") || !(HasSuffix(k, Ext(filename)) || HasSuffix(k, Ext(filename) + ".gz"))
  {
    if IsArchiveName(filename, k) {
      var t := Time(0, 0, 0, 0);
      var p := Policy(filename, NoPeriod, 0, KeepNone, false);
      var files := map[k := File([], t)];
      ArchivesHold(p, files, k);
      var names := Archives(p, files);
      var i :| 0 <= i < |names| && names[i] == k;
      PruneIsExact(p, files, t, ALL_WORK, names, i);
      assert k !in Prune(p, files, t, ALL_WORK);
    } else {
      forall p: Policy, files: map<string, File>, now: Time, o: Outcome | p.filename == filename && k in files
        ensures k in Prune(p, files, now, o) && Prune(p, files, now, o)[k] == files[k]
      {
        PruneRemovesOnlyArchives(p, files, now, o, k);
      }
    }
  }

  /** The promise never to touch an unrelated file fails for a log whose name extends another
      one's stem with a dash: its active file is taken for an archive. */
  lemma DashedLogIsNotSafe(filename: string, middle: string)
    ensures !SafeFromPruning(filename, Stem(filename) + "-" + middle + Ext(filename))
  {
    DashedNameIsArchive(filename, middle);
    SafeIffNoArchiveName(filename, Stem(filename) + "-" + middle + Ext(filename));
  }

  lemma {:induction false} ExtOf(stem: string, ext: string)
    requires ext != "" && ext[0] == '.' && '.' !in ext[1..]
    ensures Ext(stem + ext) == ext
  {
    if stem == "" {
      assert stem + ext == ext;
      NoDotNoExt(ext[1..]);
    } else {
      assert (stem + ext)[1..] == stem[1..] + ext;
      ExtOf(stem[1..], ext);
    }
  }

  lemma {:induction false} NoDotNoExt(s: string)
    requires '.' !in s
    ensures Ext(s) == ""
  {
    if s != "" { NoDotNoExt(s[1..]); }
  }

  lemma ExtendedLogIsNotSafe(stem: string, ext: string, middle: string)
    requires ext != "" && ext[0] == '.' && '.' !in ext[1..]
    ensures !SafeFromPruning(stem + ext, stem + "-" + middle + ext)
  {
    ExtOf(stem, ext);
    assert Stem(stem + ext) == stem;
    DashedLogIsNotSafe(stem + ext, middle);
  }

  /** Pruning app.log can delete app-audit.log. */
  lemma AuditLogIsNotSafe()
    ensures !SafeFromPruning("app" + ".log", "app" + "-" + "audit" + ".log")
  {
    ExtendedLogIsNotSafe("app", ".log", "audit");
  }

  /** Logs whose names have no dash never prune each other's files, active or archived, unless
      their stems are the same. The eight default names are of this kind. */
  lemma DashFreeLogsAreSafe(filename: string, p: Policy, t: Time)
    requires '-' !in filename && '-' !in p.filename && Stem(filename) != Stem(p.filename)
    ensures SafeFromPruning(filename, p.filename) && SafeFromPruning(filename, ArchiveName(p.filename, t)) &&
            SafeFromPruning(filename, ArchivePath(p, t))
  {
    var stem, other := Stem(filename), Stem(p.filename);
    StemAndExt(filename);
    StemAndExt(p.filename);
    assert !HasPrefix(p.filename, stem + "-") by { if HasPrefix(p.filename, stem + "-") { PrefixHasDash(p.filename, stem); } }
    SafeIffNoArchiveName(filename, p.filename);
    OtherStemIsSafe(filename, other, Stamp(t), Ext(p.filename), "");
    assert ArchiveName(p.filename, t) + "" == ArchiveName(p.filename, t);
    OtherStemIsSafe(filename, other, Stamp(t), Ext(p.filename), if p.compress then ".gz" else "");
  }

  lemma OtherStemIsSafe(filename: string, other: string, a: string, b: string, c: string)
    requires '-' !in Stem(filename) && '-' !in other && Stem(filename) != other
    ensures SafeFromPruning(filename, other + "-" + a + b + c)
  {
    var rest := a + b + c;
    assert other + "-" + a + b + c == other + "-" + rest;
    if HasPrefix(other + "-" + rest, Stem(filename) + "-") { FirstDash(other, rest, Stem(filename)); }
    SafeIffNoArchiveName(filename, other + "-" + rest);
  }

  lemma PrefixHasDash(name: string, stem: string)
    requires HasPrefix(name, stem + "-")
    ensures |stem| < |name| && name[|stem|] == '-' && name[..|stem|] == stem && '-' in name
  {
    assert name[..|stem| + 1] == stem + "-";
    assert name[..|stem|] == name[..|stem| + 1][..|stem|];
    assert name[|stem|] == name[..|stem| + 1][|stem|];
  }

  /** Two dash-free stems before the first dash of a name are the same. */
  lemma FirstDash(other: string, rest: string, stem: string)
    requires '-' !in other && '-' !in stem && HasPrefix(other + "-" + rest, stem + "-")
    ensures other == stem
  {
    var name := other + "-" + rest;
    PrefixHasDash(name, stem);
    assert name[|other|] == '-' && name[..|other|] == other;
  }

  // --- Runs ---

  datatype Event = WriteLine(raw: string, now: Time) | Scheduled(now: Time) | Restart(now: Time)

  function Step(p: Policy, s: State, e: Event): State {
    match e
    case WriteLine(raw, now) => Write(p, s, raw, now, ALL_WORK)
    case Scheduled(now) => RotateIfDue(p, s, now, ALL_WORK)
    case Restart(now) => Open(p, s.files, now)
  }

  /** A run of a writer in a fresh directory, all of whose file system calls work. */
  function Run(p: Policy, start: Time, events: seq<Event>): State {
    if events == [] then Open(p, map[], start)
    else Step(p, Run(p, start, events[..|events| - 1]), events[|events| - 1])
  }

  function Now(start: Time, events: seq<Event>): Time {
    if events == [] then start else events[|events| - 1].now
  }

  /** The clock is never turned back during the run. */
  predicate Monotone(start: Time, events: seq<Event>) {
    ValidTime(start) &&
    (events == [] ||
     (Monotone(start, events[..|events| - 1]) && ValidTime(Now(start, events)) &&
      NoLater(Now(start, events[..|events| - 1]), Now(start, events))))
  }

  /** Events that all come in one second are a run whose clock is never turned back. */
  lemma {:induction false} OneSecondIsMonotone(start: Time, events: seq<Event>)
    requires start.date < 100000000 && start.tod < 1000000 && forall e | e in events :: e.now == start
    ensures Monotone(start, events)
  {
    if events != [] {
      assert events[|events| - 1] in events;
      var before := events[..|events| - 1];
      OneSecondIsMonotone(start, before);
      if before != [] { assert before[|before| - 1] in events; }
    }
  }

  // --- Segmentation ---

  /** A file within the size ceiling or of a single line, whose lines fall in one period. */
  predicate IsSegment(p: Policy, lines: seq<Line>) {
    && (p.maxBytes > 0 ==> FileBytes(lines) <= p.maxBytes || |lines| == 1)
    && (forall i, j | 0 <= i < j < |lines| :: PeriodKey(p.period, lines[i].at) == PeriodKey(p.period, lines[j].at))
  }

  /** The period anchor fits the file: it is the lines' period, or it is older and
      stale because the single line was written into an empty file. */
  predicate Anchored(p: Policy, s: State) {
    var lines := Active(p, s).lines;
    lines == [] ||
    (forall i | 0 <= i < |lines| :: PeriodKey(p.period, lines[i].at) == PeriodKey(p.period, s.since)) ||
    (|lines| == 1 && PeriodKey(p.period, s.since) < PeriodKey(p.period, lines[0].at))
  }

  ghost predicate Segmented(p: Policy, s: State, now: Time) {
    && s.handle.Usable? && p.filename in s.files
    && s.size == FileBytes(Active(p, s).lines)
    && NoLater(s.since, now) && Anchored(p, s)
    && AllSegments(p, s.files)
    && (var a := Active(p, s); a.lines != [] ==> a.mtime == a.lines[|a.lines| - 1].at && NoLater(a.mtime, now))
  }

  lemma FileBytesAppend(lines: seq<Line>, l: Line)
    ensures FileBytes(lines + [l]) == FileBytes(lines) + LineBytes(l.text)
  {
    assert (lines + [l])[..|lines|] == lines;
  }

  lemma EmptyIffNoBytes(lines: seq<Line>)
    ensures FileBytes(lines) == 0 <==> lines == []
  {}

  lemma NoLaterIsTransitive(a: Time, b: Time, c: Time)
    requires NoLater(a, b) && NoLater(b, c)
    ensures NoLater(a, c)
  {}

  /** Pruning keeps the active file and touches no content. */
  lemma PruneIsSubmap(p: Policy, files: map<string, File>, now: Time, o: Outcome)
    ensures forall k | k in Prune(p, files, now, o) :: k in files && Prune(p, files, now, o)[k] == files[k]
    ensures p.filename in files ==> p.filename in Prune(p, files, now, o)
  {
    ActiveIsNoArchive(p.filename);
    if p.filename in files { PruneRemovesOnlyArchives(p, files, now, o, p.filename); }
  }

  lemma GzIsNotActive(filename: string, now: Time)
    ensures ArchiveName(filename, now) != filename && ArchiveName(filename, now) + ".gz" != filename
  {
    StemAndExt(filename);
    assert |ArchiveName(filename, now)| == |filename| + 16;
  }

  ghost predicate AllSegments(p: Policy, files: map<string, File>) {
    forall k | k in files :: IsSegment(p, files[k].lines)
  }

  lemma ArchivedKeepsSegments(p: Policy, files: map<string, File>, active: File, name: string, path: string, now: Time)
    requires AllSegments(p, files) && IsSegment(p, active.lines)
    ensures AllSegments(p, Archived(p.filename, files, active, name, path, now))
  {}

  lemma PruneKeepsSegments(p: Policy, files: map<string, File>, now: Time, o: Outcome)
    requires AllSegments(p, files)
    ensures AllSegments(p, Prune(p, files, now, o))
  {
    PruneIsSubmap(p, files, now, o);
  }

  lemma RotatedHasFreshActive(p: Policy, s: State, now: Time, o: Outcome)
    ensures p.filename in Rotated(p, s, now, o) && Rotated(p, s, now, o)[p.filename] == File([], now)
  {
    PruneIsSubmap(p, Archived(p.filename, s.files, Active(p, s), ArchiveName(p.filename, now), ArchivePath(p, now), now), now, o);
  }

  lemma RotatedKeepsSegments(p: Policy, s: State, now: Time, o: Outcome)
    requires AllSegments(p, s.files)
    ensures AllSegments(p, Rotated(p, s, now, o))
  {
    var name, path := ArchiveName(p.filename, now), ArchivePath(p, now);
    ArchivedKeepsSegments(p, s.files, Active(p, s), name, name, now);
    ArchivedKeepsSegments(p, s.files, Active(p, s), name, path, now);
    PruneKeepsSegments(p, Archived(p.filename, s.files, Active(p, s), name, path, now), now, o);
  }

  /** Appending a line that needs no rotation keeps a segment. */
  lemma AppendKeepsSegment(p: Policy, s: State, text: string, now: Time, was: Time)
    requires Segmented(p, s, was) && NoLater(was, now) && text != ""
    requires !NeedsRotate(p, s, now, LineBytes(text))
    ensures IsSegment(p, Active(p, s).lines + [Line(text, now)])
    ensures Anchored(p, s.(files := s.files[p.filename := File(Active(p, s).lines + [Line(text, now)], now)]))
  {
    var lines := Active(p, s).lines;
    var more := lines + [Line(text, now)];
    FileBytesAppend(lines, Line(text, now));
    EmptyIffNoBytes(lines);
    NoLaterIsTransitive(s.since, was, now);
    PeriodKeyIsMonotone(p.period, s.since, now);
    if lines == [] {
      assert more == [Line(text, now)];
    } else {
      if |lines| == 1 && PeriodKey(p.period, s.since) < PeriodKey(p.period, lines[0].at) {
        PeriodKeyIsMonotone(p.period, lines[0].at, now);
      }
      assert p.period.NoPeriod? || PeriodKey(p.period, s.since) == PeriodKey(p.period, now);
    }
  }

  lemma FreshIsSegmented(p: Policy, now: Time, files: map<string, File>)
    requires p.filename in files && files[p.filename] == File([], now) && AllSegments(p, files)
    ensures Segmented(p, State(Usable, 0, now, files), now)
  {}

  lemma RotateKeepsSegmented(p: Policy, s: State, now: Time, was: Time)
    requires Segmented(p, s, was)
    ensures Rotate(p, s, now, ALL_WORK) == State(Usable, 0, now, Rotated(p, s, now, ALL_WORK))
    ensures Segmented(p, State(Usable, 0, now, Rotated(p, s, now, ALL_WORK)), now)
  {
    RotatedHasFreshActive(p, s, now, ALL_WORK);
    RotatedKeepsSegments(p, s, now, ALL_WORK);
    FreshIsSegmented(p, now, Rotated(p, s, now, ALL_WORK));
  }

  lemma AppendKeepsSegmented(p: Policy, s: State, text: string, now: Time, was: Time)
    requires Segmented(p, s, was) && NoLater(was, now) && text != ""
    requires !NeedsRotate(p, s, now, LineBytes(text))
    ensures Segmented(p, s.(size := s.size + LineBytes(text),
                            files := s.files[p.filename := File(Active(p, s).lines + [Line(text, now)], now)]), now)
  {
    AppendKeepsSegment(p, s, text, now, was);
    FileBytesAppend(Active(p, s).lines, Line(text, now));
    NoLaterIsTransitive(s.since, was, now);
  }

  lemma TimePasses(p: Policy, s: State, was: Time, now: Time)
    requires Segmented(p, s, was) && NoLater(was, now)
    ensures Segmented(p, s, now)
  {
    NoLaterIsTransitive(s.since, was, now);
    if Active(p, s).lines != [] { NoLaterIsTransitive(Active(p, s).mtime, was, now); }
  }

  /** What a write makes of the writer that is left after a rotation, if there was one. */
  function Appended(p: Policy, r: State, text: string, now: Time): State {
    r.(size := r.size + LineBytes(text), files := r.files[p.filename := File(Active(p, r).lines + [Line(text, now)], now)])
  }

  lemma WriteAppends(p: Policy, s: State, text: string, now: Time)
    requires s.handle.Usable? && text != ""
    ensures !NeedsRotate(p, s, now, LineBytes(text)) ==> WriteText(p, s, text, now, ALL_WORK) == Appended(p, s, text, now)
    ensures NeedsRotate(p, s, now, LineBytes(text)) && Rotate(p, s, now, ALL_WORK).handle.Usable? ==>
              WriteText(p, s, text, now, ALL_WORK) == Appended(p, Rotate(p, s, now, ALL_WORK), text, now)
  {}

  lemma WriteKeepsSegmented(p: Policy, s: State, text: string, now: Time, was: Time)
    requires Segmented(p, s, was) && NoLater(was, now)
    ensures Segmented(p, WriteText(p, s, text, now, ALL_WORK), now)
  {
    TimePasses(p, s, was, now);
    if text != "" {
      WriteAppends(p, s, text, now);
      if NeedsRotate(p, s, now, LineBytes(text)) {
        RotateKeepsSegmented(p, s, now, was);
        AppendToFresh(p, Rotate(p, s, now, ALL_WORK), text, now);
      } else {
        AppendKeepsSegmented(p, s, text, now, was);
      }
    }
  }

  lemma AppendToFresh(p: Policy, r: State, text: string, now: Time)
    requires Segmented(p, r, now) && r.size == 0 && text != ""
    ensures Segmented(p, Appended(p, r, text, now), now)
  {
    AppendKeepsSegmented(p, r, text, now, now);
  }

  lemma ScheduledKeepsSegmented(p: Policy, s: State, now: Time, was: Time)
    requires Segmented(p, s, was) && NoLater(was, now)
    ensures Segmented(p, RotateIfDue(p, s, now, ALL_WORK), now)
  {
    if NeedsRotate(p, s, now, 0) {
      RotateKeepsSegmented(p, s, now, was);
    } else {
      TimePasses(p, s, was, now);
      PruneIsSubmap(p, s.files, now, ALL_WORK);
      PruneKeepsSegments(p, s.files, now, ALL_WORK);
    }
  }

  lemma OpenKeepsSegmented(p: Policy, s: State, now: Time, was: Time)
    requires Segmented(p, s, was) && NoLater(was, now)
    ensures Segmented(p, Open(p, s.files, now), now)
  {
    TimePasses(p, s, was, now);
    EmptyIffNoBytes(Active(p, s).lines);
    if Active(p, s).lines == [] { FreshIsSegmented(p, now, s.files[p.filename := File([], now)]); }
  }

  lemma StepKeepsSegmented(p: Policy, s: State, e: Event, was: Time)
    requires Segmented(p, s, was) && NoLater(was, e.now)
    ensures Segmented(p, Step(p, s, e), e.now)
  {
    match e
    case WriteLine(raw, now) => WriteKeepsSegmented(p, s, Sanitized(raw), now, was);
    case Scheduled(now) => ScheduledKeepsSegmented(p, s, now, was);
    case Restart(now) => OpenKeepsSegmented(p, s, now, was);
  }

  /** Over every run in which the clock is not turned back, whatever the retention
      mode: every file, active or archived, is within the ceiling unless it is one
      line, and holds lines of one calendar period only. */
  lemma {:induction false} RunIsSegmented(p: Policy, start: Time, events: seq<Event>)
    requires Monotone(start, events)
    ensures Segmented(p, Run(p, start, events), Now(start, events))
  {
    if events == [] {
      EmptyIffNoBytes([]);
    } else {
      var before := events[..|events| - 1];
      RunIsSegmented(p, start, before);
      StepKeepsSegmented(p, Run(p, start, before), events[|events| - 1], Now(start, before));
    }
  }

  // --- Conservation ---

  /** The records of a run: the sanitized nonempty lines, in the order written. */
  function Records(events: seq<Event>): seq<Line> {
    if events == [] then []
    else Records(events[..|events| - 1]) + Record(events[|events| - 1])
  }

  function Record(e: Event): seq<Line> {
    if e.WriteLine? && Sanitized(e.raw) != "" then [Line(Sanitized(e.raw), e.now)] else []
  }

  predicate Rotates(p: Policy, s: State, e: Event) {
    match e
    case WriteLine(raw, now) => Sanitized(raw) != "" && NeedsRotate(p, s, now, LineBytes(Sanitized(raw)))
    case Scheduled(now) => NeedsRotate(p, s, now, 0)
    case Restart(now) => false
  }

  /** The times of a run's rotations. */
  function Rotations(p: Policy, start: Time, events: seq<Event>): seq<Time> {
    if events == [] then []
    else
      var before := events[..|events| - 1];
      Rotations(p, start, before) +
      if Rotates(p, Run(p, start, before), events[|events| - 1]) then [Now(start, events)] else []
  }

  /** No two rotations fall in the same second. */
  predicate Spaced(times: seq<Time>) {
    && (forall i | 0 <= i < |times| :: ValidTime(times[i]))
    && (forall i, j | 0 <= i < j < |times| :: EarlierSecond(times[i], times[j]))
  }

  /** The lines of the named files, one file after the other. */
  function LinesIn(files: map<string, File>, names: seq<string>): seq<Line>
    requires forall k | k in names :: k in files
  {
    if names == [] then []
    else LinesIn(files, names[..|names| - 1]) + files[names[|names| - 1]].lines
  }

  /** Everything in the directory: the archives in the order of their names, then the active file. */
  function Gathered(filename: string, files: map<string, File>): seq<Line> {
    LinesIn(files, SortedKeys(files.Keys - {filename})) +
    if filename in files then files[filename].lines else []
  }

  lemma {:induction false} LinesInSame(a: map<string, File>, b: map<string, File>, names: seq<string>)
    requires forall k | k in names :: k in a && k in b && a[k].lines == b[k].lines
    ensures LinesIn(a, names) == LinesIn(b, names)
  {
    if names != [] { LinesInSame(a, b, names[..|names| - 1]); }
  }

  function Names(p: Policy, times: seq<Time>): seq<string> {
    seq(|times|, i requires 0 <= i < |times| => ArchivePath(p, times[i]))
  }

  predicate SameSecond(a: Time, b: Time) {
    a.date == b.date && a.tod == b.tod
  }

  /** The seconds that have an archive, and whether no archive has been overwritten. */
  datatype Ledger = Ledger(seconds: seq<Time>, whole: bool)

  predicate Repeats(l: Ledger, t: Time) {
    l.seconds != [] && SameSecond(l.seconds[|l.seconds| - 1], t)
  }

  function Enter(l: Ledger, t: Time): Ledger {
    if Repeats(l, t) then Ledger(l.seconds, false) else Ledger(l.seconds + [t], l.whole)
  }

  function LedgerOf(times: seq<Time>): Ledger {
    if times == [] then Ledger([], true) else Enter(LedgerOf(times[..|times| - 1]), times[|times| - 1])
  }

  /** The archives are exactly `names`, and none is empty. */
  ghost predicate Filed(filename: string, files: map<string, File>, names: seq<string>) {
    && filename in files && SortedKeys(files.Keys - {filename}) == names
    && forall k | k in files && k != filename :: files[k].lines != []
  }

  lemma FiledNames(filename: string, files: map<string, File>, names: seq<string>, k: string)
    requires Filed(filename, files, names) && k != filename
    ensures k in files <==> k in names
  {}

  lemma PathsAscend(p: Policy, d: seq<Time>, t: Time, k: string)
    requires Spaced(d + [t]) && k in Names(p, d)
    ensures Less(k, ArchivePath(p, t)) && k != ArchiveName(p.filename, t)
  {
    var i :| 0 <= i < |d| && Names(p, d)[i] == k;
    assert (d + [t])[i] == d[i] && (d + [t])[|d|] == t;
    var gz := if p.compress then ".gz" else "";
    ArchiveNamesSortByTime(p.filename, d[i], t, gz, gz);
    ArchiveNamesSortByTime(p.filename, d[i], t, gz, "");
    assert ArchiveName(p.filename, t) + "" == ArchiveName(p.filename, t);
    LessIsStrict(k, k);
  }

  lemma ArchivedKeys(filename: string, files: map<string, File>, active: File, name: string, path: string, now: Time)
    requires name != filename && path != filename && (name == path || name !in files)
    ensures var r := Archived(filename, files, active, name, path, now);
            r.Keys - {filename} == (files.Keys - {filename}) + {path}
  {}

  /** An archive under a new and greatest name keeps every line, in order. */
  lemma NewArchiveConserves(filename: string, files: map<string, File>, names: seq<string>, name: string, path: string, now: Time)
    requires Filed(filename, files, names) && files[filename].lines != []
    requires name != filename && path != filename && name !in names
    requires forall k | k in names :: Less(k, path)
    ensures var r := Archived(filename, files, files[filename], name, path, now);
            Filed(filename, r, names + [path]) && Gathered(filename, r) == Gathered(filename, files)
  {
    LessIsStrict(path, path);
    var r := Archived(filename, files, files[filename], name, path, now);
    FiledNames(filename, files, names, name);
    ArchivedKeys(filename, files, files[filename], name, path, now);
    SortedKeysAppend(files.Keys - {filename}, path);
    assert Filed(filename, r, names + [path]);
    GatheredFiled(filename, files, names);
    GatheredFiled(filename, r, names + [path]);
    LinesInSame(files, r, names);
    LinesInLast(r, names, path);
  }

  lemma LinesInLast(files: map<string, File>, names: seq<string>, path: string)
    requires forall k | k in names + [path] :: k in files
    ensures (forall k | k in names :: k in files) && path in files
    ensures LinesIn(files, names + [path]) == LinesIn(files, names) + files[path].lines
  {
    var all := names + [path];
    assert all[..|all| - 1] == names && path in all;
    forall k | k in names ensures k in all {}
  }

  lemma GatheredFiled(filename: string, files: map<string, File>, names: seq<string>)
    requires Filed(filename, files, names)
    ensures forall k | k in names :: k in files
    ensures Gathered(filename, files) == LinesIn(files, names) + files[filename].lines
  {}

  lemma OverwrittenKeys(filename: string, files: map<string, File>, front: seq<string>, name: string, path: string, now: Time)
    requires Filed(filename, files, front + [path]) && files[filename].lines != []
    requires name != filename && path != filename && (name == path || name !in front)
    ensures Filed(filename, Archived(filename, files, files[filename], name, path, now), front + [path])
  {
    var r := Archived(filename, files, files[filename], name, path, now);
    assert path in front + [path];
    FiledNames(filename, files, front + [path], path);
    FiledNames(filename, files, front + [path], name);
    ArchivedKeys(filename, files, files[filename], name, path, now);
    assert r.Keys - {filename} == files.Keys - {filename};
  }

  lemma GatheredParts(filename: string, files: map<string, File>, front: seq<string>, path: string)
    requires Filed(filename, files, front + [path])
    ensures (forall k | k in front + [path] :: k in files)
    ensures forall k | k in front :: k in files
    ensures Gathered(filename, files) == LinesIn(files, front) + files[path].lines + files[filename].lines
  {
    GatheredFiled(filename, files, front + [path]);
    LinesInLast(files, front, path);
  }

  /** An archive under the name of the last one replaces it: its lines are lost. */
  lemma RepeatedArchiveLoses(filename: string, files: map<string, File>, front: seq<string>, name: string, path: string, now: Time)
    requires Filed(filename, files, front + [path]) && files[filename].lines != []
    requires name != filename && path != filename && path !in front && (name == path || name !in front)
    ensures var r := Archived(filename, files, files[filename], name, path, now);
            Filed(filename, r, front + [path]) && |Gathered(filename, r)| < |Gathered(filename, files)|
  {
    var r := Archived(filename, files, files[filename], name, path, now);
    OverwrittenKeys(filename, files, front, name, path, now);
    GatheredParts(filename, files, front, path);
    GatheredParts(filename, r, front, path);
    assert path != filename && path in front + [path] && path in files;
    LinesInSame(files, r, front);
  }

  lemma NamesAppend(p: Policy, d: seq<Time>, t: Time)
    ensures Names(p, d + [t]) == Names(p, d) + [ArchivePath(p, t)]
  {}

  /** What the names of earlier archives have to do with those of one at `t`. */
  predicate Later(filename: string, names: seq<string>, name: string, path: string) {
    && name != filename && path != filename && name !in names && path !in names
    && forall k | k in names :: Less(k, path)
  }

  lemma NamesAreLater(p: Policy, d: seq<Time>, t: Time)
    requires Spaced(d + [t])
    ensures Later(p.filename, Names(p, d), ArchiveName(p.filename, t), ArchivePath(p, t))
  {
    GzIsNotActive(p.filename, t);
    assert ArchiveName(p.filename, t) + "" == ArchiveName(p.filename, t);
    forall k | k in Names(p, d) ensures Less(k, ArchivePath(p, t)) && k != ArchiveName(p.filename, t) && k != ArchivePath(p, t) {
      PathsAscend(p, d, t, k);
      LessIsStrict(k, k);
    }
  }

  lemma NameOfSameSecond(p: Policy, a: Time, b: Time)
    requires SameSecond(a, b)
    ensures ArchivePath(p, a) == ArchivePath(p, b) && ArchiveName(p.filename, a) == ArchiveName(p.filename, b)
  {}

  lemma {:induction false} LedgerTracks(times: seq<Time>)
    ensures var l := LedgerOf(times);
            times != [] ==> l.seconds != [] && SameSecond(l.seconds[|l.seconds| - 1], times[|times| - 1])
    ensures LedgerOf(times).whole ==> LedgerOf(times).seconds == times
  {
    if times != [] { LedgerTracks(times[..|times| - 1]); }
  }

  lemma {:induction false} SpacedIsWhole(times: seq<Time>)
    requires Spaced(times)
    ensures LedgerOf(times).whole
  {
    if times != [] {
      var before := times[..|times| - 1];
      SpacedIsWhole(before);
      LedgerTracks(before);
      assert before != [] ==> EarlierSecond(times[|times| - 2], times[|times| - 1]);
    }
  }

  /** The archives are those of the ledger; nothing is missing, or something is lost for good. */
  ghost predicate Tally(p: Policy, files: map<string, File>, l: Ledger, records: seq<Line>) {
    && Filed(p.filename, files, Names(p, l.seconds)) && Spaced(l.seconds)
    && if l.whole then Gathered(p.filename, files) == records else |Gathered(p.filename, files)| < |records|
  }

  lemma ActiveReplaced(filename: string, files: map<string, File>, names: seq<string>, f: File)
    requires Filed(filename, files, names)
    ensures Filed(filename, files[filename := f], names)
    ensures Gathered(filename, files[filename := f]) == LinesIn(files, names) + f.lines
    ensures Gathered(filename, files) == LinesIn(files, names) + files[filename].lines
  {
    assert files[filename := f].Keys - {filename} == files.Keys - {filename};
    LinesInSame(files, files[filename := f], names);
  }

  lemma AppendTallies(p: Policy, files: map<string, File>, ledger: Ledger, records: seq<Line>, l: Line)
    requires Tally(p, files, ledger, records)
    ensures Tally(p, files[p.filename := File(files[p.filename].lines + [l], l.at)], ledger, records + [l])
  {
    var f := File(files[p.filename].lines + [l], l.at);
    ActiveReplaced(p.filename, files, Names(p, ledger.seconds), f);
    assert Gathered(p.filename, files[p.filename := f]) == Gathered(p.filename, files) + [l];
  }

  lemma SpacedAppend(d: seq<Time>, t: Time)
    requires Spaced(d) && ValidTime(t) && (d == [] || EarlierSecond(d[|d| - 1], t))
    ensures Spaced(d + [t])
  {
    forall i | 0 <= i < |d| ensures EarlierSecond(d[i], t) {
      if i < |d| - 1 { assert EarlierSecond(d[i], d[|d| - 1]); }
    }
  }

  /** The time is not before the last rotation. */
  predicate Past(l: Ledger, t: Time) {
    l.seconds == [] || !EarlierSecond(t, l.seconds[|l.seconds| - 1])
  }

  function ArchivedAt(p: Policy, files: map<string, File>, t: Time): map<string, File>
    requires p.filename in files
  {
    Archived(p.filename, files, files[p.filename], ArchiveName(p.filename, t), ArchivePath(p, t), t)
  }

  lemma FreshRotationTallies(p: Policy, files: map<string, File>, l: Ledger, t: Time, records: seq<Line>)
    requires Tally(p, files, l, records) && files[p.filename].lines != []
    requires ValidTime(t) && Past(l, t) && !Repeats(l, t)
    ensures Tally(p, ArchivedAt(p, files, t), Enter(l, t), records)
  {
    SpacedAppend(l.seconds, t);
    NamesAreLater(p, l.seconds, t);
    NewArchiveConserves(p.filename, files, Names(p, l.seconds), ArchiveName(p.filename, t), ArchivePath(p, t), t);
    NamesAppend(p, l.seconds, t);
  }

  lemma RepeatedRotationTallies(p: Policy, files: map<string, File>, l: Ledger, t: Time, records: seq<Line>)
    requires Tally(p, files, l, records) && files[p.filename].lines != []
    requires Repeats(l, t)
    ensures Tally(p, ArchivedAt(p, files, t), Enter(l, t), records)
  {
    var d := l.seconds;
    var front, last := d[..|d| - 1], d[|d| - 1];
    assert front + [last] == d;
    NamesAreLater(p, front, last);
    NameOfSameSecond(p, last, t);
    NamesAppend(p, front, last);
    RepeatedArchiveLoses(p.filename, files, Names(p, front), ArchiveName(p.filename, t), ArchivePath(p, t), t);
  }

  lemma RotateForever(p: Policy, s: State, t: Time)
    requires p.keep.Forever? && s.handle.Usable? && p.filename in s.files
    ensures Rotate(p, s, t, ALL_WORK) == State(Usable, 0, t, ArchivedAt(p, s.files, t))
  {}

  /** A rotation: the archives are those of one more second, or one is overwritten. */
  lemma RotateTallies(p: Policy, s: State, t: Time, l: Ledger, records: seq<Line>)
    requires p.keep.Forever? && s.handle.Usable? && ValidTime(t) && Past(l, t)
    requires Tally(p, s.files, l, records) && s.files[p.filename].lines != []
    ensures Tally(p, Rotate(p, s, t, ALL_WORK).files, Enter(l, t), records)
  {
    RotateForever(p, s, t);
    if Repeats(l, t) {
      RepeatedRotationTallies(p, s.files, l, t, records);
    } else {
      FreshRotationTallies(p, s.files, l, t, records);
    }
  }

  lemma WriteTallies(p: Policy, s: State, text: string, now: Time, was: Time, l: Ledger, records: seq<Line>)
    requires p.keep.Forever? && Segmented(p, s, was) && ValidTime(now) && Past(l, now)
    requires Tally(p, s.files, l, records) && text != ""
    ensures Tally(p, WriteText(p, s, text, now, ALL_WORK).files,
                  if NeedsRotate(p, s, now, LineBytes(text)) then Enter(l, now) else l, records + [Line(text, now)])
  {
    EmptyIffNoBytes(Active(p, s).lines);
    if NeedsRotate(p, s, now, LineBytes(text)) {
      RotateTallies(p, s, now, l, records);
      RotateKeepsSegmented(p, s, now, was);
      AppendTallies(p, Rotated(p, s, now, ALL_WORK), Enter(l, now), records, Line(text, now));
    } else {
      AppendTallies(p, s.files, l, records, Line(text, now));
    }
  }

  lemma ScheduledTallies(p: Policy, s: State, now: Time, was: Time, l: Ledger, records: seq<Line>)
    requires p.keep.Forever? && Segmented(p, s, was) && ValidTime(now) && Past(l, now)
    requires Tally(p, s.files, l, records)
    ensures Tally(p, RotateIfDue(p, s, now, ALL_WORK).files, if NeedsRotate(p, s, now, 0) then Enter(l, now) else l, records)
  {
    EmptyIffNoBytes(Active(p, s).lines);
    if NeedsRotate(p, s, now, 0) { RotateTallies(p, s, now, l, records); }
  }

  lemma OpenTallies(p: Policy, s: State, now: Time, was: Time, l: Ledger, records: seq<Line>)
    requires Segmented(p, s, was) && Tally(p, s.files, l, records)
    ensures Tally(p, Open(p, s.files, now).files, l, records)
  {
    EmptyIffNoBytes(Active(p, s).lines);
    ActiveReplaced(p.filename, s.files, Names(p, l.seconds), File([], now));
  }

  lemma StepTallies(p: Policy, s: State, e: Event, was: Time, l: Ledger, records: seq<Line>)
    requires p.keep.Forever? && Segmented(p, s, was) && ValidTime(e.now) && Past(l, e.now)
    requires Tally(p, s.files, l, records)
    ensures Tally(p, Step(p, s, e).files, if Rotates(p, s, e) then Enter(l, e.now) else l, records + Record(e))
  {
    assert records + [] == records;
    match e
    case WriteLine(raw, now) =>
      if Sanitized(raw) != "" { WriteTallies(p, s, Sanitized(raw), now, was, l, records); }
    case Scheduled(now) => ScheduledTallies(p, s, now, was, l, records);
    case Restart(now) => OpenTallies(p, s, now, was, l, records);
  }

  lemma LedgerAppend(times: seq<Time>, t: Time)
    ensures LedgerOf(times + [t]) == Enter(LedgerOf(times), t)
  {
    assert (times + [t])[..|times|] == times;
  }

  function RunLedger(p: Policy, start: Time, events: seq<Event>): Ledger {
    LedgerOf(Rotations(p, start, events))
  }

  lemma RunLedgerStep(p: Policy, start: Time, events: seq<Event>)
    requires events != []
    ensures var before, e := events[..|events| - 1], events[|events| - 1];
            RunLedger(p, start, events) ==
            if Rotates(p, Run(p, start, before), e) then Enter(RunLedger(p, start, before), e.now) else RunLedger(p, start, before)
  {
    var times := Rotations(p, start, events[..|events| - 1]);
    assert times + [] == times;
    LedgerAppend(times, Now(start, events));
  }

  lemma {:induction false} LedgerIsPast(p: Policy, start: Time, events: seq<Event>, t: Time)
    requires Monotone(start, events) && NoLater(Now(start, events), t)
    ensures Past(RunLedger(p, start, events), t)
  {
    if events != [] {
      RunLedgerStep(p, start, events);
      NoLaterIsTransitive(Now(start, events[..|events| - 1]), Now(start, events), t);
      LedgerIsPast(p, start, events[..|events| - 1], t);
    }
  }

  lemma {:induction false} RunTallies(p: Policy, start: Time, events: seq<Event>)
    requires p.keep.Forever? && Monotone(start, events)
    ensures Tally(p, Run(p, start, events).files, RunLedger(p, start, events), Records(events))
  {
    if events == [] {
      var files := map[p.filename := File([], start)];
      assert files.Keys - {p.filename} == {};
      assert Names(p, []) == [];
    } else {
      var before, e := events[..|events| - 1], events[|events| - 1];
      RunTallies(p, start, before);
      RunIsSegmented(p, start, before);
      LedgerIsPast(p, start, before, e.now);
      RunLedgerStep(p, start, events);
      StepTallies(p, Run(p, start, before), e, Now(start, before), RunLedger(p, start, before), Records(before));
    }
  }

  /** With retention off and the clock never turned back, the archives in the order of
      their names followed by the active file are exactly the records of the run, in the
      order written, if and only if no two rotations fall in the same second. */
  lemma RunConservesIffSpaced(p: Policy, start: Time, events: seq<Event>)
    requires p.keep.Forever? && Monotone(start, events)
    ensures Gathered(p.filename, Run(p, start, events).files) == Records(events) <==> Spaced(Rotations(p, start, events))
  {
    RunTallies(p, start, events);
    var times := Rotations(p, start, events);
    LedgerTracks(times);
    if Spaced(times) { SpacedIsWhole(times); }
  }

  lemma {:induction false} RecordsAreClean(events: seq<Event>)
    ensures CleanLines(Records(events))
  {
    if events != [] {
      RecordsAreClean(events[..|events| - 1]);
      var e := events[|events| - 1];
      if e.WriteLine? { SanitizedHolds(e.raw, '\n'); }
    }
  }

  /** Read back as text and split at newlines, the files of such a run give the records one by one. */
  lemma RunReadsBack(p: Policy, start: Time, events: seq<Event>)
    requires p.keep.Forever? && Monotone(start, events) && Spaced(Rotations(p, start, events))
    ensures Split(FileText(Gathered(p.filename, Run(p, start, events).files)), '\n') == Texts(Records(events)) + [""]
  {
    RunConservesIffSpaced(p, start, events);
    RecordsAreClean(events);
    OneRecordPerLine(Records(events));
  }

  // --- Failures ---

  /** After a rotation the writer has a usable handle exactly when it had one and both
      the close and the reopen worked; a failed rename alone does not stop logging. */
  lemma UsableAfterRotationIff(p: Policy, s: State, now: Time, o: Outcome)
    ensures Rotate(p, s, now, o).handle.Usable? <==> s.handle.Usable? && o.closes && o.reopens
  {}

  /** Whatever fails, a rotation under a new name loses no line of the active file or of
      another file, as long as nothing is pruned. */
  lemma RotationFailureKeepsLines(p: Policy, s: State, now: Time, o: Outcome, name: string, path: string)
    requires p.keep.Forever? && p.filename in s.files && name == ArchiveName(p.filename, now) && path == ArchivePath(p, now)
    requires name !in s.files && path !in s.files
    ensures var r := Rotate(p, s, now, o).files;
            && (exists k :: k in {p.filename, name, path} && k in r && r[k].lines == s.files[p.filename].lines)
            && (forall k | k in s.files && k != p.filename :: k in r && r[k] == s.files[k])
  {
    GzIsNotActive(p.filename, now);
    var r := Rotate(p, s, now, o).files;
    if s.handle.Usable? && o.closes && o.renames {
      if o.reopens && !(p.compress && !o.compresses) {
        assert path in r && r[path].lines == s.files[p.filename].lines;
      } else {
        assert name in r && r[name].lines == s.files[p.filename].lines;
      }
    } else {
      assert p.filename in r && r[p.filename].lines == s.files[p.filename].lines;
    }
  }

  /** The line is somewhere in the directory. */
  predicate OnDisk(files: map<string, File>, l: Line) {
    exists k | k in files :: l in files[k].lines
  }

  lemma RotateAddsNoLine(p: Policy, s: State, now: Time, o: Outcome, l: Line)
    requires OnDisk(Rotate(p, s, now, o).files, l)
    ensures OnDisk(s.files, l)
  {
    var name, path := ArchiveName(p.filename, now), ArchivePath(p, now);
    PruneIsSubmap(p, Archived(p.filename, s.files, Active(p, s), name, path, now), now, o);
    var r := Rotate(p, s, now, o).files;
    var k :| k in r && l in r[k].lines;
    if k !in s.files || r[k] != s.files[k] { assert l in Active(p, s).lines; }
  }

  /** Whatever fails, a new line is on disk after its write exactly when the writer is then usable
      and the write itself worked. */
  lemma WrittenIffWorks(p: Policy, s: State, text: string, now: Time, o: Outcome)
    requires text != "" && !OnDisk(s.files, Line(text, now))
    ensures var r := WriteText(p, s, text, now, o); OnDisk(r.files, Line(text, now)) <==> r.handle.Usable? && o.writes
  {
    var l := Line(text, now);
    var rotated := if NeedsRotate(p, s, now, LineBytes(text)) then Rotate(p, s, now, o) else s;
    if OnDisk(rotated.files, l) && NeedsRotate(p, s, now, LineBytes(text)) { RotateAddsNoLine(p, s, now, o, l); }
    if !s.handle.NoFile? && rotated.handle.Usable? && o.writes {
      var r := WriteText(p, s, text, now, o);
      assert p.filename in r.files && r.files[p.filename].lines[|Active(p, rotated).lines|] == l;
    }
  }

  /** While the writer is usable, its size is that of the active file. */
  predicate SizeIsExact(p: Policy, s: State) {
    s.handle.Usable? ==> p.filename in s.files && s.size == FileBytes(s.files[p.filename].lines)
  }

  lemma StepKeepsSizeExact(p: Policy, s: State, e: Event, o: Outcome)
    requires SizeIsExact(p, s)
    ensures SizeIsExact(p, StepWith(p, s, e, o))
  {
    RotateKeepsSizeExact(p, s, e.now, o);
    if p.filename in s.files { PruneLeavesActive(p, s.files, e.now, o); }
    match e
    case WriteLine(raw, now) =>
      var text := Sanitized(raw);
      var r := if NeedsRotate(p, s, now, LineBytes(text)) then Rotate(p, s, now, o) else s;
      FileBytesAppend(Active(p, r).lines, Line(text, now));
    case _ =>
  }

  lemma PruneLeavesActive(p: Policy, files: map<string, File>, now: Time, o: Outcome)
    requires p.filename in files
    ensures p.filename in Prune(p, files, now, o) && Prune(p, files, now, o)[p.filename] == files[p.filename]
  {
    PruneIsSubmap(p, files, now, o);
  }

  lemma RotateKeepsSizeExact(p: Policy, s: State, now: Time, o: Outcome)
    requires SizeIsExact(p, s)
    ensures SizeIsExact(p, Rotate(p, s, now, o))
  {
    RotatedHasFreshActive(p, s, now, o);
  }

  /** Over every run, whatever fails, the size that decides about rotation is the size of the active file. */
  lemma {:induction false} RunSizeIsExact(p: Policy, s: State, events: seq<(Event, Outcome)>)
    requires SizeIsExact(p, s)
    ensures SizeIsExact(p, RunWith(p, s, events))
  {
    if events != [] {
      RunSizeIsExact(p, s, events[..|events| - 1]);
      StepKeepsSizeExact(p, RunWith(p, s, events[..|events| - 1]), events[|events| - 1].0, events[|events| - 1].1);
    }
  }

  function StepWith(p: Policy, s: State, e: Event, o: Outcome): State {
    match e
    case WriteLine(raw, now) => Write(p, s, raw, now, o)
    case Scheduled(now) => RotateIfDue(p, s, now, o)
    case Restart(now) => Open(p, s.files, now)
  }

  function RunWith(p: Policy, s: State, events: seq<(Event, Outcome)>): State {
    if events == [] then s
    else StepWith(p, RunWith(p, s, events[..|events| - 1]), events[|events| - 1].0, events[|events| - 1].1)
  }

  /** Event `j` makes the writer rotate, the close or the reopen fails, and no restart follows. */
  predicate BreaksWriter(p: Policy, s: State, events: seq<(Event, Outcome)>, j: nat) {
    && j < |events| && Rotates(p, RunWith(p, s, events[..j]), events[j].0)
    && !(events[j].1.closes && events[j].1.reopens)
    && forall i | j < i < |events| :: !events[i].0.Restart?
  }

  lemma StepKeepsHandle(p: Policy, s: State, e: Event, o: Outcome)
    ensures StepWith(p, s, e, o).handle.Usable? <==>
            e.Restart? || (s.handle.Usable? && (Rotates(p, s, e) ==> o.closes && o.reopens))
  {
    UsableAfterRotationIff(p, s, e.now, o);
  }

  /** Whatever else fails, a writer that starts usable is usable after a run exactly when every
      rotation since the last restart could close the old file and open the new one. */
  lemma {:induction false} UsableIffRotationsWorked(p: Policy, s: State, events: seq<(Event, Outcome)>)
    requires s.handle.Usable?
    ensures RunWith(p, s, events).handle.Usable? <==> forall j: nat :: !BreaksWriter(p, s, events, j)
  {
    if events != [] {
      var before, last := events[..|events| - 1], events[|events| - 1];
      assert events == before + [last];
      UsableIffRotationsWorked(p, s, before);
      StepKeepsHandle(p, RunWith(p, s, before), last.0, last.1);
      BrokenLast(p, s, before, last);
      if forall j: nat :: !BreaksWriter(p, s, events, j) {
        assert !BreaksWriter(p, s, events, |before|);
        forall j: nat ensures !BreaksWriter(p, s, before, j) || last.0.Restart? {
          BrokenEarlier(p, s, before, last, j);
        }
      } else {
        var j: nat :| BreaksWriter(p, s, events, j);
        if j < |before| { BrokenEarlier(p, s, before, last, j); }
      }
    }
  }

  lemma BrokenLast(p: Policy, s: State, before: seq<(Event, Outcome)>, last: (Event, Outcome))
    ensures BreaksWriter(p, s, before + [last], |before|) <==>
            Rotates(p, RunWith(p, s, before), last.0) && !(last.1.closes && last.1.reopens)
  {
    assert (before + [last])[..|before|] == before;
  }

  lemma BrokenEarlier(p: Policy, s: State, before: seq<(Event, Outcome)>, last: (Event, Outcome), j: nat)
    ensures j < |before| ==> (BreaksWriter(p, s, before + [last], j) <==> BreaksWriter(p, s, before, j) && !last.0.Restart?)
  {
    var events := before + [last];
    if j < |before| {
      assert events[..j] == before[..j] && events[j] == before[j] && events[|before|] == last;
      assert forall i | 0 <= i < |before| :: events[i] == before[i];
    }
  }

  /** One failed close, and until the writer is reopened every line is dropped, whatever works again later. */
  lemma {:induction false} FailedCloseSilencesWriter(p: Policy, s: State, events: seq<(Event, Outcome)>)
    requires s.handle.Stale? && forall i | 0 <= i < |events| :: !events[i].0.Restart?
    ensures RunWith(p, s, events).handle.Stale?
    ensures Active(p, RunWith(p, s, events)).lines == Active(p, s).lines
  {
    if events != [] {
      var before, e, o := events[..|events| - 1], events[|events| - 1].0, events[|events| - 1].1;
      FailedCloseSilencesWriter(p, s, before);
      StaleStep(p, RunWith(p, s, before), e, o);
    }
  }

  lemma StaleStep(p: Policy, s: State, e: Event, o: Outcome)
    requires s.handle.Stale? && !e.Restart?
    ensures StepWith(p, s, e, o).handle.Stale? && Active(p, StepWith(p, s, e, o)).lines == Active(p, s).lines
  {
    if e.Scheduled? && !NeedsRotate(p, s, e.now, 0) {
      PruneIsSubmap(p, s.files, e.now, o);
      if p.filename !in s.files { assert p.filename !in Prune(p, s.files, e.now, o); }
    }
  }

  /** The loops of `pruneLocked` over the archives, newest first. */
  method RemoveDoomed(p: Policy, listing: map<string, File>, now: Time, names: seq<string>, stuck: set<string>)
    returns (files: map<string, File>)
    ensures files == listing - Prunable(p, listing, now, stuck, names)
  {
    files := listing;
    var i := 0;
    while i < |names|
      invariant 0 <= i <= |names|
      invariant files == listing - Removed(p, listing, now, stuck, names, i)
    {
      if IsDoomed(p, listing, now, names[i], i) && names[i] !in stuck { files := files - {names[i]}; }
      i := i + 1;
    }
  }

  // --- The writer as the object the source updates in place ---

  class Writer {
    var p: Policy
    var handle: Handle
    var size: nat
    var since: Time
    var files: map<string, File>

    function Value(): State
      reads this
    {
      State(handle, size, since, files)
    }

    /** `openWriter`. */
    constructor (policy: Policy, dir: map<string, File>, now: Time)
      ensures p == policy && Value() == Open(policy, dir, now)
    {
      p, handle := policy, Usable;
      files := if policy.filename in dir && FileBytes(dir[policy.filename].lines) > 0 then dir else dir[policy.filename := File([], now)];
      size := if policy.filename in dir then FileBytes(dir[policy.filename].lines) else 0;
      since := now;
      new;
      if size > 0 { since := files[p.filename].mtime; }
    }

    /** `pruneLocked`. */
    method PruneLocked(now: Time, o: Outcome)
      modifies `files
      ensures files == Prune(p, old(files), now, o)
    {
      if p.keep.Forever? || !o.lists { return; }
      files := RemoveDoomed(p, files, now, Archives(p, files), o.stuck);
    }

    /** `rotateLocked`. */
    method RotateLocked(now: Time, o: Outcome)
      modifies this
      ensures p == old(p) && Value() == Rotate(p, old(Value()), now, o)
    {
      if handle.NoFile? { return; }
      if handle.Stale? || !o.closes { handle := Stale; return; }
      handle := NoFile;
      var name := ArchiveName(p.filename, now);
      var active := if p.filename in files then files[p.filename] else File([], since);
      if !o.renames {
        if o.reopens {
          handle, size, since, files := Usable, FileBytes(active.lines), now, files[p.filename := active];
        }
        return;
      }
      files := files[name := active] - {p.filename};
      if !o.reopens { return; }
      handle, size, since, files := Usable, 0, now, files[p.filename := File([], now)];
      if p.compress {
        if !o.compresses {
          ArchivedStepwise(p.filename, old(files), active, name, name, now);
          return;
        }
        files := (files - {name})[name + ".gz" := File(active.lines, now)];
      }
      GzIsNotActive(p.filename, now);
      ArchivedStepwise(p.filename, old(files), active, name, ArchivePath(p, now), now);
      PruneLocked(now, o);
    }

    /** `write`. */
    method WriteLine(line: string, now: Time, o: Outcome)
      modifies this
      ensures p == old(p) && Value() == Write(p, old(Value()), line, now, o)
    {
      var text := SanitizeLine(line);
      if text == "" || handle.NoFile? { return; }
      var n := LineBytes(text);
      if NeedsRotate(p, Value(), now, n) { RotateLocked(now, o); }
      if !handle.Usable? || !o.writes { return; }
      var active := if p.filename in files then files[p.filename] else File([], since);
      files := files[p.filename := File(active.lines + [Line(text, now)], now)];
      size := size + n;
    }

    /** `rotateIfDue`. */
    method CheckRotation(now: Time, o: Outcome)
      modifies this
      ensures p == old(p) && Value() == RotateIfDue(p, old(Value()), now, o)
    {
      if handle.NoFile? { return; }
      if NeedsRotate(p, Value(), now, 0) { RotateLocked(now, o); } else { PruneLocked(now, o); }
    }
  }

  /** Rename, reopen and gzip in the order of the source give `Archived`. */
  lemma ArchivedStepwise(filename: string, files: map<string, File>, active: File, name: string, path: string, now: Time)
    requires name != filename && path != filename
    ensures var live := (files[name := active] - {filename})[filename := File([], now)];
            Archived(filename, files, active, name, path, now) ==
            if path == name then live else (live - {name})[path := File(active.lines, now)]
  {}
}
