/** What `extractBackupArchiveWithLimits` in `src/backup_crypto.go` accepts, and what it refuses. */
module Extraction {
  import opened Options
  import opened FileTree
  import opened Backup
  import opened BackupLayout

  // --- Names that lead out of the destination ---

  predicate IsAbsolute(name: Path) {
    name != [] && name[0] == ""
  }

  /** What a segment does to the level of a relative path. */
  function Segment(s: string): int {
    if s == "" || s == "." then 0 else if s == ".." then -1 else 1
  }

  /** The level a relative path ends at: its real segments less its "..". */
  function Level(name: Path): int {
    if name == [] then 0 else Segment(name[0]) + Level(name[1..])
  }

  /** Some prefix of the path has more ".." than real segments above it, `start` segments deep. */
  ghost predicate DropsBelow(name: Path, start: nat) {
    exists i :: 0 <= i <= |name| && start + Level(name[..i]) < 0
  }

  lemma DropsLater(name: Path, start: nat)
    requires name != [] && start + Segment(name[0]) >= 0
    ensures DropsBelow(name, start) <==> DropsBelow(name[1..], start + Segment(name[0]))
  {
    var rest, next := name[1..], start + Segment(name[0]);
    if DropsBelow(name, start) {
      var i :| 0 <= i <= |name| && start + Level(name[..i]) < 0;
      assert i > 0 && name[..i][1..] == rest[..i - 1];
      assert next + Level(rest[..i - 1]) < 0;
    }
    if DropsBelow(rest, next) {
      var i :| 0 <= i <= |rest| && next + Level(rest[..i]) < 0;
      assert name[..i + 1][1..] == rest[..i];
      assert start + Level(name[..i + 1]) < 0;
    }
  }

  lemma DropsAtOnce(name: Path)
    requires name != [] && name[0] == ".."
    ensures DropsBelow(name, 0)
  {
    assert name[..1] == [".."] && [".."][1..] == [];
    assert 0 + Level(name[..1]) < 0;
  }

  lemma {:induction false} CleanStaysOutside(name: Path, done: Path)
    requires done != [] && done[0] == ".."
    ensures Clean(name, done) != [] && Clean(name, done)[0] == ".."
    decreases |name|
  {
    if name != [] {
      if name[0] == "" || name[0] == "." {
        CleanStaysOutside(name[1..], done);
      } else if name[0] == ".." && done[|done| - 1] != ".." {
        CleanStaysOutside(name[1..], done[..|done| - 1]);
      } else {
        CleanStaysOutside(name[1..], done + [name[0]]);
      }
    }
  }

  predicate AllReal(name: Path) {
    forall s | s in name :: IsFileName(s)
  }

  /** Cleaning a path below `done` leads out exactly when the path drops below it; otherwise only
      real segments are left. */
  lemma {:induction false} CleanLeadsOutIff(name: Path, done: Path)
    requires AllReal(done)
    ensures var c := Clean(name, done);
            && (c != [] && c[0] == ".." <==> DropsBelow(name, |done|))
            && (!DropsBelow(name, |done|) ==> AllReal(c))
    decreases |name|
  {
    if name == [] {
      if done != [] { assert done[0] in done; }
    } else if name[0] == "" || name[0] == "." {
      DropsLater(name, |done|);
      CleanLeadsOutIff(name[1..], done);
    } else if name[0] == ".." && done == [] {
      CleanStaysOutside(name[1..], done + [".."]);
      DropsAtOnce(name);
    } else if name[0] == ".." {
      assert done[|done| - 1] in done;
      DropsLater(name, |done|);
      CleanLeadsOutIff(name[1..], done[..|done| - 1]);
    } else {
      DropsLater(name, |done|);
      CleanLeadsOutIff(name[1..], done + [name[0]]);
    }
  }

  /** An entry is refused for its name exactly when the name is absolute, or some prefix of it has
      more ".." than real segments. */
  lemma EscapesIff(name: Path)
    ensures Escapes(name) <==> IsAbsolute(name) || DropsBelow(name, 0)
    ensures !Escapes(name) ==> AllReal(Clean(name, []))
  {
    CleanLeadsOutIff(name, []);
  }

  // --- Limits ---

  function FileCount(entries: seq<Entry>): nat {
    if entries == [] then 0 else (if entries[0].FileEntry? then 1 else 0) + FileCount(entries[1..])
  }

  /** The archive stays within the limits, counted from `p` on. */
  predicate WithinLimits(entries: seq<Entry>, p: Progress, archiveSize: nat, limits: Limits) {
    && (forall i | 0 <= i < |entries| && entries[i].FileEntry? :: |entries[i].data| <= limits.maxFileSize)
    && p.files + FileCount(entries) <= limits.maxFiles
    && p.expanded + TotalSize(entries) <= limits.maxExpandedSize
    && p.expanded + TotalSize(entries) <= limits.maxRatio * archiveSize
  }

  lemma RatioIff(expanded: nat, archiveSize: nat, ratio: nat)
    requires archiveSize > 0
    ensures expanded as real / archiveSize as real <= ratio as real <==> expanded <= ratio * archiveSize
  {
    var a, e, r := archiveSize as real, expanded as real, ratio as real;
    assert r * a == (ratio * archiveSize) as real;
    assert e == e / a * a;
    if e / a <= r { assert e / a * a <= r * a; }
    if expanded <= ratio * archiveSize { RatioWithin(expanded, archiveSize, ratio); }
  }

  lemma CountIff(p: Progress, e: Entry, archiveSize: nat, limits: Limits)
    requires archiveSize > 0 && WithinLimits([], p, archiveSize, limits)
    ensures var q := Progress(if e.FileEntry? then p.files + 1 else p.files, p.expanded + Size(e));
            Count(p, e, archiveSize, limits) ==
            if Size(e) <= limits.maxFileSize && WithinLimits([], q, archiveSize, limits) then Some(q) else None
  {
    RatioIff(p.expanded + Size(e), archiveSize, limits.maxRatio);
  }

  lemma LimitsStep(entries: seq<Entry>, p: Progress, archiveSize: nat, limits: Limits)
    requires entries != []
    ensures var e := entries[0];
            var q := Progress(if e.FileEntry? then p.files + 1 else p.files, p.expanded + Size(e));
            WithinLimits(entries, p, archiveSize, limits) <==>
            Size(e) <= limits.maxFileSize && WithinLimits([], q, archiveSize, limits) && WithinLimits(entries[1..], q, archiveSize, limits)
  {
    var rest := entries[1..];
    assert forall i | 0 <= i < |entries| && i > 0 :: entries[i] == rest[i - 1];
    assert forall i | 0 <= i < |rest| :: rest[i] == entries[i + 1];
  }

  // --- What is extracted ---

  /** No entry's name is absolute or leads out. */
  ghost predicate NoneLeadsOut(entries: seq<Entry>) {
    forall i | 0 <= i < |entries| :: !IsAbsolute(entries[i].name) && !DropsBelow(entries[i].name, 0)
  }

  /** The directories and files to be written, under their cleaned names. */
  function Cleaned(entries: seq<Entry>): (r: seq<Entry>)
    ensures Plain(r)
  {
    if entries == [] then []
    else
      var e, rest := entries[0], Cleaned(entries[1..]);
      match e
      case DirEntry(name) => [DirEntry(Clean(name, []))] + rest
      case FileEntry(name, data) => [FileEntry(Clean(name, []), data)] + rest
      case OtherEntry(_) => rest
  }

  lemma {:induction false} PutIgnoresName(slot: Option<Node>, path: Path, e: Entry, f: Entry)
    requires !e.OtherEntry? && !f.OtherEntry? && e.DirEntry? == f.DirEntry? && (e.FileEntry? ==> e.data == f.data)
    ensures Put(slot, path, e) == Put(slot, path, f)
    decreases |path|
  {
    if path != [] && (slot.None? || slot.value.Dir?) { PutIgnoresName(Child(Children(slot), path[0]), path[1..], e, f); }
  }

  lemma CleanedStep(entries: seq<Entry>, slot: Option<Node>)
    requires entries != []
    ensures var e, rest := entries[0], Cleaned(entries[1..]);
            if e.OtherEntry? then PutAll(slot, Cleaned(entries)) == PutAll(slot, rest)
            else
              var next := Put(slot, Clean(e.name, []), e);
              PutAll(slot, Cleaned(entries)) == if next.None? then None else PutAll(next, rest)
  {
    var e, all := entries[0], Cleaned(entries);
    if !e.OtherEntry? {
      PutIgnoresName(slot, Clean(e.name, []), e, all[0]);
      assert all[1..] == Cleaned(entries[1..]);
    }
  }

  /** Extraction succeeds exactly when no name is absolute or leads out, the archive stays within
      every limit, and no entry gets in another's way; then it has written every directory and
      file under its cleaned name. */
  lemma {:induction false} ExtractsExactly(entries: seq<Entry>, slot: Option<Node>, p: Progress, archiveSize: nat, limits: Limits)
    requires archiveSize > 0 && WithinLimits([], p, archiveSize, limits)
    ensures ExtractFrom(entries, slot, p, archiveSize, limits) ==
            if NoneLeadsOut(entries) && WithinLimits(entries, p, archiveSize, limits) then PutAll(slot, Cleaned(entries)) else None
    decreases |entries|
  {
    if entries != [] {
      var e, rest := entries[0], entries[1..];
      CountIff(p, e, archiveSize, limits);
      LimitsStep(entries, p, archiveSize, limits);
      EscapesIff(e.name);
      CleanedStep(entries, slot);
      assert NoneLeadsOut(entries) <==> !Escapes(e.name) && NoneLeadsOut(rest) by {
        assert forall i | 0 <= i < |entries| && i > 0 :: entries[i] == rest[i - 1];
        assert forall i | 0 <= i < |rest| :: rest[i] == entries[i + 1];
      }
      var q := Count(p, e, archiveSize, limits);
      if q.Some? && !Escapes(e.name) {
        if e.OtherEntry? {
          ExtractsExactly(rest, slot, q.value, archiveSize, limits);
        } else {
          var next := Put(slot, Clean(e.name, []), e);
          if next.Some? { ExtractsExactly(rest, next, q.value, archiveSize, limits); }
        }
      }
    }
  }

  /** The limits, each on its own, on an archive that was extracted. */
  lemma ExtractedWithinLimits(entries: seq<Entry>, archiveSize: nat, limits: Limits)
    requires archiveSize > 0 && ExtractFrom(entries, Some(EMPTY), Progress(0, 0), archiveSize, limits).Some?
    ensures FileCount(entries) <= limits.maxFiles && TotalSize(entries) <= limits.maxExpandedSize
    ensures TotalSize(entries) as real / archiveSize as real <= limits.maxRatio as real
    ensures forall i | 0 <= i < |entries| && entries[i].FileEntry? :: |entries[i].data| <= limits.maxFileSize
  {
    ExtractsExactly(entries, Some(EMPTY), Progress(0, 0), archiveSize, limits);
    RatioIff(TotalSize(entries), archiveSize, limits.maxRatio);
  }

  // --- Nothing is written outside the destination ---

  ghost predicate GoodSlot(slot: Option<Node>) {
    slot.Some? ==> GoodNames(slot.value)
  }

  lemma {:induction false} PutKeepsGoodNames(slot: Option<Node>, path: Path, e: Entry)
    requires !e.OtherEntry? && GoodSlot(slot) && AllReal(path)
    ensures GoodSlot(Put(slot, path, e))
    decreases |path|
  {
    if path != [] && (slot.None? || slot.value.Dir?) {
      assert path[0] in path;
      PutKeepsGoodNames(Child(Children(slot), path[0]), path[1..], e);
    }
  }

  /** No tree that extraction returns, from whatever entries, holds a name "..", "." or "". */
  lemma {:induction false} ExtractedNamesAreReal(entries: seq<Entry>, slot: Option<Node>, p: Progress, archiveSize: nat, limits: Limits)
    requires archiveSize > 0 && GoodSlot(slot) && ExtractFrom(entries, slot, p, archiveSize, limits).Some?
    ensures GoodSlot(ExtractFrom(entries, slot, p, archiveSize, limits).value)
    decreases |entries|
  {
    if entries != [] {
      var e := entries[0];
      var q := Count(p, e, archiveSize, limits).value;
      EscapesIff(e.name);
      if e.OtherEntry? {
        ExtractedNamesAreReal(entries[1..], slot, q, archiveSize, limits);
      } else {
        PutKeepsGoodNames(slot, Clean(e.name, []), e);
        ExtractedNamesAreReal(entries[1..], Put(slot, Clean(e.name, []), e), q, archiveSize, limits);
      }
    }
  }

  /** A name that climbs out is refused, with whatever limits and whatever else is in the archive. */
  lemma ClimbingNameIsRefused(before: seq<Entry>, data: seq<Byte>, name: string, after: seq<Entry>, archiveSize: nat, limits: Limits)
    requires archiveSize > 0
    ensures ExtractFrom(before + [FileEntry(["..", name], data)] + after, Some(EMPTY), Progress(0, 0), archiveSize, limits) == None
  {
    var entries := before + [FileEntry(["..", name], data)] + after;
    ExtractsExactly(entries, Some(EMPTY), Progress(0, 0), archiveSize, limits);
    DropsAtOnce(["..", name]);
    assert entries[|before|].name == ["..", name];
  }
}
