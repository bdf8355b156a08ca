/** Backup archives (`src/backup_crypto.go`, `verifyBackup` in `src/main.go`):
    two independent walks, one that archives and one that hashes, must agree
    after a round trip through the archive. */
module Backup {
  import opened Options
  import opened Strings
  import opened FileTree

  datatype Layout = Layout(configDir: Path, dataDir: Path, dbDir: Path, includeSSL: bool, includeData: bool)
  {
    function SslDir(): Path { configDir + ["ssl"] }

    function ConfigExcludes(): seq<Path> { if includeSSL then [] else [SslDir()] }

    predicate DbNestedInData() { IsUnder(dbDir, dataDir) }

    function DataExcludes(): seq<Path> { if DbNestedInData() then [dbDir] else [] }

    predicate Named() { configDir != [] && dataDir != [] && dbDir != [] }
  }

  function Base(dir: Path): string
    requires dir != []
  {
    dir[|dir| - 1]
  }

  /** What `os.Stat` and then `filepath.Walk` make of a directory argument. */
  datatype Walkable = Missing | NotADirectory | LinkToDirectory | Tree(root: Node)

  function StatDir(fs: Node, dir: Path): Walkable {
    var n := Lookup(fs, dir);
    if n.None? then Missing
    else match n.value
      case Dir(_) => Tree(n.value)
      case File(_) => NotADirectory
      case Link(Nothing) => Missing
      case Link(ADirectory) => LinkToDirectory
      case Link(AFile(_)) => NotADirectory
  }

  /** `hashBackupDirInto`: the bytes fed to the hash, or None for an error. */
  function HashDir(fs: Node, dir: Path, excludes: seq<Path>): Option<seq<Byte>> {
    match StatDir(fs, dir)
    case Missing => Some([])
    case NotADirectory => None
    case LinkToDirectory => Some([])
    case Tree(n) => Some(WalkBytes(n, dir, excludes))
  }

  function Append<T>(x: Option<seq<T>>, y: Option<seq<T>>): Option<seq<T>> {
    if x.None? || y.None? then None else Some(x.value + y.value)
  }

  /** The bytes `computeBackupContentChecksum` digests, or None for an error. */
  function Content(fs: Node, l: Layout): Option<seq<Byte>> {
    var config := HashDir(fs, l.configDir, l.ConfigExcludes());
    var db := HashDir(fs, l.dbDir, []);
    var data := if l.includeData then HashDir(fs, l.dataDir, l.DataExcludes()) else Some([]);
    Append(Append(config, db), data)
  }

  /** `addBackupDirToTar`. */
  function ArchiveDir(fs: Node, dir: Path, prefix: string, excludes: seq<Path>): Option<seq<Entry>> {
    match StatDir(fs, dir)
    case Missing => Some([])
    case NotADirectory => None
    case LinkToDirectory => Some([])
    case Tree(n) => Some(PrefixAll(prefix, WalkEntries(n, dir, excludes)))
  }

  /** `buildBackupArchive`. */
  function BuildArchive(fs: Node, l: Layout, manifest: seq<Byte>): Option<seq<Entry>>
    requires l.Named()
  {
    var config := ArchiveDir(fs, l.configDir, Base(l.configDir), l.ConfigExcludes());
    var db := ArchiveDir(fs, l.dbDir, "db", []);
    var data := if l.includeData then ArchiveDir(fs, l.dataDir, Base(l.dataDir), l.DataExcludes()) else Some([]);
    Append(Append(Append(Some([FileEntry(["manifest.json"], manifest)]), config), db), data)
  }

  // --- Extraction ---

  datatype Limits = Limits(maxArchiveSize: nat, maxFiles: nat, maxFileSize: nat, maxExpandedSize: nat, maxRatio: nat)

  /** `filepath.Clean` of a relative name, segment by segment. */
  function Clean(name: Path, done: Path): Path {
    if name == [] then done
    else if name[0] == "" || name[0] == "." then Clean(name[1..], done)
    else if name[0] == ".." && done != [] && done[|done| - 1] != ".." then Clean(name[1..], done[..|done| - 1])
    else Clean(name[1..], done + [name[0]])
  }

  /** A name that is absolute, or leads out of the destination once cleaned. */
  predicate Escapes(name: Path) {
    (name != [] && name[0] == "") || (var c := Clean(name, []); c != [] && c[0] == "..")
  }

  function Size(e: Entry): nat {
    if e.FileEntry? then |e.data| else 0
  }

  /** The counters of the extraction loop. */
  datatype Progress = Progress(files: nat, expanded: nat)

  /** The counters after an entry, or None when it exceeds a limit. */
  function Count(p: Progress, e: Entry, archiveSize: nat, limits: Limits): Option<Progress>
    requires archiveSize > 0
  {
    var size, files := Size(e), if e.FileEntry? then p.files + 1 else p.files;
    if size > limits.maxFileSize || files > limits.maxFiles then None
    else if size == 0 then Some(Progress(files, p.expanded))
    else if p.expanded > limits.maxExpandedSize - size then None
    else if (p.expanded + size) as real / archiveSize as real > limits.maxRatio as real then None
    else Some(Progress(files, p.expanded + size))
  }

  /** The loop of `extractBackupArchiveWithLimits` over the remaining entries. */
  function ExtractFrom(entries: seq<Entry>, slot: Option<Node>, p: Progress, archiveSize: nat, limits: Limits): Option<Option<Node>>
    requires archiveSize > 0
    decreases |entries|
  {
    if entries == [] then Some(slot)
    else
      var e := entries[0];
      var q := Count(p, e, archiveSize, limits);
      if q.None? || Escapes(e.name) then None
      else if e.OtherEntry? then ExtractFrom(entries[1..], slot, q.value, archiveSize, limits)
      else
        var next := Put(slot, Clean(e.name, []), e);
        if next.None? then None else ExtractFrom(entries[1..], next, q.value, archiveSize, limits)
  }

  /** `extractBackupArchiveWithLimits` into an empty directory. */
  method ExtractBackupArchive(entries: seq<Entry>, archiveSize: nat, limits: Limits) returns (r: Option<Node>)
    ensures r.Some? <==> 0 < archiveSize <= limits.maxArchiveSize &&
                         ExtractFrom(entries, Some(Dir(map[])), Progress(0, 0), archiveSize, limits).Some?
    ensures r.Some? ==> ExtractFrom(entries, Some(Dir(map[])), Progress(0, 0), archiveSize, limits) == Some(r)
  {
    if archiveSize == 0 || archiveSize > limits.maxArchiveSize { return None; }
    var slot: Option<Node> := Some(Dir(map[]));
    var p := Progress(0, 0);
    ghost var goal := ExtractFrom(entries, slot, p, archiveSize, limits);
    var i := 0;
    while i < |entries|
      invariant 0 <= i <= |entries| && slot.Some?
      invariant ExtractFrom(entries[i..], slot, p, archiveSize, limits) == goal
    {
      var e := entries[i];
      assert entries[i..][0] == e && entries[i..][1..] == entries[i + 1..];
      var q := Count(p, e, archiveSize, limits);
      if q.None? { return None; }
      p := q.value;
      if Escapes(e.name) { return None; }
      if !e.OtherEntry? {
        var next := Put(slot, Clean(e.name, []), e);
        if next.None? { return None; }
        slot := next;
      }
      i := i + 1;
    }
    assert entries[i..] == [];
    r := slot;
  }

  /** A name the file system itself can hold. */
  predicate IsFileName(s: string) {
    s != "" && s != "." && s != ".."
  }

  ghost predicate GoodNames(n: Node) {
    n.Dir? ==> forall k | k in n.children :: IsFileName(k) && GoodNames(n.children[k])
  }

  predicate CleanNames(entries: seq<Entry>) {
    forall i | 0 <= i < |entries| :: forall s | s in entries[i].name :: IsFileName(s)
  }

  lemma CleanKeepsPlainNames(name: Path, done: Path)
    requires forall s | s in name :: IsFileName(s)
    ensures Clean(name, done) == done + name
  {
    if name != [] {
      assert name[0] in name;
      CleanKeepsPlainNames(name[1..], done + [name[0]]);
      assert done + [name[0]] + name[1..] == done + name;
    }
  }

  /** When extraction of plain entries succeeds, it has written every one of them. */
  lemma {:induction false} ExtractionWritesAll(entries: seq<Entry>, slot: Option<Node>, p: Progress, archiveSize: nat, limits: Limits)
    requires archiveSize > 0 && Plain(entries) && CleanNames(entries)
    requires ExtractFrom(entries, slot, p, archiveSize, limits).Some?
    ensures ExtractFrom(entries, slot, p, archiveSize, limits) == PutAll(slot, entries)
    decreases |entries|
  {
    if entries != [] {
      var e := entries[0];
      CleanKeepsPlainNames(e.name, []);
      assert [] + e.name == e.name;
      var q := Count(p, e, archiveSize, limits).value;
      ExtractionWritesAll(entries[1..], Put(slot, e.name, e), q, archiveSize, limits);
    }
  }

  // --- The archive's names are clean ---

  lemma {:induction false} WalkNamesAreClean(n: Node, path: Path, excludes: seq<Path>)
    requires GoodNames(n)
    ensures CleanNames(WalkEntries(n, path, excludes))
    decreases n
  {
    if !IsExcluded(path, excludes) && n.Dir? {
      var parts := EntryParts(n, path, excludes);
      var ks := SortedKeys(n.children.Keys);
      forall i | 0 <= i < |parts| ensures CleanNames(parts[i]) {
        assert ks[i] in ks;
        WalkNamesAreClean(n.children[ks[i]], path + [ks[i]], excludes);
        PrefixKeepsClean(ks[i], WalkEntries(n.children[ks[i]], path + [ks[i]], excludes));
      }
      CleanFlatten(parts);
      CleanAppend([DirEntry([])], Flatten(parts));
    }
  }

  lemma PrefixKeepsClean(k: string, entries: seq<Entry>)
    requires IsFileName(k) && CleanNames(entries)
    ensures CleanNames(PrefixAll(k, entries))
  {
    var r := PrefixAll(k, entries);
    forall i, s | 0 <= i < |r| && s in r[i].name ensures IsFileName(s) {
      assert r[i].name == [k] + entries[i].name;
    }
  }

  lemma CleanAppend(xs: seq<Entry>, ys: seq<Entry>)
    requires CleanNames(xs) && CleanNames(ys)
    ensures CleanNames(xs + ys)
  {
    var r := xs + ys;
    forall i | 0 <= i < |r| ensures forall s | s in r[i].name :: IsFileName(s) {
      if i < |xs| { assert r[i] == xs[i]; } else { assert r[i] == ys[i - |xs|]; }
    }
  }

  lemma CleanFlatten(parts: seq<seq<Entry>>)
    requires forall i | 0 <= i < |parts| :: CleanNames(parts[i])
    ensures CleanNames(Flatten(parts))
  {
    if parts != [] {
      CleanFlatten(parts[1..]);
      CleanAppend(parts[0], Flatten(parts[1..]));
    }
  }

  lemma GoodNamesBelow(fs: Node, dir: Path)
    requires GoodNames(fs)
    ensures Lookup(fs, dir).Some? ==> GoodNames(Lookup(fs, dir).value)
  {
    if dir != [] && fs.Dir? && dir[0] in fs.children { GoodNamesBelow(fs.children[dir[0]], dir[1..]); }
  }

  // --- The round trip ---

  /** What remains of a directory argument in the archive. */
  function KeptDir(fs: Node, dir: Path, excludes: seq<Path>): Option<Node> {
    var w := StatDir(fs, dir);
    if w.Tree? then Kept(w.root, dir, excludes) else None
  }

  function With(children: map<string, Node>, name: string, n: Option<Node>): map<string, Node> {
    if n.Some? then children[name := n.value] else children
  }

  /** Writing one archived directory back below a name not yet taken. */
  lemma DirRoundTrip(fs: Node, dir: Path, prefix: string, excludes: seq<Path>, children: map<string, Node>)
    requires ArchiveDir(fs, dir, prefix, excludes).Some? && prefix !in children
    ensures var entries := ArchiveDir(fs, dir, prefix, excludes).value;
            Plain(entries) &&
            PutAll(Some(Dir(children)), entries) == Some(Some(Dir(With(children, prefix, KeptDir(fs, dir, excludes)))))
  {
    var w := StatDir(fs, dir);
    if w.Tree? {
      WalkRebuilds(w.root, dir, excludes);
      PutAllUnderOneName(children, prefix, WalkEntries(w.root, dir, excludes));
    }
  }

  lemma ArchivedDirIsClean(fs: Node, dir: Path, prefix: string, excludes: seq<Path>)
    requires GoodNames(fs) && IsFileName(prefix) && ArchiveDir(fs, dir, prefix, excludes).Some?
    ensures CleanNames(ArchiveDir(fs, dir, prefix, excludes).value)
  {
    var w := StatDir(fs, dir);
    if w.Tree? {
      GoodNamesBelow(fs, dir);
      WalkNamesAreClean(w.root, dir, excludes);
      PrefixKeepsClean(prefix, WalkEntries(w.root, dir, excludes));
    }
  }

  /** The directories of a layout can be told apart inside the archive. */
  predicate DistinctNames(l: Layout)
    requires l.Named()
  {
    && Base(l.configDir) != "db" && Base(l.configDir) != "manifest.json"
    && (l.includeData ==>
          Base(l.dataDir) != "db" && Base(l.dataDir) != "manifest.json" && Base(l.dataDir) != Base(l.configDir))
  }

  /** The tree a successful extraction of a built archive leaves behind. */
  function Restored(fs: Node, l: Layout, manifest: seq<Byte>): Node
    requires l.Named()
  {
    var base: map<string, Node> := map["manifest.json" := File(manifest)];
    var config := With(base, Base(l.configDir), KeptDir(fs, l.configDir, l.ConfigExcludes()));
    var db := With(config, "db", KeptDir(fs, l.dbDir, []));
    Dir(if l.includeData then With(db, Base(l.dataDir), KeptDir(fs, l.dataDir, l.DataExcludes())) else db)
  }

  lemma ArchiveRoundTrip(fs: Node, l: Layout, manifest: seq<Byte>)
    requires l.Named() && DistinctNames(l) && BuildArchive(fs, l, manifest).Some?
    ensures var entries := BuildArchive(fs, l, manifest).value;
            Plain(entries) && PutAll(Some(Dir(map[])), entries) == Some(Some(Restored(fs, l, manifest)))
  {
    var start: map<string, Node> := map[];
    var first := [FileEntry(["manifest.json"], manifest)];
    var base: map<string, Node> := map["manifest.json" := File(manifest)];
    assert first[1..] == [] && ["manifest.json"][1..] == [];
    assert start["manifest.json" := File(manifest)] == base;
    assert PutAll(Some(Dir(start)), first) == Some(Some(Dir(base)));
    var config := ArchiveDir(fs, l.configDir, Base(l.configDir), l.ConfigExcludes()).value;
    DirRoundTrip(fs, l.configDir, Base(l.configDir), l.ConfigExcludes(), base);
    PutAllConcat(Some(Dir(start)), first, config);
    var withConfig := With(base, Base(l.configDir), KeptDir(fs, l.configDir, l.ConfigExcludes()));
    var db := ArchiveDir(fs, l.dbDir, "db", []).value;
    DirRoundTrip(fs, l.dbDir, "db", [], withConfig);
    PutAllConcat(Some(Dir(start)), first + config, db);
    if l.includeData {
      var withDb := With(withConfig, "db", KeptDir(fs, l.dbDir, []));
      var data := ArchiveDir(fs, l.dataDir, Base(l.dataDir), l.DataExcludes()).value;
      DirRoundTrip(fs, l.dataDir, Base(l.dataDir), l.DataExcludes(), withDb);
      PutAllConcat(Some(Dir(start)), first + config + db, data);
    } else {
      assert first + config + db + [] == first + config + db;
    }
  }

  lemma ArchiveIsClean(fs: Node, l: Layout, manifest: seq<Byte>)
    requires l.Named() && BuildArchive(fs, l, manifest).Some? && GoodNames(fs)
    requires IsFileName(Base(l.configDir)) && IsFileName(Base(l.dataDir))
    ensures CleanNames(BuildArchive(fs, l, manifest).value)
  {
    var first := [FileEntry(["manifest.json"], manifest)];
    var config := ArchiveDir(fs, l.configDir, Base(l.configDir), l.ConfigExcludes()).value;
    var db := ArchiveDir(fs, l.dbDir, "db", []).value;
    ArchivedDirIsClean(fs, l.configDir, Base(l.configDir), l.ConfigExcludes());
    ArchivedDirIsClean(fs, l.dbDir, "db", []);
    CleanAppend(first, config);
    CleanAppend(first + config, db);
    if l.includeData {
      ArchivedDirIsClean(fs, l.dataDir, Base(l.dataDir), l.DataExcludes());
      CleanAppend(first + config + db, ArchiveDir(fs, l.dataDir, Base(l.dataDir), l.DataExcludes()).value);
    } else {
      assert first + config + db + [] == first + config + db;
    }
  }

  /** `verifyBackup`'s layout inside the temporary directory. */
  function ExtractedLayout(l: Layout): Layout
    requires l.Named()
  {
    Layout([Base(l.configDir)], [Base(l.dataDir)], ["db"], l.includeSSL, l.includeData)
  }

  /** Hashing one restored directory gives what hashing the original gave. */
  lemma RestoredDirHash(fs: Node, dir: Path, excludes: seq<Path>, tree: Node, name: string, excludes': seq<Path>)
    requires HashDir(fs, dir, excludes).Some?
    requires tree.Dir? && Child(tree.children, name) == KeptDir(fs, dir, excludes)
    requires forall r: Path :: IsExcluded([name] + r, excludes') ==> IsExcluded(dir + r, excludes)
    ensures HashDir(tree, [name], excludes') == HashDir(fs, dir, excludes)
  {
    assert Lookup(tree, [name]) == Child(tree.children, name);
    var w := StatDir(fs, dir);
    if w.Tree? && KeptDir(fs, dir, excludes).Some? {
      KeptHasSameBytes(w.root, dir, excludes, [name], excludes');
    }
  }

  /** Excluding ssl/ inside the restored config directory excludes nothing that was archived. */
  lemma SslExcludesMatch(l: Layout, r: Path)
    requires l.Named() && IsExcluded([Base(l.configDir)] + r, ExtractedLayout(l).ConfigExcludes())
    ensures IsExcluded(l.configDir + r, l.ConfigExcludes())
  {
    var ssl := [Base(l.configDir)] + ["ssl"];
    assert IsUnder([Base(l.configDir)] + r, ssl);
    assert r[..1] == ["ssl"] by { assert ([Base(l.configDir)] + r)[..2][1..] == ["ssl"]; }
    assert (l.configDir + r)[..|l.configDir| + 1] == l.configDir + ["ssl"];
    assert l.SslDir() in l.ConfigExcludes();
  }

  lemma RestoredContent(fs: Node, l: Layout, manifest: seq<Byte>)
    requires l.Named() && DistinctNames(l) && Content(fs, l).Some?
    ensures Content(Restored(fs, l, manifest), ExtractedLayout(l)) == Content(fs, l)
  {
    var tree, x := Restored(fs, l, manifest), ExtractedLayout(l);
    forall r: Path | IsExcluded([Base(l.configDir)] + r, x.ConfigExcludes())
      ensures IsExcluded(l.configDir + r, l.ConfigExcludes()) { SslExcludesMatch(l, r); }
    RestoredDirHash(fs, l.configDir, l.ConfigExcludes(), tree, Base(l.configDir), x.ConfigExcludes());
    RestoredDirHash(fs, l.dbDir, [], tree, "db", []);
    if l.includeData {
      assert !x.DbNestedInData() by { assert x.dbDir[..1] == ["db"]; }
      assert x.DataExcludes() == [];
      RestoredDirHash(fs, l.dataDir, l.DataExcludes(), tree, Base(l.dataDir), []);
    }
  }

  /** A regular file stands at the place, or a link that leads to one. */
  predicate IsFile(there: Option<Node>) {
    there.Some? && (there.value.File? || (there.value.Link? && there.value.target.AFile?))
  }

  /** Archiving and hashing fail on the same trees: those with a file in the place of a directory
      that is to be archived. A missing one, or a link that leads nowhere, is skipped. */
  lemma BuildSucceedsIffHashable(fs: Node, l: Layout, manifest: seq<Byte>)
    requires l.Named()
    ensures BuildArchive(fs, l, manifest).Some? <==> Content(fs, l).Some?
    ensures BuildArchive(fs, l, manifest).Some? <==>
            !IsFile(Lookup(fs, l.configDir)) && !IsFile(Lookup(fs, l.dbDir)) && (l.includeData ==> !IsFile(Lookup(fs, l.dataDir)))
  {
    DirSucceedsIff(fs, l.configDir, Base(l.configDir), l.ConfigExcludes());
    DirSucceedsIff(fs, l.dbDir, "db", []);
    DirSucceedsIff(fs, l.dataDir, Base(l.dataDir), l.DataExcludes());
  }

  lemma DirSucceedsIff(fs: Node, dir: Path, prefix: string, excludes: seq<Path>)
    ensures ArchiveDir(fs, dir, prefix, excludes).Some? <==> !IsFile(Lookup(fs, dir))
    ensures HashDir(fs, dir, excludes).Some? <==> !IsFile(Lookup(fs, dir))
  {}

  /** For every file tree and layout with distinct directory names: if the archive was built and
      its extraction succeeded under whatever limits, the checksum computed over the
      extracted layout digests exactly the bytes the original checksum digested. */
  lemma ChecksumSurvivesRoundTrip(fs: Node, l: Layout, manifest: seq<Byte>, archiveSize: nat, limits: Limits)
    requires l.Named() && DistinctNames(l) && GoodNames(fs)
    requires IsFileName(Base(l.configDir)) && IsFileName(Base(l.dataDir))
    requires BuildArchive(fs, l, manifest).Some? && archiveSize > 0
    requires ExtractFrom(BuildArchive(fs, l, manifest).value, Some(Dir(map[])), Progress(0, 0), archiveSize, limits).Some?
    ensures var out := ExtractFrom(BuildArchive(fs, l, manifest).value, Some(Dir(map[])), Progress(0, 0), archiveSize, limits).value;
            out.Some? && Content(fs, l).Some? && Content(out.value, ExtractedLayout(l)) == Content(fs, l)
  {
    ArchiveRoundTrip(fs, l, manifest);
    ArchiveIsClean(fs, l, manifest);
    ExtractionWritesAll(BuildArchive(fs, l, manifest).value, Some(Dir(map[])), Progress(0, 0), archiveSize, limits);
    BuildSucceedsIffHashable(fs, l, manifest);
    RestoredContent(fs, l, manifest);
  }

  // --- Check 5: which entry is taken for the manifest ---

  predicate IsJson(e: Entry) {
    e.FileEntry? && e.name != [] && HasSuffix(e.name[|e.name| - 1], ".json")
  }

  /** The index of the entry whose bytes check 5 keeps: the last one named *.json. */
  method FindManifest(entries: seq<Entry>) returns (index: Option<nat>)
    ensures index.None? <==> forall i | 0 <= i < |entries| :: !IsJson(entries[i])
    ensures index.Some? ==> IsTaken(entries, index.value)
  {
    index := None;
    for i := 0 to |entries|
      invariant index.None? <==> forall j | 0 <= j < i :: !IsJson(entries[j])
      invariant index.Some? ==> index.value < i && IsJson(entries[index.value]) &&
                                forall j | index.value < j < i :: !IsJson(entries[j])
    {
      if IsJson(entries[i]) { index := Some(i); }
    }
  }

  /** The entry check 5 keeps: the last one named *.json. */
  predicate IsTaken(entries: seq<Entry>, index: nat) {
    index < |entries| && IsJson(entries[index]) && forall i | index < i < |entries| :: !IsJson(entries[i])
  }

  predicate IsJsonName(name: Path) {
    name != [] && HasSuffix(name[|name| - 1], ".json")
  }

  predicate IsFileAt(n: Node, name: Path) {
    Lookup(n, name).Some? && Lookup(n, name).value.File?
  }

  /** A regular file below the directory, outside its excludes, whose name ends in ".json". */
  ghost predicate HasJson(fs: Node, dir: Path, excludes: seq<Path>) {
    StatDir(fs, dir).Tree? &&
    exists name: Path :: IsJsonName(name) && IsFileAt(StatDir(fs, dir).root, name) && !IsExcluded(dir + name, excludes)
  }

  lemma TreeIsDirectory(fs: Node, dir: Path)
    ensures StatDir(fs, dir).Tree? ==> StatDir(fs, dir).root.Dir?
  {}

  lemma ArchivedJsonIff(fs: Node, dir: Path, prefix: string, excludes: seq<Path>)
    requires ArchiveDir(fs, dir, prefix, excludes).Some?
    ensures (exists e :: e in ArchiveDir(fs, dir, prefix, excludes).value && IsJson(e)) <==> HasJson(fs, dir, excludes)
  {
    var entries := ArchiveDir(fs, dir, prefix, excludes).value;
    if StatDir(fs, dir).Tree? {
      var n := StatDir(fs, dir).root;
      var walk := WalkEntries(n, dir, excludes);
      if e :| e in entries && IsJson(e) {
        InPrefixAll(prefix, walk, e.name, e.data);
        var name := e.name[1..];
        WalkHoldsKept(n, dir, excludes, name, e.data);
        KeptFile(n, dir, excludes, name, e.data);
        TreeIsDirectory(fs, dir);
        assert name != [] && name[|name| - 1] == e.name[|e.name| - 1];
        assert IsJsonName(name) && IsFileAt(n, name);
      }
      if HasJson(fs, dir, excludes) {
        var name: Path :| IsJsonName(name) && IsFileAt(n, name) && !IsExcluded(dir + name, excludes);
        var data := Lookup(n, name).value.data;
        KeptFile(n, dir, excludes, name, data);
        WalkHoldsKept(n, dir, excludes, name, data);
        var full := [prefix] + name;
        assert full[1..] == name && full[|full| - 1] == name[|name| - 1];
        InPrefixAll(prefix, walk, full, data);
        assert IsJson(FileEntry(full, data));
      }
    }
  }

  /** Check 5 keeps the real manifest exactly when no file kept from the config directory,
      the database or the included data has a name that ends in ".json". */
  lemma ManifestIsFoundIff(fs: Node, l: Layout, manifest: seq<Byte>, index: nat)
    requires l.Named() && BuildArchive(fs, l, manifest).Some? && IsTaken(BuildArchive(fs, l, manifest).value, index)
    ensures index == 0 <==>
            !HasJson(fs, l.configDir, l.ConfigExcludes()) && !HasJson(fs, l.dbDir, []) &&
            (l.includeData ==> !HasJson(fs, l.dataDir, l.DataExcludes()))
  {
    var entries := BuildArchive(fs, l, manifest).value;
    var config := ArchiveDir(fs, l.configDir, Base(l.configDir), l.ConfigExcludes()).value;
    var db := ArchiveDir(fs, l.dbDir, "db", []).value;
    var data := if l.includeData then ArchiveDir(fs, l.dataDir, Base(l.dataDir), l.DataExcludes()).value else [];
    ArchivedJsonIff(fs, l.configDir, Base(l.configDir), l.ConfigExcludes());
    ArchivedJsonIff(fs, l.dbDir, "db", []);
    if l.includeData { ArchivedJsonIff(fs, l.dataDir, Base(l.dataDir), l.DataExcludes()); }
    LaterJson(FileEntry(["manifest.json"], manifest), config, db, data, index);
    assert entries == [FileEntry(["manifest.json"], manifest)] + config + db + data;
  }

  lemma LaterJson(first: Entry, a: seq<Entry>, b: seq<Entry>, c: seq<Entry>, index: nat)
    requires IsTaken([first] + a + b + c, index)
    ensures index == 0 <==> forall e | e in a || e in b || e in c :: !IsJson(e)
  {
    var all := [first] + a + b + c;
    assert all[1..] == a + b + c;
    if index == 0 {
      forall e | e in a + b + c ensures !IsJson(e) {
        var i :| 0 <= i < |all[1..]| && all[1..][i] == e;
        assert all[i + 1] == e;
      }
    } else {
      assert all[index] == all[1..][index - 1];
      assert all[index] in a + b + c;
    }
  }

  lemma OutsideSsl(dir: Path, name: Path, ssl: string)
    requires name != [] && name[0] != ssl
    ensures !IsUnder(dir + name, dir + [ssl])
  {
    assert (dir + name)[..|dir| + 1][|dir|] == name[0] && (dir + [ssl])[|dir|] == ssl;
  }

  /** A theme file is enough: with it in the config directory, check 5 reads the wrong bytes. */
  lemma ThemeFileHidesManifest(fs: Node, l: Layout, manifest: seq<Byte>, index: nat, file: string)
    requires l.Named() && BuildArchive(fs, l, manifest).Some? && IsTaken(BuildArchive(fs, l, manifest).value, index)
    requires HasSuffix(file, ".json") && StatDir(fs, l.configDir).Tree?
    requires IsFileAt(StatDir(fs, l.configDir).root, ["theme", file])
    ensures index != 0
  {
    assert "theme"[0] != "ssl"[0];
    OutsideSsl(l.configDir, ["theme", file], "ssl");
    assert IsJsonName(["theme", file]);
    ManifestIsFoundIff(fs, l, manifest, index);
  }
}
