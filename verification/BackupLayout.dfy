/** Which directory layouts survive a backup (`src/backup_crypto.go`, `verifyBackup`
    in `src/main.go`): the archive names the directories by their base names only. */
module BackupLayout {
  import opened Options
  import opened Strings
  import opened FileTree
  import opened Backup

  predicate Overlap(a: Path, b: Path) {
    IsUnder(a, b) || IsUnder(b, a)
  }

  predicate GoodPath(dir: Path) {
    dir != [] && forall s | s in dir :: IsFileName(s)
  }

  predicate GoodPaths(l: Layout) {
    GoodPath(l.configDir) && GoodPath(l.dataDir) && GoodPath(l.dbDir)
  }

  /** No directory lies in another, except that the database may lie inside the data directory. */
  predicate Proper(l: Layout) {
    && GoodPaths(l)
    && !Overlap(l.configDir, l.dbDir) && !Overlap(l.configDir, l.dataDir) && !IsUnder(l.dataDir, l.dbDir)
  }

  /** If the archive was built and extracted, the checksum over the extracted layout digests
      the bytes that the original checksum digested. */
  predicate Survives(fs: Node, l: Layout, manifest: seq<Byte>, archiveSize: nat, limits: Limits)
    requires l.Named() && archiveSize > 0
  {
    var built := BuildArchive(fs, l, manifest);
    built.None? ||
    var out := ExtractFrom(built.value, Some(Dir(map[])), Progress(0, 0), archiveSize, limits);
    out.None? ||
    (out.value.Some? && Content(fs, l).Some? && Content(out.value.value, ExtractedLayout(l)) == Content(fs, l))
  }

  ghost predicate AlwaysSurvives(l: Layout)
    requires l.Named()
  {
    forall fs: Node, manifest: seq<Byte>, archiveSize: nat, limits: Limits | GoodNames(fs) && archiveSize > 0 ::
      Survives(fs, l, manifest, archiveSize, limits)
  }

  // --- An extraction that stays within its limits ---

  function TotalSize(entries: seq<Entry>): nat {
    if entries == [] then 0 else Size(entries[0]) + TotalSize(entries[1..])
  }

  /** The limits leave room for `files` more files and `size` more bytes. */
  predicate HasRoom(limits: Limits, p: Progress, files: nat, size: nat, archiveSize: nat) {
    && p.files + files <= limits.maxFiles && size <= limits.maxFileSize
    && p.expanded + size <= limits.maxExpandedSize && p.expanded + size <= limits.maxRatio * archiveSize
  }

  lemma CountWithinLimits(p: Progress, e: Entry, archiveSize: nat, limits: Limits, more: nat, size: nat)
    requires archiveSize > 0 && HasRoom(limits, p, 1 + more, Size(e) + size, archiveSize)
    ensures Count(p, e, archiveSize, limits).Some?
    ensures HasRoom(limits, Count(p, e, archiveSize, limits).value, more, size, archiveSize)
  {
    RatioWithin(p.expanded + Size(e), archiveSize, limits.maxRatio);
  }

  lemma RatioWithin(expanded: nat, archiveSize: nat, ratio: nat)
    requires archiveSize > 0 && expanded <= ratio * archiveSize
    ensures expanded as real / archiveSize as real <= ratio as real
  {
    var a, e, r := archiveSize as real, expanded as real, ratio as real;
    assert r * a == (ratio * archiveSize) as real;
    assert e == e / a * a;
  }

  /** Entries that fit the limits and do not get in each other's way are all written, whatever
      the size of the archive. */
  lemma {:induction false} ExtractionWithinLimits(entries: seq<Entry>, slot: Option<Node>, p: Progress, archiveSize: nat, limits: Limits)
    requires Plain(entries) && CleanNames(entries) && PutAll(slot, entries).Some?
    requires archiveSize > 0 && HasRoom(limits, p, |entries|, TotalSize(entries), archiveSize)
    ensures ExtractFrom(entries, slot, p, archiveSize, limits) == PutAll(slot, entries)
    decreases |entries|
  {
    if entries != [] {
      var e := entries[0];
      CleanKeepsPlainNames(e.name, []);
      assert [] + e.name == e.name;
      assert e.name != [] ==> e.name[0] in e.name;
      CountWithinLimits(p, e, archiveSize, limits, |entries| - 1, TotalSize(entries[1..]));
      ExtractionWithinLimits(entries[1..], Put(slot, e.name, e), Count(p, e, archiveSize, limits).value, archiveSize, limits);
    }
  }

  /** A tree whose extracted archive hashes differently. */
  lemma Refutes(fs: Node, l: Layout, manifest: seq<Byte>, out: Node)
    requires GoodPaths(l) && GoodNames(fs) && BuildArchive(fs, l, manifest).Some?
    requires Plain(BuildArchive(fs, l, manifest).value)
    requires PutAll(Some(Dir(map[])), BuildArchive(fs, l, manifest).value) == Some(Some(out))
    requires Content(out, ExtractedLayout(l)) != Content(fs, l)
    ensures !AlwaysSurvives(l)
  {
    var entries := BuildArchive(fs, l, manifest).value;
    var most := TotalSize(entries);
    var limits := Limits(1, |entries|, most, most, most);
    assert Base(l.configDir) in l.configDir && Base(l.dataDir) in l.dataDir;
    ArchiveIsClean(fs, l, manifest);
    ExtractionWithinLimits(entries, Some(Dir(map[])), Progress(0, 0), 1, limits);
    assert !Survives(fs, l, manifest, 1, limits);
  }

  // --- Trees with something at a given place ---

  const EMPTY: Node := Dir(map[])

  /** The tree with `v` at `path`, and the directories that lead there. */
  function SetAt(n: Node, path: Path, v: Node): Node
    decreases |path|
  {
    if path == [] then v
    else
      var children := if n.Dir? then n.children else map[];
      var inner := if path[0] in children then children[path[0]] else EMPTY;
      Dir(children[path[0] := SetAt(inner, path[1..], v)])
  }

  lemma {:induction false} SetThere(n: Node, path: Path, v: Node)
    ensures Lookup(SetAt(n, path, v), path) == Some(v)
    decreases |path|
  {
    if path != [] {
      var children := if n.Dir? then n.children else map[];
      SetThere(if path[0] in children then children[path[0]] else EMPTY, path[1..], v);
    }
  }

  lemma {:induction false} SetElsewhere(n: Node, path: Path, v: Node, other: Path)
    requires !Overlap(path, other)
    ensures Lookup(SetAt(n, path, v), other) == Lookup(n, other)
    decreases |path|
  {
    UnderRoot(path);
    UnderRoot(other);
    var children := if n.Dir? then n.children else map[];
    if path[0] == other[0] {
      assert path == [path[0]] + path[1..] && other == [path[0]] + other[1..];
      OverlapBelow(path[0], path[1..], other[1..]);
      SetElsewhere(if path[0] in children then children[path[0]] else EMPTY, path[1..], v, other[1..]);
      assert other[1..] != [];
    }
  }

  lemma UnderRoot(path: Path)
    ensures IsUnder(path, [])
  {}

  lemma OverlapBelow(k: string, a: Path, b: Path)
    ensures Overlap([k] + a, [k] + b) <==> Overlap(a, b)
  {
    UnderBelow(k, a, b);
    UnderBelow(k, b, a);
  }

  lemma UnderBelow(k: string, a: Path, b: Path)
    ensures IsUnder([k] + a, [k] + b) <==> IsUnder(a, b)
  {
    if |b| <= |a| { assert ([k] + a)[..|b| + 1] == [k] + a[..|b|]; }
    if IsUnder([k] + a, [k] + b) { assert a[..|b|] == ([k] + b)[1..] == b; }
  }

  /** Below a directory that is already there, only that directory changes. */
  lemma {:induction false} SetBelow(n: Node, dir: Path, rest: Path, v: Node)
    requires Lookup(n, dir).Some?
    ensures Lookup(SetAt(n, dir + rest, v), dir) == Some(SetAt(Lookup(n, dir).value, rest, v))
    decreases |dir|
  {
    if dir == [] {
      assert dir + rest == rest;
    } else {
      assert (dir + rest)[1..] == dir[1..] + rest;
      SetBelow(n.children[dir[0]], dir[1..], rest, v);
    }
  }

  lemma {:induction false} LookupThrough(n: Node, dir: Path, rest: Path)
    requires Lookup(n, dir).Some?
    ensures Lookup(n, dir + rest) == Lookup(Lookup(n, dir).value, rest)
    decreases |dir|
  {
    if dir == [] {
      assert dir + rest == rest;
    } else {
      assert (dir + rest)[1..] == dir[1..] + rest;
      LookupThrough(n.children[dir[0]], dir[1..], rest);
    }
  }

  lemma {:induction false} SetKeepsGoodNames(n: Node, path: Path, v: Node)
    requires GoodNames(n) && GoodNames(v) && forall s | s in path :: IsFileName(s)
    ensures GoodNames(SetAt(n, path, v))
    decreases |path|
  {
    if path != [] {
      var children := if n.Dir? then n.children else map[];
      assert path[0] in path;
      SetKeepsGoodNames(if path[0] in children then children[path[0]] else EMPTY, path[1..], v);
    }
  }

  function OneFile(x: string, b: Byte): Node {
    Dir(map[x := File([b])])
  }

  lemma OneFileWalk(x: string, b: Byte, path: Path, excludes: seq<Path>)
    requires !IsExcluded(path + [x], excludes) && !IsExcluded(path, excludes)
    ensures WalkBytes(OneFile(x, b), path, excludes) == [b]
    ensures Kept(OneFile(x, b), path, excludes) == Some(OneFile(x, b))
  {
    var n := OneFile(x, b);
    assert n.children.Keys == {x};
    SortedOne(x);
    var parts := ByteParts(n, path, excludes);
    assert parts[0] == WalkBytes(n.children[x], path + [x], excludes) == [b];
    assert parts == [[b]];
    assert parts[1..] == [] && Flatten(parts) == [b] + Flatten<Byte>([]);
    assert Kept(n, path, excludes).value.children == n.children;
  }

  // --- A base name that the archive already uses ---

  /** The archive when only the manifest, and what follows it, is there. */
  lemma ManifestFirst(manifest: seq<Byte>, name: string, entries: seq<Entry>)
    requires Plain(entries)
    ensures var base: map<string, Node> := map[name := File(manifest)];
            Plain([FileEntry([name], manifest)] + entries) &&
            PutAll(Some(Dir(map[])), [FileEntry([name], manifest)] + entries) == PutAll(Some(Dir(base)), entries)
  {
    var first := [FileEntry([name], manifest)];
    var start: map<string, Node> := map[];
    assert first[1..] == [] && [name][1..] == [];
    assert start[name := File(manifest)] == map[name := File(manifest)];
    assert Put(Child(start, name), [], first[0]) == Some(File(manifest));
    assert Put(Some(Dir(start)), [name], first[0]) == Some(Dir(map[name := File(manifest)]));
    assert PutAll(Some(Dir(start)), first) == Some(Some(Dir(map[name := File(manifest)])));
    PutAllConcat(Some(Dir(start)), first, entries);
  }

  lemma NothingThere(dir: Path)
    requires dir != []
    ensures Lookup(EMPTY, dir) == None
  {}

  /** A directory named like the manifest: with none of the directories present, the manifest is hashed in its place. */
  lemma ManifestNameFails(l: Layout)
    requires GoodPaths(l)
    requires Base(l.configDir) == "manifest.json" || (l.includeData && Base(l.dataDir) == "manifest.json")
    ensures !AlwaysSurvives(l)
  {
    NothingThere(l.configDir);
    NothingThere(l.dataDir);
    NothingThere(l.dbDir);
    var entries := BuildArchive(EMPTY, l, []).value;
    ManifestFirst([], "manifest.json", []);
    assert entries == [FileEntry(["manifest.json"], [])] + [];
    var out := Dir(map["manifest.json" := File([])]);
    assert Lookup(out, ["manifest.json"]) == Some(File([]));
    Refutes(EMPTY, l, [], out);
  }

  /** One directory archived after the manifest, under a name that is still free. */
  lemma OneDirExtracted(fs: Node, dir: Path, prefix: string, excludes: seq<Path>, manifest: seq<Byte>, name: string, n: Node)
    requires ArchiveDir(fs, dir, prefix, excludes).Some? && KeptDir(fs, dir, excludes) == Some(n) && prefix != name
    ensures var entries := [FileEntry([name], manifest)] + ArchiveDir(fs, dir, prefix, excludes).value;
            Plain(entries) && PutAll(Some(Dir(map[])), entries) == Some(Some(Dir(map[name := File(manifest), prefix := n])))
  {
    var base: map<string, Node> := map[name := File(manifest)];
    DirRoundTrip(fs, dir, prefix, excludes, base);
    ManifestFirst(manifest, name, ArchiveDir(fs, dir, prefix, excludes).value);
    assert base[prefix := n] == map[name := File(manifest), prefix := n];
  }

  /** With only a config directory present, it alone is hashed and archived. */
  lemma OnlyConfig(fs: Node, l: Layout, bytes: seq<Byte>, manifest: seq<Byte>)
    requires l.Named() && HashDir(fs, l.configDir, l.ConfigExcludes()) == Some(bytes)
    requires Lookup(fs, l.dbDir) == None && (l.includeData ==> Lookup(fs, l.dataDir) == None)
    ensures Content(fs, l) == Some(bytes)
    ensures var config := ArchiveDir(fs, l.configDir, Base(l.configDir), l.ConfigExcludes());
            config.Some? && BuildArchive(fs, l, manifest) == Some([FileEntry(["manifest.json"], manifest)] + config.value)
  {
    assert bytes + [] + [] == bytes;
    var config := ArchiveDir(fs, l.configDir, Base(l.configDir), l.ConfigExcludes()).value;
    var first := [FileEntry(["manifest.json"], manifest)];
    assert first + config + [] + [] == first + config;
  }

  /** One config file, and nothing else. */
  lemma OneConfigFile(l: Layout, x: string)
    requires GoodPaths(l) && IsFileName(x) && x != "ssl"
    ensures var fs := SetAt(EMPTY, l.configDir, OneFile(x, 1));
            && GoodNames(fs)
            && HashDir(fs, l.configDir, l.ConfigExcludes()) == Some([1])
            && KeptDir(fs, l.configDir, l.ConfigExcludes()) == Some(OneFile(x, 1))
  {
    SetKeepsGoodNames(EMPTY, l.configDir, OneFile(x, 1));
    SetThere(EMPTY, l.configDir, OneFile(x, 1));
    OutsideSsl(l.configDir, [x], "ssl");
    OneFileWalk(x, 1, l.configDir, l.ConfigExcludes());
  }

  /** The file is neither in the database nor in included data. */
  predicate OnlyInConfig(l: Layout, x: string) {
    var fs := SetAt(EMPTY, l.configDir, OneFile(x, 1));
    Lookup(fs, l.dbDir) == None && (l.includeData ==> Lookup(fs, l.dataDir) == None)
  }

  lemma ApartIsOnlyInConfig(l: Layout, x: string)
    requires Proper(l)
    ensures OnlyInConfig(l, x)
  {
    SetElsewhere(EMPTY, l.configDir, OneFile(x, 1), l.dbDir);
    SetElsewhere(EMPTY, l.configDir, OneFile(x, 1), l.dataDir);
  }

  lemma ExtractedConfigHash(out: Node, l: Layout, x: string)
    requires l.Named() && x != "ssl" && Lookup(out, [Base(l.configDir)]) == Some(OneFile(x, 1))
    ensures HashDir(out, [Base(l.configDir)], ExtractedLayout(l).ConfigExcludes()) == Some([1])
  {
    OutsideSsl([Base(l.configDir)], [x], "ssl");
    OneFileWalk(x, 1, [Base(l.configDir)], ExtractedLayout(l).ConfigExcludes());
  }

  /** A config directory whose name is used again by the database or by the included data: a
      single config file is hashed twice. */
  lemma ConfigNameFails(l: Layout, x: string)
    requires GoodPaths(l) && Base(l.configDir) != "manifest.json" && IsFileName(x) && x != "ssl" && OnlyInConfig(l, x)
    requires Base(l.configDir) == "db" || (l.includeData && Base(l.dataDir) == Base(l.configDir))
    ensures !AlwaysSurvives(l)
  {
    var name := Base(l.configDir);
    var fs := SetAt(EMPTY, l.configDir, OneFile(x, 1));
    OneConfigFile(l, x);
    OnlyConfig(fs, l, [1], []);
    OneDirExtracted(fs, l.configDir, name, l.ConfigExcludes(), [], "manifest.json", OneFile(x, 1));
    var out := Dir(map["manifest.json" := File([]), name := OneFile(x, 1)]);
    assert Lookup(out, [name]) == Some(OneFile(x, 1));
    OneFileHash(out, [name], x);
    ExtractedConfigHash(out, l, x);
    HashedTwice(out, l, name);
    Refutes(fs, l, [], out);
  }

  lemma HashedTwice(out: Node, l: Layout, name: string)
    requires l.Named() && name == Base(l.configDir)
    requires name == "db" || (l.includeData && Base(l.dataDir) == name)
    requires HashDir(out, [name], ExtractedLayout(l).ConfigExcludes()) == Some([1]) && HashDir(out, [name], []) == Some([1])
    ensures Content(out, ExtractedLayout(l)) != Some([1])
  {
    var e := ExtractedLayout(l);
    var config, db := HashDir(out, e.configDir, e.ConfigExcludes()), HashDir(out, e.dbDir, []);
    if name != "db" {
      assert !e.DbNestedInData() by { assert e.dbDir[..1] == ["db"] && e.dataDir == [name]; }
      assert e.DataExcludes() == [];
    }
    if Content(out, e).Some? { assert |Content(out, e).value| >= 2; }
  }

  // --- The data directory named "db" ---

  /** Data named "db": the archived database is overwritten by the data, and the data is
      excluded as the database's place. */
  lemma DataNameFails(fs: Node, l: Layout, x: string, n: Node)
    requires Proper(l) && GoodNames(fs) && l.includeData && Base(l.dataDir) == "db"
    requires Base(l.configDir) != "db" && Base(l.configDir) != "manifest.json"
    requires Lookup(fs, l.configDir) == None && Lookup(fs, l.dbDir) == Some(OneFile(x, 1)) && Lookup(fs, l.dataDir) == Some(n)
    requires n.Dir? && x in n.children && n.children[x].File?
    requires !IsExcluded(l.dataDir, l.DataExcludes()) && !IsExcluded(l.dataDir + [x], l.DataExcludes())
    ensures !AlwaysSurvives(l)
  {
    DbThenData(fs, l, x, n);
    var out := Dir(map["manifest.json" := File([]), "db" := Kept(n, l.dataDir, l.DataExcludes()).value]);
    OneFileHash(fs, l.dbDir, x);
    OverwrittenContent(fs, l, n, out);
    Refutes(fs, l, [], out);
  }

  lemma OneFileHash(fs: Node, dir: Path, x: string)
    requires Lookup(fs, dir) == Some(OneFile(x, 1))
    ensures HashDir(fs, dir, []) == Some([1])
  {
    OneFileWalk(x, 1, dir, []);
  }

  lemma DbThenData(fs: Node, l: Layout, x: string, n: Node)
    requires l.Named() && l.includeData && Base(l.dataDir) == "db"
    requires Lookup(fs, l.configDir) == None && Lookup(fs, l.dbDir) == Some(OneFile(x, 1)) && Lookup(fs, l.dataDir) == Some(n)
    requires n.Dir? && x in n.children && n.children[x].File?
    requires !IsExcluded(l.dataDir, l.DataExcludes()) && !IsExcluded(l.dataDir + [x], l.DataExcludes())
    ensures BuildArchive(fs, l, []).Some? && Plain(BuildArchive(fs, l, []).value)
    ensures PutAll(Some(Dir(map[])), BuildArchive(fs, l, []).value) ==
            Some(Some(Dir(map["manifest.json" := File([]), "db" := Kept(n, l.dataDir, l.DataExcludes()).value])))
  {
    var first := [FileEntry(["manifest.json"], [])];
    var db, data := ArchiveDir(fs, l.dbDir, "db", []).value, ArchiveDir(fs, l.dataDir, "db", l.DataExcludes()).value;
    assert BuildArchive(fs, l, []) == Some(first + db + data) by { assert first + [] == first; }
    OneFileWalk(x, 1, l.dbDir, []);
    OneDirExtracted(fs, l.dbDir, "db", [], [], "manifest.json", OneFile(x, 1));
    TwiceUnderOneName("manifest.json", "db", first + db, l.dataDir, l.DataExcludes(), x, n);
  }

  /** A second tree archived under a name that already holds one of its files. */
  lemma TwiceUnderOneName(name: string, prefix: string, xs: seq<Entry>, second: Path, excludes: seq<Path>, x: string, n: Node)
    requires name != prefix && Plain(xs)
    requires PutAll(Some(Dir(map[])), xs) == Some(Some(Dir(map[name := File([]), prefix := OneFile(x, 1)])))
    requires n.Dir? && x in n.children && n.children[x].File?
    requires !IsExcluded(second, excludes) && !IsExcluded(second + [x], excludes)
    ensures var ys := PrefixAll(prefix, WalkEntries(n, second, excludes));
            Plain(xs + ys) && PutAll(Some(Dir(map[])), xs + ys) ==
            Some(Some(Dir(map[name := File([]), prefix := Kept(n, second, excludes).value])))
  {
    var children: map<string, Node> := map[name := File([]), prefix := OneFile(x, 1)];
    SecondTree(children, prefix, n, second, excludes, x);
    OneAfterOther(xs, PrefixAll(prefix, WalkEntries(n, second, excludes)), children, name, prefix, OneFile(x, 1), Kept(n, second, excludes).value);
  }

  lemma OneAfterOther(xs: seq<Entry>, ys: seq<Entry>, children: map<string, Node>, name: string, prefix: string, a: Node, b: Node)
    requires Plain(xs) && Plain(ys) && name != prefix && children == map[name := File([]), prefix := a]
    requires PutAll(Some(Dir(map[])), xs) == Some(Some(Dir(children)))
    requires PutAll(Some(Dir(children)), ys) == Some(Some(Dir(children[prefix := b])))
    ensures Plain(xs + ys) && PutAll(Some(Dir(map[])), xs + ys) == Some(Some(Dir(map[name := File([]), prefix := b])))
  {
    PutAllConcat(Some(Dir(map[])), xs, ys);
    assert children[prefix := b] == map[name := File([]), prefix := b];
  }

  /** A second tree written over a directory that holds one of its files. */
  lemma SecondTree(children: map<string, Node>, prefix: string, n: Node, path: Path, excludes: seq<Path>, x: string)
    requires prefix in children && children[prefix] == OneFile(x, 1)
    requires n.Dir? && x in n.children && n.children[x].File?
    requires !IsExcluded(path, excludes) && !IsExcluded(path + [x], excludes)
    ensures PutAll(Some(Dir(children)), PrefixAll(prefix, WalkEntries(n, path, excludes))) ==
            Some(Some(Dir(children[prefix := Kept(n, path, excludes).value])))
  {
    WalkOverwrites(n, path, excludes, x, File([1]));
    PutAllUnderOneName(children, prefix, WalkEntries(n, path, excludes));
  }

  lemma OverwrittenContent(fs: Node, l: Layout, n: Node, out: Node)
    requires l.Named() && l.includeData && Base(l.dataDir) == "db"
    requires Base(l.configDir) != "db" && Base(l.configDir) != "manifest.json"
    requires Lookup(fs, l.configDir) == None && HashDir(fs, l.dbDir, []) == Some([1]) && Lookup(fs, l.dataDir) == Some(n)
    requires n.Dir? && !IsExcluded(l.dataDir, l.DataExcludes())
    requires out == Dir(map["manifest.json" := File([]), "db" := Kept(n, l.dataDir, l.DataExcludes()).value])
    ensures Content(out, ExtractedLayout(l)) != Content(fs, l)
  {
    var bytes, kept := WalkBytes(n, l.dataDir, l.DataExcludes()), Kept(n, l.dataDir, l.DataExcludes()).value;
    ContentOf(fs, l, [], [1], bytes);
    var e := ExtractedLayout(l);
    TwoNames(out, "manifest.json", "db", File([]), kept, Base(l.configDir));
    KeptHasSameBytes(n, l.dataDir, l.DataExcludes(), ["db"], []);
    ExcludedByItself(kept, ["db"]);
    assert e.DbNestedInData() by { assert ["db"][..1] == ["db"]; }
    ContentOf(out, e, [], bytes, []);
    assert |[] + [1] + bytes| == |bytes| + 1 && |[] + bytes + []| == |bytes|;
  }

  lemma TwoNames(out: Node, a: string, b: string, x: Node, y: Node, other: string)
    requires a != b && other != a && other != b && out == Dir(map[a := x, b := y])
    ensures Lookup(out, [b]) == Some(y)
    ensures Lookup(out, [other]) == None
  {
    assert [b][1..] == [];
    assert out.children[b] == y;
    assert other !in out.children;
  }

  lemma ContentOf(fs: Node, l: Layout, config: seq<Byte>, db: seq<Byte>, data: seq<Byte>)
    requires l.includeData && HashDir(fs, l.configDir, l.ConfigExcludes()) == Some(config)
    requires HashDir(fs, l.dbDir, []) == Some(db) && HashDir(fs, l.dataDir, l.DataExcludes()) == Some(data)
    ensures Content(fs, l) == Some(config + db + data)
  {}

  lemma ExcludedByItself(n: Node, path: Path)
    ensures WalkBytes(n, path, [path]) == []
  {
    assert IsUnder(path, path) && path in [path];
  }

  /** A database and a data directory that both hold a file `x`. */
  lemma DbAndData(l: Layout, x: string) returns (fs: Node, n: Node)
    requires Proper(l) && IsFileName(x) && (l.DbNestedInData() ==> x != l.dbDir[|l.dataDir|])
    ensures GoodNames(fs)
    ensures Lookup(fs, l.configDir) == None && Lookup(fs, l.dbDir) == Some(OneFile(x, 1)) && Lookup(fs, l.dataDir) == Some(n)
    ensures n.Dir? && x in n.children && n.children[x].File?
    ensures !IsExcluded(l.dataDir, l.DataExcludes()) && !IsExcluded(l.dataDir + [x], l.DataExcludes())
  {
    var before := SetAt(EMPTY, l.dataDir, OneFile(x, 2));
    fs := SetAt(before, l.dbDir, OneFile(x, 1));
    SetKeepsGoodNames(EMPTY, l.dataDir, OneFile(x, 2));
    SetKeepsGoodNames(before, l.dbDir, OneFile(x, 1));
    SetThere(EMPTY, l.dataDir, OneFile(x, 2));
    SetThere(before, l.dbDir, OneFile(x, 1));
    SetElsewhere(before, l.dbDir, OneFile(x, 1), l.configDir);
    SetElsewhere(EMPTY, l.dataDir, OneFile(x, 2), l.configDir);
    if l.DbNestedInData() {
      var rest := l.dbDir[|l.dataDir|..];
      assert l.dbDir == l.dataDir + rest;
      SetBelow(before, l.dataDir, rest, OneFile(x, 1));
      n := SetAt(OneFile(x, 2), rest, OneFile(x, 1));
      assert rest != [] by { assert rest == [] ==> l.dbDir == l.dataDir && IsUnder(l.dataDir, l.dbDir); }
      assert (l.dataDir + [x])[|l.dataDir|] == x;
      assert !IsUnder(l.dataDir + [x], l.dbDir) by { NextDiffers(l.dataDir, x, l.dbDir); }
    } else {
      SetElsewhere(before, l.dbDir, OneFile(x, 1), l.dataDir);
      n := OneFile(x, 2);
    }
  }

  lemma NextDiffers(dir: Path, x: string, other: Path)
    requires |dir| < |other| && other[|dir|] != x
    ensures !IsUnder(dir + [x], other)
  {
    if |other| <= |dir| + 1 { assert (dir + [x])[..|other|][|dir|] == x; }
  }

  /** Wherever the directories lie, a layout with distinct base names survives the backup. */
  lemma DistinctSurvives(l: Layout)
    requires GoodPaths(l) && DistinctNames(l)
    ensures AlwaysSurvives(l)
  {
    assert Base(l.configDir) in l.configDir && Base(l.dataDir) in l.dataDir;
    forall fs: Node, manifest: seq<Byte>, archiveSize: nat, limits: Limits | GoodNames(fs) && archiveSize > 0
      ensures Survives(fs, l, manifest, archiveSize, limits)
    {
      var built := BuildArchive(fs, l, manifest);
      if built.Some? && ExtractFrom(built.value, Some(Dir(map[])), Progress(0, 0), archiveSize, limits).Some? {
        ChecksumSurvivesRoundTrip(fs, l, manifest, archiveSize, limits);
      }
    }
  }

  /** Exactly the layouts whose base names differ from each other, from "db" and from
      "manifest.json" survive the backup, whatever the directories hold. */
  lemma SurvivesIffDistinct(l: Layout)
    requires Proper(l)
    ensures AlwaysSurvives(l) <==> DistinctNames(l)
  {
    if DistinctNames(l) { DistinctSurvives(l); } else { CollisionFails(l); }
  }

  lemma CollisionFails(l: Layout)
    requires Proper(l) && !DistinctNames(l)
    ensures !AlwaysSurvives(l)
  {
    if Base(l.configDir) == "manifest.json" || (l.includeData && Base(l.dataDir) == "manifest.json") {
      ManifestNameFails(l);
    } else if Base(l.configDir) == "db" || (l.includeData && Base(l.dataDir) == Base(l.configDir)) {
      assert "f"[0] != "ssl"[0] && "f"[0] != '.';
      ApartIsOnlyInConfig(l, "f");
      ConfigNameFails(l, "f");
    } else {
      var x := "f" + if l.DbNestedInData() && |l.dataDir| < |l.dbDir| then l.dbDir[|l.dataDir|] else "";
      assert x[0] == 'f';
      var fs, n := DbAndData(l, x);
      DataNameFails(fs, l, x, n);
    }
  }

  // --- Layouts with everything in one place ---

  /** macOS and Windows, privileged: data and database are directories of the config directory. */
  function BundledLayout(base: Path, includeSSL: bool, includeData: bool): Layout {
    Layout(base, base + ["data"], base + ["db"], includeSSL, includeData)
  }

  /** macOS, unprivileged: one directory for config and data, with the database in it. */
  function SharedLayout(base: Path, includeSSL: bool, includeData: bool): Layout {
    Layout(base, base, base + ["db"], includeSSL, includeData)
  }

  lemma OneConfigFileInside(base: Path, name: string, x: string)
    requires x != name
    ensures Lookup(SetAt(EMPTY, base, OneFile(x, 1)), base + [name]) == None
  {
    SetThere(EMPTY, base, OneFile(x, 1));
    LookupThrough(SetAt(EMPTY, base, OneFile(x, 1)), base, [name]);
    assert [name][0] == name;
  }

  /** Such a bundle survives exactly when its own name is none that the archive uses for something else. */
  lemma BundledSurvivesIff(base: Path, includeSSL: bool, includeData: bool)
    requires GoodPath(base)
    ensures AlwaysSurvives(BundledLayout(base, includeSSL, includeData)) <==>
            Base(base) != "db" && Base(base) != "manifest.json" && (includeData ==> Base(base) != "data")
  {
    var l := BundledLayout(base, includeSSL, includeData);
    assert "data"[1] != "db"[1] && "data"[0] != "manifest.json"[0];
    assert Base(l.dataDir) == "data" && GoodPaths(l);
    if DistinctNames(l) {
      DistinctSurvives(l);
    } else if Base(base) == "manifest.json" {
      ManifestNameFails(l);
    } else {
      assert "f"[0] != "ssl"[0] && "f"[0] != "db"[0] && "f"[0] != "data"[0];
      OneConfigFileInside(base, "db", "f");
      OneConfigFileInside(base, "data", "f");
      ConfigNameFails(l, "f");
    }
  }

  lemma OneChildWalk(k: string, n: Node, path: Path, excludes: seq<Path>)
    requires !IsExcluded(path, excludes)
    ensures WalkBytes(Dir(map[k := n]), path, excludes) == WalkBytes(n, path + [k], excludes)
  {
    var d := Dir(map[k := n]);
    assert d.children.Keys == {k};
    SortedOne(k);
    var parts := ByteParts(d, path, excludes);
    assert parts == [WalkBytes(n, path + [k], excludes)];
    assert parts[1..] == [] && Flatten(parts) == parts[0] + Flatten<Byte>([]);
  }

  lemma OneChildKept(k: string, n: Node, path: Path, excludes: seq<Path>)
    requires !IsExcluded(path, excludes)
    ensures Kept(n, path + [k], excludes) == Some(n) ==> Kept(Dir(map[k := n]), path, excludes) == Some(Dir(map[k := n]))
    ensures Kept(n, path + [k], excludes) == None ==> Kept(Dir(map[k := n]), path, excludes) == Some(EMPTY)
  {
    var d := Dir(map[k := n]);
    if Kept(n, path + [k], excludes) == Some(n) { assert Kept(d, path, excludes).value.children == d.children; }
  }

  /** A shared directory with nothing in it but one database file. */
  function OneDatabase(base: Path): Node {
    SetAt(EMPTY, base, Dir(map["db" := OneFile("f", 1)]))
  }

  lemma OneDatabaseIs(base: Path)
    requires GoodPath(base)
    ensures GoodNames(OneDatabase(base)) && Lookup(OneDatabase(base), base) == Some(Dir(map["db" := OneFile("f", 1)]))
    ensures Lookup(OneDatabase(base), base + ["db"]) == Some(OneFile("f", 1))
  {
    var d := Dir(map["db" := OneFile("f", 1)]);
    assert GoodNames(OneFile("f", 1)) && GoodNames(d) by { assert "f"[0] != '.' && "db"[0] != '.'; }
    SetKeepsGoodNames(EMPTY, base, d);
    SetThere(EMPTY, base, d);
    LookupThrough(OneDatabase(base), base, ["db"]);
    assert Lookup(d, ["db"]) == Lookup(d.children["db"], ["db"][1..]);
  }

  /** Walked with excludes that do not touch the database, it is the one byte; with the database
      excluded, it is an empty directory. */
  lemma OneDatabaseWalk(path: Path, excludes: seq<Path>, d: Node)
    requires d == Dir(map["db" := OneFile("f", 1)]) && !IsExcluded(path, excludes)
    ensures !IsExcluded(path + ["db"], excludes) && !IsExcluded(path + ["db"] + ["f"], excludes) ==>
              WalkBytes(d, path, excludes) == [1] && Kept(d, path, excludes) == Some(d)
    ensures IsExcluded(path + ["db"], excludes) ==> WalkBytes(d, path, excludes) == [] && Kept(d, path, excludes) == Some(EMPTY)
  {
    OneChildWalk("db", OneFile("f", 1), path, excludes);
    OneChildKept("db", OneFile("f", 1), path, excludes);
    if !IsExcluded(path + ["db"], excludes) && !IsExcluded(path + ["db"] + ["f"], excludes) {
      OneFileWalk("f", 1, path + ["db"], excludes);
    }
  }

  lemma PairNotInSsl(dir: Path, excludes: seq<Path>, k: string, x: string, ssl: string)
    requires (excludes == [] || excludes == [dir + [ssl]]) && k != ssl && x != ssl
    ensures !IsExcluded(dir, excludes) && !IsExcluded(dir + [x], excludes)
    ensures !IsExcluded(dir + [k], excludes) && !IsExcluded(dir + [k] + [x], excludes)
  {
    OutsideSsl(dir, [x], ssl);
    OutsideSsl(dir, [k], ssl);
    OutsideSsl(dir, [k, x], ssl);
    assert dir + [k] + [x] == dir + [k, x];
  }

  lemma DatabaseHash(fs: Node, dir: Path, excludes: seq<Path>, d: Node)
    requires d == Dir(map["db" := OneFile("f", 1)]) && Lookup(fs, dir) == Some(d)
    requires excludes == [] || excludes == [dir + ["ssl"]]
    ensures HashDir(fs, dir, excludes) == Some([1]) && KeptDir(fs, dir, excludes) == Some(d)
  {
    assert "db"[0] < "f"[0] < "ssl"[0];
    PairNotInSsl(dir, excludes, "db", "f", "ssl");
    OneDatabaseWalk(dir, excludes, d);
  }

  lemma DatabaseLeftOut(fs: Node, dir: Path, d: Node)
    requires d == Dir(map["db" := OneFile("f", 1)]) && Lookup(fs, dir) == Some(d)
    ensures HashDir(fs, dir, [dir + ["db"]]) == Some([]) && Kept(d, dir, [dir + ["db"]]) == Some(EMPTY)
  {
    DatabaseExcluded(dir);
    OneDatabaseWalk(dir, [dir + ["db"]], d);
  }

  /** Included data is what an archive without it lacks at its end. */
  lemma BuildWithData(fs: Node, l: Layout, manifest: seq<Byte>)
    requires l.Named() && l.includeData && ArchiveDir(fs, l.dataDir, Base(l.dataDir), l.DataExcludes()).Some?
    requires BuildArchive(fs, l.(includeData := false), manifest).Some?
    ensures BuildArchive(fs, l, manifest) ==
            Some(BuildArchive(fs, l.(includeData := false), manifest).value +
                 ArchiveDir(fs, l.dataDir, Base(l.dataDir), l.DataExcludes()).value)
  {
    var first := [FileEntry(["manifest.json"], manifest)];
    var config, db := ArchiveDir(fs, l.configDir, Base(l.configDir), l.ConfigExcludes()).value, ArchiveDir(fs, l.dbDir, "db", []).value;
    assert first + config + db + [] == first + config + db;
  }

  lemma SharedDataExcludes(base: Path, includeSSL: bool)
    ensures SharedLayout(base, includeSSL, true).DataExcludes() == [base + ["db"]]
  {
    assert (base + ["db"])[..|base|] == base;
  }

  lemma SharedRestored(fs: Node, l: Layout, d: Node)
    requires l.Named() && !l.includeData && KeptDir(fs, l.configDir, l.ConfigExcludes()) == Some(d)
    requires KeptDir(fs, l.dbDir, []) == Some(OneFile("f", 1))
    ensures Restored(fs, l, []).children == map["manifest.json" := File([]), Base(l.configDir) := d, "db" := OneFile("f", 1)]
  {}

  /** Without the data, the archive of that directory extracts to the directory and its database. */
  lemma SharedWithoutData(l: Layout, base: Path, d: Node)
    requires GoodPath(base) && l == SharedLayout(base, l.includeSSL, false) && Base(base) != "db" && Base(base) != "manifest.json"
    requires d == Dir(map["db" := OneFile("f", 1)])
    ensures var archive := BuildArchive(OneDatabase(base), l, []);
            && archive.Some? && Plain(archive.value)
            && PutAll(Some(EMPTY), archive.value) ==
               Some(Some(Dir(map["manifest.json" := File([]), Base(base) := d, "db" := OneFile("f", 1)])))
  {
    OneDatabaseIs(base);
    DatabaseHash(OneDatabase(base), base, l.ConfigExcludes(), d);
    OneFileWalk("f", 1, base + ["db"], []);
    SharedRestored(OneDatabase(base), l, d);
    ArchiveRoundTrip(OneDatabase(base), l, []);
  }

  /** The data walk, which leaves the database out, then changes nothing. */
  lemma SharedData(fs: Node, base: Path, p: string, d: Node, there: Node, children: map<string, Node>)
    requires Lookup(fs, base) == Some(d) && d == Dir(map["db" := OneFile("f", 1)])
    requires Child(children, p) == Some(there) && there.Dir?
    ensures var archive := ArchiveDir(fs, base, p, [base + ["db"]]);
            archive.Some? && Plain(archive.value) && PutAll(Some(Dir(children)), archive.value) == Some(Some(Dir(children)))
  {
    DatabaseLeftOut(fs, base, d);
    EmptyChangesNothing(children, p, there, d, base);
  }

  lemma PutsNoMore(children: map<string, Node>, xs: seq<Entry>, ys: seq<Entry>)
    requires Plain(xs) && Plain(ys) && PutAll(Some(EMPTY), xs) == Some(Some(Dir(children)))
    requires PutAll(Some(Dir(children)), ys) == Some(Some(Dir(children)))
    ensures Plain(xs + ys) && PutAll(Some(EMPTY), xs + ys) == Some(Some(Dir(children)))
  {
    PutAllConcat(Some(EMPTY), xs, ys);
  }

  /** What the archive of that directory extracts to. */
  lemma SharedExtracted(l: Layout, base: Path, d: Node)
    requires GoodPath(base) && l == SharedLayout(base, l.includeSSL, true) && Base(base) != "db" && Base(base) != "manifest.json"
    requires d == Dir(map["db" := OneFile("f", 1)])
    ensures var archive := BuildArchive(OneDatabase(base), l, []);
            && archive.Some? && Plain(archive.value)
            && PutAll(Some(EMPTY), archive.value) ==
               Some(Some(Dir(map["manifest.json" := File([]), Base(base) := d, "db" := OneFile("f", 1)])))
  {
    var fs, p := OneDatabase(base), Base(base);
    var children := map["manifest.json" := File([]), p := d, "db" := OneFile("f", 1)];
    var config := BuildArchive(fs, l.(includeData := false), []);
    var data := ArchiveDir(fs, base, p, [base + ["db"]]);
    OneDatabaseIs(base);
    SharedWithoutData(l.(includeData := false), base, d);
    SharedData(fs, base, p, d, d, children);
    PutsNoMore(children, config.value, data.value);
    SharedDataExcludes(base, l.includeSSL);
    BuildWithData(fs, l, []);
  }

  lemma DatabaseExcluded(base: Path)
    ensures IsExcluded(base + ["db"], [base + ["db"]]) && !IsExcluded(base, [base + ["db"]])
  {
    assert IsUnder(base + ["db"], base + ["db"]) && base + ["db"] in [base + ["db"]];
  }

  lemma MergeEmpty(there: Node)
    requires there.Dir?
    ensures Merge(Some(there), EMPTY) == Some(there)
  {
    assert Values(Merges(there.children, EMPTY)) == map[] && there.children + map[] == there.children;
  }

  lemma EmptyChangesNothing(children: map<string, Node>, p: string, there: Node, d: Node, base: Path)
    requires Child(children, p) == Some(there) && there.Dir? && Kept(d, base, [base + ["db"]]) == Some(EMPTY)
    ensures var entries := PrefixAll(p, WalkEntries(d, base, [base + ["db"]]));
            Plain(entries) && PutAll(Some(Dir(children)), entries) == Some(Some(Dir(children)))
  {
    WalkMerges(d, base, [base + ["db"]], Some(there));
    MergeEmpty(there);
    PutAllUnderOneName(children, p, WalkEntries(d, base, [base + ["db"]]));
    assert children[p := there] == children;
  }

  /** One directory for config and data survives exactly when the data is not included, under a
      name that the archive does not use: included, its walk leaves the database out, but the
      extracted copy has it, from the config walk. */
  lemma SharedSurvivesIff(base: Path, includeSSL: bool, includeData: bool)
    requires GoodPath(base)
    ensures AlwaysSurvives(SharedLayout(base, includeSSL, includeData)) <==>
            !includeData && Base(base) != "db" && Base(base) != "manifest.json"
  {
    var l := SharedLayout(base, includeSSL, includeData);
    assert GoodPaths(l);
    if Base(base) == "manifest.json" {
      ManifestNameFails(l);
    } else if Base(base) == "db" && includeData {
      SharedNameFails(l, base);
    } else if Base(base) == "db" {
      assert "f"[0] != "ssl"[0] && "f"[0] != "db"[0];
      OneConfigFileInside(base, "db", "f");
      ConfigNameFails(l, "f");
    } else if !includeData {
      DistinctSurvives(l);
    } else {
      SharedDataFails(l, base);
    }
  }

  lemma SharedDataFails(l: Layout, base: Path)
    requires GoodPath(base) && l == SharedLayout(base, l.includeSSL, true) && Base(base) != "db" && Base(base) != "manifest.json"
    ensures !AlwaysSurvives(l)
  {
    var d := Dir(map["db" := OneFile("f", 1)]);
    var out := Dir(map["manifest.json" := File([]), Base(base) := d, "db" := OneFile("f", 1)]);
    SharedExtracted(l, base, d);
    SharedContent(l, base, d);
    SharedExtractedContent(l, base, d, out);
    assert |[1] + [1] + [1]| != |[1] + [1] + []|;
    OneDatabaseIs(base);
    Refutes(OneDatabase(base), l, [], out);
  }

  lemma SharedContent(l: Layout, base: Path, d: Node)
    requires GoodPath(base) && l == SharedLayout(base, l.includeSSL, true) && d == Dir(map["db" := OneFile("f", 1)])
    ensures Content(OneDatabase(base), l) == Some([1] + [1] + [])
  {
    OneDatabaseIs(base);
    DatabaseHash(OneDatabase(base), base, l.ConfigExcludes(), d);
    OneFileHash(OneDatabase(base), base + ["db"], "f");
    SharedDataExcludes(base, l.includeSSL);
    DatabaseLeftOut(OneDatabase(base), base, d);
    ContentOf(OneDatabase(base), l, [1], [1], []);
  }

  lemma SharedExtractedContent(l: Layout, base: Path, d: Node, out: Node)
    requires GoodPath(base) && l == SharedLayout(base, l.includeSSL, true) && Base(base) != "db"
    requires d == Dir(map["db" := OneFile("f", 1)]) && out.Dir?
    requires Child(out.children, Base(base)) == Some(d) && Child(out.children, "db") == Some(OneFile("f", 1))
    ensures Content(out, ExtractedLayout(l)) == Some([1] + [1] + [1])
  {
    var p, e := Base(base), ExtractedLayout(l);
    assert Lookup(out, [p]) == Some(d) && Lookup(out, ["db"]) == Some(OneFile("f", 1));
    DatabaseHash(out, [p], e.ConfigExcludes(), d);
    DatabaseHash(out, [p], [], d);
    OneFileHash(out, ["db"], "f");
    assert !e.DbNestedInData() by { assert e.dbDir[..1] == ["db"] && e.dataDir == [p]; }
    ContentOf(out, e, [1], [1], [1]);
  }

  // --- The shared directory named "db" ---

  lemma MergeBeside(d: Node, x: string)
    requires d.Dir? && x !in d.children
    ensures Merge(Some(d), OneFile(x, 1)) == Some(Dir(d.children[x := File([1])]))
  {
    assert Merges(d.children, OneFile(x, 1)) == map[x := Some(File([1]))];
    assert d.children + Values(map[x := Some(File([1]))]) == d.children[x := File([1])];
  }

  /** A file archived into a directory that has none of that name yet. */
  lemma FileBeside(children: map<string, Node>, p: string, d: Node, x: string, path: Path)
    requires Child(children, p) == Some(d) && d.Dir? && x !in d.children
    ensures var entries := PrefixAll(p, WalkEntries(OneFile(x, 1), path, []));
            && Plain(entries)
            && PutAll(Some(Dir(children)), entries) == Some(Some(Dir(children[p := Dir(d.children[x := File([1])])])))
  {
    OneFileWalk(x, 1, path, []);
    WalkMerges(OneFile(x, 1), path, [], Some(d));
    MergeBeside(d, x);
    PutAllUnderOneName(children, p, WalkEntries(OneFile(x, 1), path, []));
  }

  lemma PairWalk(j: string, k: string, m: Node, n: Node, path: Path, excludes: seq<Path>)
    requires Less(j, k) && !IsExcluded(path, excludes)
    ensures WalkBytes(Dir(map[j := m, k := n]), path, excludes) ==
            WalkBytes(m, path + [j], excludes) + WalkBytes(n, path + [k], excludes)
  {
    var d := Dir(map[j := m, k := n]);
    LessIsStrict(j, j);
    SortedPair(j, k);
    assert d.children.Keys == {j, k};
    var parts := ByteParts(d, path, excludes);
    assert parts == [WalkBytes(m, path + [j], excludes), WalkBytes(n, path + [k], excludes)];
    var rest := parts[1..];
    assert rest == [parts[1]] && rest[1..] == [];
    assert Flatten(rest) == parts[1] + Flatten<Byte>([]);
  }

  lemma PutThree(xs: seq<Entry>, ys: seq<Entry>, zs: seq<Entry>, one: map<string, Node>, two: map<string, Node>)
    requires Plain(xs) && Plain(ys) && Plain(zs) && PutAll(Some(EMPTY), xs) == Some(Some(Dir(one)))
    requires PutAll(Some(Dir(one)), ys) == Some(Some(Dir(two))) && PutAll(Some(Dir(two)), zs) == Some(Some(Dir(two)))
    ensures Plain(xs + ys + zs) && PutAll(Some(EMPTY), xs + ys + zs) == Some(Some(Dir(two)))
  {
    PutAllConcat(Some(EMPTY), xs, ys);
    PutsNoMore(two, xs + ys, zs);
  }

  /** The database walk puts the file of the database into what the config walk put under the name. */
  lemma SharedNameDb(fs: Node, dir: Path, d: Node, m: string, p: string, x: string)
    requires Lookup(fs, dir) == Some(OneFile(x, 1)) && m != p && d.Dir? && x !in d.children
    ensures var db := ArchiveDir(fs, dir, p, []);
            && db.Some? && Plain(db.value)
            && PutAll(Some(Dir(map[m := File([]), p := d])), db.value) ==
               Some(Some(Dir(map[m := File([]), p := Dir(d.children[x := File([1])])])))
  {
    var one := map[m := File([]), p := d];
    FileBeside(one, p, d, x, dir);
    assert one[p := Dir(d.children[x := File([1])])] == map[m := File([]), p := Dir(d.children[x := File([1])])];
  }

  lemma SharedNameExtracted(l: Layout, base: Path, d: Node, there: Node)
    requires GoodPath(base) && l == SharedLayout(base, l.includeSSL, true) && Base(base) == "db"
    requires d == Dir(map["db" := OneFile("f", 1)]) && there == Dir(d.children["f" := File([1])])
    ensures var archive := BuildArchive(OneDatabase(base), l, []);
            && archive.Some? && Plain(archive.value)
            && PutAll(Some(EMPTY), archive.value) == Some(Some(Dir(map["manifest.json" := File([]), "db" := there])))
  {
    var fs := OneDatabase(base);
    OneDatabaseIs(base);
    DatabaseHash(fs, base, l.ConfigExcludes(), d);
    assert "f"[0] != "db"[0];
    OneDirExtracted(fs, base, "db", l.ConfigExcludes(), [], "manifest.json", d);
    SharedNameDb(fs, base + ["db"], d, "manifest.json", "db", "f");
    var one, two := map["manifest.json" := File([]), "db" := d], map["manifest.json" := File([]), "db" := there];
    SharedData(fs, base, "db", d, there, two);
    SharedDataExcludes(base, l.includeSSL);
    var config, db, data :=
      ArchiveDir(fs, base, "db", l.ConfigExcludes()).value, ArchiveDir(fs, base + ["db"], "db", []).value, ArchiveDir(fs, base, "db", [base + ["db"]]).value;
    PutThree([FileEntry(["manifest.json"], [])] + config, db, data, one, two);
    ArchiveOf(fs, l, config, db, data);
  }

  lemma ArchiveOf(fs: Node, l: Layout, config: seq<Entry>, db: seq<Entry>, data: seq<Entry>)
    requires l.Named() && l.includeData && ArchiveDir(fs, l.configDir, Base(l.configDir), l.ConfigExcludes()) == Some(config)
    requires ArchiveDir(fs, l.dbDir, "db", []) == Some(db) && ArchiveDir(fs, l.dataDir, Base(l.dataDir), l.DataExcludes()) == Some(data)
    ensures BuildArchive(fs, l, []) == Some([FileEntry(["manifest.json"], [])] + config + db + data)
  {}

  lemma PairHash(out: Node, dir: Path, excludes: seq<Path>, k: string, x: string, ssl: string)
    requires Less(k, x) && Lookup(out, dir) == Some(Dir(map[k := OneFile(x, 1), x := File([1])]))
    requires (excludes == [] || excludes == [dir + [ssl]]) && k != ssl && x != ssl
    ensures HashDir(out, dir, excludes).Some? && |HashDir(out, dir, excludes).value| == 2
  {
    PairNotInSsl(dir, excludes, k, x, ssl);
    OneFileWalk(x, 1, dir + [k], excludes);
    PairWalk(k, x, OneFile(x, 1), File([1]), dir, excludes);
  }

  lemma SharedNameFails(l: Layout, base: Path)
    requires GoodPath(base) && l == SharedLayout(base, l.includeSSL, true) && Base(base) == "db"
    ensures !AlwaysSurvives(l)
  {
    var d := Dir(map["db" := OneFile("f", 1)]);
    var there := Dir(map["db" := OneFile("f", 1), "f" := File([1])]);
    assert there.children == d.children["f" := File([1])];
    var out, e := Dir(map["manifest.json" := File([]), "db" := there]), ExtractedLayout(l);
    SharedNameExtracted(l, base, d, there);
    SharedContent(l, base, d);
    assert Lookup(out, ["db"]) == Some(there);
    SharedNameContent(out, e, there);
    assert |[1] + [1] + []| == 2;
    OneDatabaseIs(base);
    Refutes(OneDatabase(base), l, [], out);
  }

  lemma SharedNameContent(out: Node, e: Layout, there: Node)
    requires there == Dir(map["db" := OneFile("f", 1), "f" := File([1])]) && Lookup(out, ["db"]) == Some(there)
    requires e == Layout(["db"], ["db"], ["db"], e.includeSSL, true)
    ensures Content(out, e).Some? && |Content(out, e).value| >= 4
  {
    assert "db"[0] < "f"[0] < "ssl"[0];
    PairHash(out, ["db"], e.ConfigExcludes(), "db", "f", "ssl");
    PairHash(out, ["db"], [], "db", "f", "ssl");
  }
}
