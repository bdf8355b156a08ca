/** What a backup archive holds, file by file, and what its checksum digests
    (`src/backup_crypto.go`): stated on the directories themselves. */
module BackupContents {
  import opened Options
  import opened Strings
  import opened FileTree
  import opened Backup

  // --- Entries of one walk ---

  /** The entry describes what is at its place. */
  predicate Describes(e: Entry, there: Option<Node>) {
    match e
    case DirEntry(_) => there.Some? && there.value.Dir?
    case FileEntry(_, data) => there == Some(File(data))
    case OtherEntry(_) => false
  }

  function Renamed(e: Entry, name: Path): Entry {
    match e
    case DirEntry(_) => DirEntry(name)
    case FileEntry(_, data) => FileEntry(name, data)
    case OtherEntry(_) => OtherEntry(name)
  }

  lemma PrefixedHolds(k: string, entries: seq<Entry>, e: Entry)
    ensures e in PrefixAll(k, entries) <==> e.name != [] && e.name[0] == k && Renamed(e, e.name[1..]) in entries
  {
    var r := PrefixAll(k, entries);
    if e in r {
      var i :| 0 <= i < |r| && r[i] == e;
      assert e == Prefixed(k, entries[i]) && e.name[1..] == entries[i].name;
    }
    if e.name != [] && e.name[0] == k && Renamed(e, e.name[1..]) in entries {
      var i :| 0 <= i < |entries| && entries[i] == Renamed(e, e.name[1..]);
      assert [k] + e.name[1..] == e.name;
      assert r[i] == e;
    }
  }

  /** The entry describes something in the tree at `path` that no exclude covers. */
  predicate IsHeld(n: Node, path: Path, excludes: seq<Path>, e: Entry) {
    Describes(e, Lookup(n, e.name)) && !IsExcluded(path + e.name, excludes)
  }

  lemma HeldBelow(n: Node, path: Path, excludes: seq<Path>, e: Entry)
    requires n.Dir? && e.name != [] && e.name[0] in n.children
    ensures IsHeld(n, path, excludes, e) <==>
            IsHeld(n.children[e.name[0]], path + [e.name[0]], excludes, Renamed(e, e.name[1..]))
  {
    assert path + [e.name[0]] + e.name[1..] == path + e.name;
  }

  lemma HeldAtRoot(n: Node, path: Path, excludes: seq<Path>, e: Entry)
    requires !IsExcluded(path, excludes) && (e.name == [] || !n.Dir? || e.name[0] !in n.children)
    ensures IsHeld(n, path, excludes, e) <==> e.name == [] && Describes(e, Some(n))
  {
    assert path + [] == path;
  }

  /** A walk archives exactly the directories and regular files that no exclude covers. */
  lemma {:induction false} WalkHolds(n: Node, path: Path, excludes: seq<Path>, e: Entry)
    ensures e in WalkEntries(n, path, excludes) <==> IsHeld(n, path, excludes, e)
    decreases n
  {
    if IsExcluded(path, excludes) {
      ExcludedStaysExcluded(path, e.name, excludes);
    } else if !n.Dir? {
      HeldAtRoot(n, path, excludes, e);
    } else {
      DirectoryHolds(n, path, excludes, e);
      if e.name == [] || e.name[0] !in n.children {
        HeldAtRoot(n, path, excludes, e);
      } else {
        HeldBelow(n, path, excludes, e);
        WalkHolds(n.children[e.name[0]], path + [e.name[0]], excludes, Renamed(e, e.name[1..]));
      }
    }
  }

  lemma DirectoryHolds(n: Node, path: Path, excludes: seq<Path>, e: Entry)
    requires n.Dir? && !IsExcluded(path, excludes)
    ensures e in WalkEntries(n, path, excludes) <==>
            || e == DirEntry([])
            || (e.name != [] && e.name[0] in n.children &&
                Renamed(e, e.name[1..]) in WalkEntries(n.children[e.name[0]], path + [e.name[0]], excludes))
  {
    var parts, ks := EntryParts(n, path, excludes), SortedKeys(n.children.Keys);
    InFlatten(parts, e);
    forall i | 0 <= i < |parts|
      ensures e in parts[i] <==> e.name != [] && e.name[0] == ks[i] && ks[i] in n.children &&
                                 Renamed(e, e.name[1..]) in WalkEntries(n.children[ks[i]], path + [ks[i]], excludes)
    {
      assert ks[i] in ks;
      PrefixedHolds(ks[i], WalkEntries(n.children[ks[i]], path + [ks[i]], excludes), e);
    }
    if e.name != [] && e.name[0] in n.children {
      assert e.name[0] in ks;
      var i :| 0 <= i < |ks| && ks[i] == e.name[0];
      assert e in parts[i] <==> Renamed(e, e.name[1..]) in WalkEntries(n.children[ks[i]], path + [ks[i]], excludes);
    }
  }

  // --- Entries of an archive ---

  /** The entry, named `prefix` and a place below it, describes what is at that place in `dir`. */
  predicate IsFrom(fs: Node, dir: Path, prefix: string, e: Entry) {
    e.name != [] && e.name[0] == prefix && Describes(e, Lookup(fs, dir + e.name[1..]))
  }

  lemma {:induction false} LookupBelow(n: Node, dir: Path, rest: Path)
    ensures Lookup(n, dir + rest) == if Lookup(n, dir).Some? then Lookup(Lookup(n, dir).value, rest) else None
    decreases |dir|
  {
    if dir == [] {
      assert dir + rest == rest;
    } else {
      assert (dir + rest)[0] == dir[0] && (dir + rest)[1..] == dir[1..] + rest;
      if n.Dir? && dir[0] in n.children { LookupBelow(n.children[dir[0]], dir[1..], rest); }
    }
  }

  lemma ArchiveDirHolds(fs: Node, dir: Path, prefix: string, excludes: seq<Path>, e: Entry)
    requires ArchiveDir(fs, dir, prefix, excludes).Some?
    ensures e in ArchiveDir(fs, dir, prefix, excludes).value <==>
            IsFrom(fs, dir, prefix, e) && !IsExcluded(dir + e.name[1..], excludes)
  {
    if e.name != [] { LookupBelow(fs, dir, e.name[1..]); }
    if StatDir(fs, dir).Tree? {
      var n := StatDir(fs, dir).root;
      PrefixedHolds(prefix, WalkEntries(n, dir, excludes), e);
      if e.name != [] { WalkHolds(n, dir, excludes, Renamed(e, e.name[1..])); }
    }
  }

  lemma SslExcludedIff(l: Layout, rest: Path)
    ensures IsExcluded(l.configDir + rest, l.ConfigExcludes()) <==> !l.includeSSL && rest != [] && rest[0] == "ssl"
  {
    var place, ssl := l.configDir + rest, l.configDir + ["ssl"];
    if rest != [] {
      assert place[..|ssl|] == l.configDir + [rest[0]];
      assert place[..|ssl|][|l.configDir|] == rest[0] && ssl[|l.configDir|] == "ssl";
    }
    if !l.includeSSL { assert ssl in l.ConfigExcludes(); }
  }

  lemma DatabaseExcludedIff(l: Layout, place: Path)
    ensures IsExcluded(place, l.DataExcludes()) <==> l.dataDir <= l.dbDir <= place
  {
    if l.dataDir <= l.dbDir { assert l.dbDir[..|l.dataDir|] == l.dataDir; }
    if l.DbNestedInData() { assert l.dbDir in l.DataExcludes(); }
  }

  /** For every tree and layout, an archive holds exactly the manifest, the config directory
      without its ssl directory unless that is included, the database, and, if included, the data
      directory without a database inside it: each directory and regular file there is an entry,
      with its bytes, and nothing else is. */
  lemma ArchiveHoldsExactly(fs: Node, l: Layout, manifest: seq<Byte>, e: Entry)
    requires l.Named() && BuildArchive(fs, l, manifest).Some?
    ensures e in BuildArchive(fs, l, manifest).value <==>
            || e == FileEntry(["manifest.json"], manifest)
            || (IsFrom(fs, l.configDir, Base(l.configDir), e) && (l.includeSSL || |e.name| == 1 || e.name[1] != "ssl"))
            || IsFrom(fs, l.dbDir, "db", e)
            || (l.includeData && IsFrom(fs, l.dataDir, Base(l.dataDir), e) && !(l.dataDir <= l.dbDir <= l.dataDir + e.name[1..]))
  {
    var config := ArchiveDir(fs, l.configDir, Base(l.configDir), l.ConfigExcludes()).value;
    var db := ArchiveDir(fs, l.dbDir, "db", []).value;
    var data := if l.includeData then ArchiveDir(fs, l.dataDir, Base(l.dataDir), l.DataExcludes()).value else [];
    assert BuildArchive(fs, l, manifest).value == [FileEntry(["manifest.json"], manifest)] + config + db + data;
    ArchiveDirHolds(fs, l.configDir, Base(l.configDir), l.ConfigExcludes(), e);
    ArchiveDirHolds(fs, l.dbDir, "db", [], e);
    if l.includeData { ArchiveDirHolds(fs, l.dataDir, Base(l.dataDir), l.DataExcludes(), e); }
    if e.name != [] {
      SslExcludedIff(l, e.name[1..]);
      DatabaseExcludedIff(l, l.dataDir + e.name[1..]);
    }
  }

  /** Without `--include-ssl` no entry lies in the ssl directory; with it every file there is archived. */
  lemma SslArchivedIffIncluded(fs: Node, l: Layout, manifest: seq<Byte>)
    requires l.Named() && DistinctNames(l) && BuildArchive(fs, l, manifest).Some?
    ensures !l.includeSSL ==> forall e | e in BuildArchive(fs, l, manifest).value :: !([Base(l.configDir), "ssl"] <= e.name)
    ensures l.includeSSL ==>
              forall rest: Path, data: seq<Byte> | Lookup(fs, l.SslDir() + rest) == Some(File(data)) ::
                FileEntry([Base(l.configDir), "ssl"] + rest, data) in BuildArchive(fs, l, manifest).value
  {
    forall e | e in BuildArchive(fs, l, manifest).value && !l.includeSSL ensures !([Base(l.configDir), "ssl"] <= e.name) {
      ArchiveHoldsExactly(fs, l, manifest, e);
    }
    forall rest: Path, data: seq<Byte> | l.includeSSL && Lookup(fs, l.SslDir() + rest) == Some(File(data))
      ensures FileEntry([Base(l.configDir), "ssl"] + rest, data) in BuildArchive(fs, l, manifest).value
    {
      var name := [Base(l.configDir), "ssl"] + rest;
      assert l.configDir + name[1..] == l.SslDir() + rest;
      ArchiveHoldsExactly(fs, l, manifest, FileEntry(name, data));
    }
  }

  lemma InsideOf(dir: Path, prefix: string, inside: Path, name: Path)
    requires [prefix] + inside <= name
    ensures name[0] == prefix && dir + inside <= dir + name[1..]
  {
    assert name[0] == ([prefix] + inside)[0];
    assert name[1..][..|inside|] == ([prefix] + inside)[1..];
  }

  /** A database inside the data directory is archived once: every file of it as part of the
      database, and nothing of it as part of the data. */
  lemma DatabaseArchivedOnce(fs: Node, l: Layout, manifest: seq<Byte>, inside: Path)
    requires l.Named() && DistinctNames(l) && BuildArchive(fs, l, manifest).Some?
    requires l.includeData && l.dbDir == l.dataDir + inside
    ensures forall rest: Path, data: seq<Byte> | Lookup(fs, l.dbDir + rest) == Some(File(data)) ::
              FileEntry(["db"] + rest, data) in BuildArchive(fs, l, manifest).value
    ensures forall e | e in BuildArchive(fs, l, manifest).value :: !([Base(l.dataDir)] + inside <= e.name)
  {
    forall rest: Path, data: seq<Byte> | Lookup(fs, l.dbDir + rest) == Some(File(data))
      ensures FileEntry(["db"] + rest, data) in BuildArchive(fs, l, manifest).value
    {
      var name := ["db"] + rest;
      assert name[1..] == rest;
      ArchiveHoldsExactly(fs, l, manifest, FileEntry(name, data));
    }
    forall e | e in BuildArchive(fs, l, manifest).value ensures !([Base(l.dataDir)] + inside <= e.name) {
      if [Base(l.dataDir)] + inside <= e.name { InsideOf(l.dataDir, Base(l.dataDir), inside, e.name); }
      ArchiveHoldsExactly(fs, l, manifest, e);
    }
  }

  // --- What the checksum digests ---

  /** The bytes of the files among the entries, in their order. */
  function FileData(entries: seq<Entry>): seq<Byte> {
    if entries == [] then [] else (if entries[0].FileEntry? then entries[0].data else []) + FileData(entries[1..])
  }

  lemma {:induction false} FileDataConcat(xs: seq<Entry>, ys: seq<Entry>)
    ensures FileData(xs + ys) == FileData(xs) + FileData(ys)
    decreases |xs|
  {
    if xs == [] {
      assert xs + ys == ys;
    } else {
      assert (xs + ys)[1..] == xs[1..] + ys;
      FileDataConcat(xs[1..], ys);
    }
  }

  lemma {:induction false} FileDataPrefixed(k: string, entries: seq<Entry>)
    ensures FileData(PrefixAll(k, entries)) == FileData(entries)
    decreases |entries|
  {
    if entries != [] {
      assert PrefixAll(k, entries)[0] == Prefixed(k, entries[0]);
      assert PrefixAll(k, entries)[1..] == PrefixAll(k, entries[1..]);
      FileDataPrefixed(k, entries[1..]);
    }
  }

  lemma {:induction false} FileDataFlatten(parts: seq<seq<Entry>>, bytes: seq<seq<Byte>>)
    requires |parts| == |bytes| && forall i | 0 <= i < |parts| :: FileData(parts[i]) == bytes[i]
    ensures FileData(Flatten(parts)) == Flatten(bytes)
    decreases |parts|
  {
    if parts != [] {
      FileDataFlatten(parts[1..], bytes[1..]);
      FileDataConcat(parts[0], Flatten(parts[1..]));
    }
  }

  /** A walk feeds to the hash the bytes of the files it archives, in the order it archives them. */
  lemma {:induction false} WalkHashesItsFiles(n: Node, path: Path, excludes: seq<Path>)
    ensures WalkBytes(n, path, excludes) == FileData(WalkEntries(n, path, excludes))
    decreases n
  {
    if !IsExcluded(path, excludes) {
      if n.File? {
        var one := [FileEntry([], n.data)];
        assert one[1..] == [] && FileData(one) == n.data + FileData([]);
      } else if n.Dir? {
        var parts, bytes, ks := EntryParts(n, path, excludes), ByteParts(n, path, excludes), SortedKeys(n.children.Keys);
        forall i | 0 <= i < |parts| ensures FileData(parts[i]) == bytes[i] {
          assert ks[i] in ks;
          WalkHashesItsFiles(n.children[ks[i]], path + [ks[i]], excludes);
          FileDataPrefixed(ks[i], WalkEntries(n.children[ks[i]], path + [ks[i]], excludes));
        }
        FileDataFlatten(parts, bytes);
        FileDataConcat([DirEntry([])], Flatten(parts));
        assert [DirEntry([])][1..] == [] && FileData([DirEntry([])]) == [];
      }
    }
  }

  lemma DirHashesItsFiles(fs: Node, dir: Path, prefix: string, excludes: seq<Path>)
    requires ArchiveDir(fs, dir, prefix, excludes).Some?
    ensures HashDir(fs, dir, excludes) == Some(FileData(ArchiveDir(fs, dir, prefix, excludes).value))
  {
    if StatDir(fs, dir).Tree? {
      WalkHashesItsFiles(StatDir(fs, dir).root, dir, excludes);
      FileDataPrefixed(prefix, WalkEntries(StatDir(fs, dir).root, dir, excludes));
    }
  }

  /** The checksum digests exactly the bytes of the archived files after the manifest, in archive order. */
  lemma ChecksumDigestsArchive(fs: Node, l: Layout, manifest: seq<Byte>)
    requires l.Named() && BuildArchive(fs, l, manifest).Some?
    ensures Content(fs, l) == Some(FileData(BuildArchive(fs, l, manifest).value[1..]))
  {
    var config := ArchiveDir(fs, l.configDir, Base(l.configDir), l.ConfigExcludes()).value;
    var db := ArchiveDir(fs, l.dbDir, "db", []).value;
    var data := if l.includeData then ArchiveDir(fs, l.dataDir, Base(l.dataDir), l.DataExcludes()).value else [];
    DirHashesItsFiles(fs, l.configDir, Base(l.configDir), l.ConfigExcludes());
    DirHashesItsFiles(fs, l.dbDir, "db", []);
    if l.includeData { DirHashesItsFiles(fs, l.dataDir, Base(l.dataDir), l.DataExcludes()); }
    DataAfterFirst(FileEntry(["manifest.json"], manifest), config, db, data);
  }

  lemma DataAfterFirst(first: Entry, config: seq<Entry>, db: seq<Entry>, data: seq<Entry>)
    ensures FileData(([first] + config + db + data)[1..]) == FileData(config) + FileData(db) + FileData(data)
  {
    assert ([first] + config + db + data)[1..] == config + db + data;
    FileDataConcat(config + db, data);
    FileDataConcat(config, db);
  }
}
