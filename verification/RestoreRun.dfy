/** The restore command in `src/main.go`: the extracted config directory, database and data
    directory are swapped into their places one after another. */
module RestoreRun {
  import opened Options
  import opened FileTree
  import opened Backup
  import opened BackupLayout
  import Restore

  /** Something other than a directory stands on the way to `dir`. */
  predicate Blocked(n: Node, dir: Path)
    decreases |dir|
  {
    dir != [] && (!n.Dir? || (dir[0] in n.children && |dir| > 1 && Blocked(n.children[dir[0]], dir[1..])))
  }

  /** The live file system and what is still in the temporary directory. */
  datatype Stage = Stage(fs: Node, out: map<string, Node>)

  /** Whether each of the three swaps could rename its directory. Where it could not, the
      directory was copied and stays in the temporary directory. */
  datatype Renames = Renames(config: bool, db: bool, data: bool)

  /** One completed `restoreReplaceDir`, when there is something under that name at all. */
  function Swap(s: Stage, name: string, dir: Path, renamed: bool): Option<Stage> {
    if name !in s.out then Some(s)
    else if Blocked(s.fs, dir) then None
    else Some(Stage(SetAt(s.fs, dir, s.out[name]), if renamed then s.out - {name} else s.out))
  }

  /** The extracted config directory, with the live ssl directory copied into it when the
      archive has none; None when that copy fails. */
  function CarrySsl(fs: Node, l: Layout, config: Node): Option<Node> {
    var ssl := Lookup(fs, l.SslDir());
    if Lookup(config, ["ssl"]).Some? || ssl.None? || ssl.value == Link(Nothing) then Some(config)
    else if !config.Dir? then None
    else
      var (left, copied) := Restore.CopyUpTo(None, Restore.CopyWalk(ssl.value), None);
      if copied && left.Some? then Some(Dir(config.children["ssl" := left.value])) else None
  }

  function NewConfig(fs: Node, l: Layout, out: map<string, Node>): Option<Node>
    requires l.Named()
  {
    if Base(l.configDir) in out then CarrySsl(fs, l, out[Base(l.configDir)]) else None
  }

  function Carried(s: Stage, l: Layout): Option<Stage>
    requires l.Named()
  {
    if Base(l.configDir) !in s.out then Some(s)
    else
      var config := CarrySsl(s.fs, l, s.out[Base(l.configDir)]);
      if config.None? then None else Some(s.(out := s.out[Base(l.configDir) := config.value]))
  }

  /** The first two swaps, config and database; None when one of them stopped the command. */
  function RestoreTwo(fs: Node, l: Layout, out: map<string, Node>, r: Renames): Option<Stage>
    requires l.Named()
  {
    var zero := Carried(Stage(fs, out), l);
    if zero.None? then None
    else
      var one := Swap(zero.value, Base(l.configDir), l.configDir, r.config);
      if one.None? then None else Swap(one.value, "db", l.dbDir, r.db)
  }

  /** All three swaps in their order. */
  function RestoreAll(fs: Node, l: Layout, out: map<string, Node>, r: Renames): Option<Node>
    requires l.Named()
  {
    var two := RestoreTwo(fs, l, out, r);
    if two.None? then None
    else
      var three := Swap(two.value, Base(l.dataDir), l.dataDir, r.data);
      if three.None? then None else Some(three.value.fs)
  }

  lemma SwapThere(s: Stage, name: string, dir: Path, renamed: bool)
    requires name in s.out && Swap(s, name, dir, renamed).Some?
    ensures Lookup(Swap(s, name, dir, renamed).value.fs, dir) == Some(s.out[name])
  {
    SetThere(s.fs, dir, s.out[name]);
  }

  lemma SwapElsewhere(s: Stage, name: string, dir: Path, renamed: bool, other: Path)
    requires Swap(s, name, dir, renamed).Some? && !Overlap(dir, other)
    ensures Lookup(Swap(s, name, dir, renamed).value.fs, other) == Lookup(s.fs, other)
  {
    if name in s.out { SetElsewhere(s.fs, dir, s.out[name], other); }
  }

  /** No call of a restore fails; a rename may still need the copy in its place. */
  predicate AllWork(o: Restore.Outcomes) {
    o.staleRemainder.None? && o.statWorks && o.moveAsideWorks && o.mkdirWorks && o.copyFault.None? && o.finalRemainder.None?
  }

  /** With working calls and a source without links, as every extracted directory is, a swap is
      what `restoreReplaceDir` does to the source and to the destination, whether it can rename
      or has to copy, and nothing is left beside the destination. */
  lemma SwapIsReplaceDir(s: Stage, name: string, dir: Path, aside: Option<Node>, o: Restore.Outcomes)
    requires name in s.out && HasNoLinks(s.out[name]) && Swap(s, name, dir, o.renameWorks).Some? && AllWork(o)
    ensures var r, t := Restore.ReplaceDir(Restore.Places(Some(s.out[name]), Lookup(s.fs, dir), aside), o), Swap(s, name, dir, o.renameWorks).value;
            && r.result.Done? && r.places.aside.None?
            && r.places.dst == Lookup(t.fs, dir) && r.places.src == Child(t.out, name)
  {
    var p := Restore.Places(Some(s.out[name]), Lookup(s.fs, dir), aside);
    NoLinksToFollow(s.out[name]);
    Restore.CopyReproducesSource(s.out[name], None);
    Restore.CompletedRestoreHoldsSource(p, o);
    SwapThere(s, name, dir, o.renameWorks);
  }

  /** What stands under the data directory's name when the third swap looks for it: the archived
      data, or a config directory or database of the same name that was copied and not renamed. */
  function Standing(fs: Node, l: Layout, out: map<string, Node>, r: Renames): Option<Node>
    requires l.Named()
  {
    if Base(l.dataDir) == Base(l.configDir) then if r.config then None else NewConfig(fs, l, out)
    else if Base(l.dataDir) == "db" then if r.db then None else Child(out, "db")
    else Child(out, Base(l.dataDir))
  }

  lemma ThirdSwapFinds(fs: Node, l: Layout, out: map<string, Node>, r: Renames)
    requires l.Named() && Base(l.configDir) != "db" && RestoreTwo(fs, l, out, r).Some?
    ensures Child(RestoreTwo(fs, l, out, r).value.out, Base(l.dataDir)) == Standing(fs, l, out, r)
  {}

  /** The config directory and the database after the first two swaps. */
  lemma AfterTwo(fs: Node, l: Layout, out: map<string, Node>, r: Renames, other: Path)
    requires Proper(l) && Base(l.configDir) != "db" && RestoreTwo(fs, l, out, r).Some?
    ensures var two := RestoreTwo(fs, l, out, r).value.fs;
            && Lookup(two, l.configDir) == (if Base(l.configDir) in out then NewConfig(fs, l, out) else Lookup(fs, l.configDir))
            && Lookup(two, l.dbDir) == (if "db" in out then Some(out["db"]) else Lookup(fs, l.dbDir))
            && (!Overlap(l.configDir, other) && !Overlap(l.dbDir, other) ==> Lookup(two, other) == Lookup(fs, other))
  {
    var zero := Carried(Stage(fs, out), l).value;
    var one := Swap(zero, Base(l.configDir), l.configDir, r.config).value;
    if Base(l.configDir) in out { SwapThere(zero, Base(l.configDir), l.configDir, r.config); }
    SwapElsewhere(zero, Base(l.configDir), l.configDir, r.config, l.dbDir);
    SwapElsewhere(one, "db", l.dbDir, r.db, l.configDir);
    if "db" in out { SwapThere(one, "db", l.dbDir, r.db); }
    if !Overlap(l.configDir, other) && !Overlap(l.dbDir, other) {
      SwapElsewhere(zero, Base(l.configDir), l.configDir, r.config, other);
      SwapElsewhere(one, "db", l.dbDir, r.db, other);
    }
  }

  /** The config directory is the archived one, plus the live ssl directory if the archive had none. */
  lemma ConfigComesBack(fs: Node, l: Layout, out: map<string, Node>, r: Renames)
    requires Proper(l) && Base(l.configDir) != "db" && RestoreAll(fs, l, out, r).Some?
    ensures Lookup(RestoreAll(fs, l, out, r).value, l.configDir) ==
            if Base(l.configDir) in out then NewConfig(fs, l, out) else Lookup(fs, l.configDir)
  {
    AfterTwo(fs, l, out, r, l.configDir);
    SwapElsewhere(RestoreTwo(fs, l, out, r).value, Base(l.dataDir), l.dataDir, r.data, l.configDir);
  }

  /** A live ssl directory survives a restore from an archive without one, links followed. */
  lemma LiveSslSurvives(fs: Node, l: Layout, out: map<string, Node>, r: Renames)
    requires Proper(l) && Base(l.configDir) != "db" && RestoreAll(fs, l, out, r).Some?
    requires Base(l.configDir) in out && Lookup(out[Base(l.configDir)], ["ssl"]).None?
    requires Lookup(fs, l.SslDir()).Some? && Lookup(fs, l.SslDir()).value != Link(Nothing)
    ensures Followed(Lookup(fs, l.SslDir()).value).Some?
    ensures Lookup(RestoreAll(fs, l, out, r).value, l.SslDir()) == Followed(Lookup(fs, l.SslDir()).value)
  {
    ConfigComesBack(fs, l, out, r);
    Restore.CopyReproducesSource(Lookup(fs, l.SslDir()).value, None);
    LookupThrough(RestoreAll(fs, l, out, r).value, l.configDir, ["ssl"]);
    var config := NewConfig(fs, l, out).value;
    assert Lookup(config, ["ssl"]) == Some(config.children["ssl"]);
  }

  /** A kept tree holds nothing at an excluded place. */
  lemma {:induction false} KeptLosesExcluded(n: Node, path: Path, excludes: seq<Path>, name: Path)
    requires IsExcluded(path + name, excludes) && Kept(n, path, excludes).Some?
    ensures Lookup(Kept(n, path, excludes).value, name) == None
    decreases |name|
  {
    assert name == [] ==> path + name == path;
    if name != [] && n.Dir? && name[0] in Kept(n, path, excludes).value.children {
      assert path + [name[0]] + name[1..] == path + name;
      KeptLosesExcluded(n.children[name[0]], path + [name[0]], excludes, name[1..]);
    }
  }

  /** Keeping twice keeps the same. */
  lemma {:induction false} KeptIsStable(n: Node, path: Path, excludes: seq<Path>)
    requires Kept(n, path, excludes).Some?
    ensures Kept(Kept(n, path, excludes).value, path, excludes) == Kept(n, path, excludes)
    decreases n
  {
    if n.Dir? {
      var kept := Kept(n, path, excludes).value;
      forall k | k in kept.children
        ensures Kept(kept.children[k], path + [k], excludes) == Some(kept.children[k])
      {
        KeptIsStable(n.children[k], path + [k], excludes);
      }
      assert Kept(kept, path, excludes).value.children == kept.children;
    }
  }

  // --- The data directory and the database ---

  lemma OverlapAbove(a: Path, b: Path, rest: Path)
    requires Overlap(a, b + rest)
    ensures Overlap(a, b)
  {
    var p := b + rest;
    assert p[..|b|] == b;
    if IsUnder(a, p) {
      assert a[..|b|] == a[..|p|][..|b|];
    } else if |a| <= |b| {
      assert b[..|a|] == p[..|a|];
    } else {
      assert a[..|b|] == p[..|a|][..|b|];
    }
  }

  /** A path below one of two places that do not lie in each other is apart from the other. */
  lemma ApartBelow(a: Path, b: Path, rest: Path)
    requires !Overlap(a, b)
    ensures !Overlap(a, b + rest)
  {
    if Overlap(a, b + rest) { OverlapAbove(a, b, rest); }
  }

  /** Every place in `dir` that neither leads to `except` nor lies in it is as it was. */
  ghost predicate LeftAlone(fs: Node, after: Node, dir: Path, except: Path) {
    forall rest: Path :: !Overlap(except, dir + rest) ==> Lookup(after, dir + rest) == Lookup(fs, dir + rest)
  }

  /** The data directory is whatever stood under its name, or nothing in it has changed but
      what belongs to the database. */
  lemma DataAfterRestore(fs: Node, l: Layout, out: map<string, Node>, r: Renames)
    requires Proper(l) && Base(l.configDir) != "db" && RestoreAll(fs, l, out, r).Some?
    ensures Standing(fs, l, out, r).Some? ==> Lookup(RestoreAll(fs, l, out, r).value, l.dataDir) == Standing(fs, l, out, r)
    ensures Standing(fs, l, out, r).None? ==> LeftAlone(fs, RestoreAll(fs, l, out, r).value, l.dataDir, l.dbDir)
  {
    ThirdSwapFinds(fs, l, out, r);
    var two := RestoreTwo(fs, l, out, r).value;
    if Standing(fs, l, out, r).Some? {
      SwapThere(two, Base(l.dataDir), l.dataDir, r.data);
    } else {
      forall rest: Path | !Overlap(l.dbDir, l.dataDir + rest)
        ensures Lookup(two.fs, l.dataDir + rest) == Lookup(fs, l.dataDir + rest)
      {
        ApartBelow(l.configDir, l.dataDir, rest);
        AfterTwo(fs, l, out, r, l.dataDir + rest);
      }
    }
  }

  /** Where the database lies inside the data directory, relative to it. */
  function Inside(l: Layout): Path
    requires l.DbNestedInData()
  {
    l.dbDir[|l.dataDir|..]
  }

  /** The database is what the second swap made it, unless it lies inside a data directory that
      the third swap replaced: then it is whatever that holds in its place. */
  lemma DatabaseAfterRestore(fs: Node, l: Layout, out: map<string, Node>, r: Renames)
    requires Proper(l) && Base(l.configDir) != "db" && RestoreAll(fs, l, out, r).Some?
    ensures Lookup(RestoreAll(fs, l, out, r).value, l.dbDir) ==
            if l.DbNestedInData() && Standing(fs, l, out, r).Some? then Lookup(Standing(fs, l, out, r).value, Inside(l))
            else if "db" in out then Some(out["db"])
            else Lookup(fs, l.dbDir)
  {
    ThirdSwapFinds(fs, l, out, r);
    AfterTwo(fs, l, out, r, l.dbDir);
    if Standing(fs, l, out, r).Some? {
      if l.DbNestedInData() {
        DataAfterRestore(fs, l, out, r);
        assert l.dbDir == l.dataDir + Inside(l);
        LookupThrough(RestoreAll(fs, l, out, r).value, l.dataDir, Inside(l));
      } else {
        SwapElsewhere(RestoreTwo(fs, l, out, r).value, Base(l.dataDir), l.dataDir, r.data, l.dbDir);
      }
    }
  }

  // --- What a restore gives back ---

  function ArchivedConfig(before: Node, l: Layout): Option<Node> {
    KeptDir(before, l.configDir, l.ConfigExcludes())
  }

  function ArchivedDb(before: Node, l: Layout): Option<Node> {
    KeptDir(before, l.dbDir, [])
  }

  function ArchivedData(before: Node, l: Layout): Option<Node> {
    if l.includeData then KeptDir(before, l.dataDir, l.DataExcludes()) else None
  }

  /** What is archived is back, and what is not is left as it was: the config directory with its
      ssl directory, the database, and the data directory outside the database. */
  ghost predicate GivenBack(before: Node, fs: Node, l: Layout, after: Node) {
    var config, db, data := ArchivedConfig(before, l), ArchivedDb(before, l), ArchivedData(before, l);
    && Lookup(after, l.configDir) == (if config.Some? then CarrySsl(fs, l, config.value) else Lookup(fs, l.configDir))
    && (if db.Some? then Lookup(after, l.dbDir) == db
        else (l.DbNestedInData() && data.Some?) || Lookup(after, l.dbDir) == Lookup(fs, l.dbDir))
    && (if data.Some? then KeptDir(after, l.dataDir, l.DataExcludes()) == data else LeftAlone(fs, after, l.dataDir, l.dbDir))
  }

  /** Data that is not archived, while an extracted entry that is no data still stands under its name. */
  predicate Mistaken(before: Node, l: Layout, r: Renames)
    requires l.Named()
  {
    !l.includeData &&
    (|| Base(l.dataDir) == "manifest.json"
     || (Base(l.dataDir) == Base(l.configDir) && ArchivedConfig(before, l).Some? && !r.config)
     || (Base(l.dataDir) == "db" && ArchivedDb(before, l).Some? && !r.db))
  }

  /** What the extracted archive holds under each name. */
  lemma ExtractedParts(before: Node, l: Layout, manifest: seq<Byte>)
    requires l.Named() && DistinctNames(l)
    ensures var out := Restored(before, l, manifest).children;
            && Child(out, Base(l.configDir)) == ArchivedConfig(before, l)
            && Child(out, "db") == ArchivedDb(before, l)
            && Child(out, "manifest.json") == Some(File(manifest))
            && (l.includeData ==> Child(out, Base(l.dataDir)) == ArchivedData(before, l))
            && (!l.includeData && Base(l.dataDir) != Base(l.configDir) && Base(l.dataDir) != "db" && Base(l.dataDir) != "manifest.json" ==>
                  Child(out, Base(l.dataDir)) == None)
  {}

  lemma StandingIs(before: Node, fs: Node, l: Layout, manifest: seq<Byte>, r: Renames)
    requires l.Named() && DistinctNames(l) && RestoreTwo(fs, l, Restored(before, l, manifest).children, r).Some?
    ensures var standing := Standing(fs, l, Restored(before, l, manifest).children, r);
            && (!Mistaken(before, l, r) ==> standing == ArchivedData(before, l))
            && (Mistaken(before, l, r) ==> standing.Some?)
  {
    ExtractedParts(before, l, manifest);
  }

  /** An archived data directory comes back. */
  lemma DataComesBack(before: Node, fs: Node, l: Layout, manifest: seq<Byte>, r: Renames)
    requires Proper(l) && DistinctNames(l) && RestoreAll(fs, l, Restored(before, l, manifest).children, r).Some?
    requires ArchivedData(before, l).Some?
    ensures var after := RestoreAll(fs, l, Restored(before, l, manifest).children, r).value;
            && Lookup(after, l.dataDir) == ArchivedData(before, l)
            && KeptDir(after, l.dataDir, l.DataExcludes()) == ArchivedData(before, l)
  {
    StandingIs(before, fs, l, manifest, r);
    DataAfterRestore(fs, l, Restored(before, l, manifest).children, r);
    KeptIsStable(StatDir(before, l.dataDir).root, l.dataDir, l.DataExcludes());
  }

  /** An archived data directory holds nothing where the database lies. */
  lemma DataHasNoDatabase(before: Node, l: Layout)
    requires l.DbNestedInData() && ArchivedData(before, l).Some?
    ensures Lookup(ArchivedData(before, l).value, Inside(l)) == None
  {
    assert l.dbDir == l.dataDir + Inside(l);
    assert l.dbDir in l.DataExcludes() && IsUnder(l.dbDir, l.dbDir);
    KeptLosesExcluded(StatDir(before, l.dataDir).root, l.dataDir, l.DataExcludes(), Inside(l));
  }

  /** The database is swapped in before a data directory that replaces its place. */
  predicate DatabaseSwappedAway(before: Node, l: Layout) {
    l.DbNestedInData() && ArchivedData(before, l).Some? && ArchivedDb(before, l).Some?
  }

  lemma GivesBack(before: Node, fs: Node, l: Layout, manifest: seq<Byte>, r: Renames)
    requires Proper(l) && DistinctNames(l) && RestoreAll(fs, l, Restored(before, l, manifest).children, r).Some?
    requires !DatabaseSwappedAway(before, l) && !Mistaken(before, l, r)
    ensures GivenBack(before, fs, l, RestoreAll(fs, l, Restored(before, l, manifest).children, r).value)
  {
    var out := Restored(before, l, manifest).children;
    ExtractedParts(before, l, manifest);
    StandingIs(before, fs, l, manifest, r);
    ConfigComesBack(fs, l, out, r);
    DatabaseAfterRestore(fs, l, out, r);
    if ArchivedData(before, l).Some? {
      DataComesBack(before, fs, l, manifest, r);
    } else {
      DataAfterRestore(fs, l, out, r);
    }
  }

  // --- And what it does not ---

  lemma {:induction false} SetLeavesOpen(n: Node, path: Path, v: Node, dir: Path)
    requires n.Dir? && !Blocked(n, dir) && !IsUnder(dir, path)
    ensures SetAt(n, path, v).Dir? && !Blocked(SetAt(n, path, v), dir)
    decreases |path|
  {
    UnderRoot(dir);
    if dir != [] && path[0] == dir[0] && |dir| > 1 {
      var inner := if path[0] in n.children then n.children[path[0]] else EMPTY;
      assert path == [dir[0]] + path[1..] && dir == [dir[0]] + dir[1..];
      UnderBelow(dir[0], dir[1..], path[1..]);
      SetLeavesOpen(inner, path[1..], v, dir[1..]);
    }
  }

  /** A restore into a tree in which nothing is in the way, and with no live ssl directory, completes. */
  lemma RestoreCompletes(fs: Node, l: Layout, out: map<string, Node>, r: Renames)
    requires Proper(l) && fs.Dir? && Lookup(fs, l.SslDir()) == None
    requires !Blocked(fs, l.configDir) && !Blocked(fs, l.dbDir) && !Blocked(fs, l.dataDir)
    ensures RestoreAll(fs, l, out, r).Some? && NewConfig(fs, l, out) == Child(out, Base(l.configDir))
  {
    var zero := Carried(Stage(fs, out), l).value;
    if Base(l.configDir) in zero.out {
      SetLeavesOpen(fs, l.configDir, zero.out[Base(l.configDir)], l.dbDir);
      SetLeavesOpen(fs, l.configDir, zero.out[Base(l.configDir)], l.dataDir);
    }
    var one := Swap(zero, Base(l.configDir), l.configDir, r.config).value;
    if "db" in one.out { SetLeavesOpen(one.fs, l.dbDir, one.out["db"], l.dataDir); }
  }

  lemma NothingBlocks(dir: Path)
    ensures !Blocked(EMPTY, dir)
  {}

  /** A live tree whose data directory holds one file beside the database. */
  function LiveData(l: Layout, x: string, b: Byte): Node {
    SetAt(EMPTY, l.dataDir + [x], File([b]))
  }

  predicate BesideDatabase(l: Layout, x: string) {
    l.DbNestedInData() && |l.dataDir| < |l.dbDir| ==> x != l.dbDir[|l.dataDir|]
  }

  lemma UnderOneMore(data: Path, x: string, db: Path)
    requires IsUnder(data + [x], db)
    ensures IsUnder(data, db) || db == data + [x]
  {
    if |db| <= |data| { assert data[..|db|] == (data + [x])[..|db|]; } else { assert (data + [x])[..|db|] == data + [x]; }
  }

  lemma OverlapBeside(data: Path, db: Path, x: string)
    requires Overlap(db, data + [x]) && !IsUnder(data, db)
    ensures IsUnder(db, data) && |data| < |db| && db[|data|] == x
  {
    var p := data + [x];
    if IsUnder(p, db) { UnderOneMore(data, x, db); }
    assert db[..|p|] == p && db[..|data|] == db[..|p|][..|data|] && db[|data|] == db[..|p|][|data|];
  }

  lemma BesideIsApart(l: Layout, x: string)
    requires Proper(l) && BesideDatabase(l, x)
    ensures !Overlap(l.dbDir, l.dataDir + [x])
  {
    if Overlap(l.dbDir, l.dataDir + [x]) { OverlapBeside(l.dataDir, l.dbDir, x); }
  }

  lemma LiveDataIsOpen(l: Layout, x: string, b: Byte)
    requires Proper(l) && BesideDatabase(l, x)
    ensures var fs := LiveData(l, x, b);
            && fs.Dir? && Lookup(fs, l.SslDir()) == None && Lookup(fs, l.dataDir + [x]) == Some(File([b]))
            && !Blocked(fs, l.configDir) && !Blocked(fs, l.dbDir) && !Blocked(fs, l.dataDir)
  {
    var p := l.dataDir + [x];
    BesideIsApart(l, x);
    ApartBelow(l.configDir, l.dataDir, [x]);
    NothingBlocks(l.configDir);
    NothingBlocks(l.dbDir);
    NothingBlocks(l.dataDir);
    SetLeavesOpen(EMPTY, p, File([b]), l.configDir);
    SetLeavesOpen(EMPTY, p, File([b]), l.dbDir);
    SetLeavesOpen(EMPTY, p, File([b]), l.dataDir);
    SetThere(EMPTY, p, File([b]));
    ApartBelow(p, l.configDir, ["ssl"]);
    SetElsewhere(EMPTY, p, File([b]), l.SslDir());
  }

  /** A live tree for which a restore does not give everything back. */
  lemma DoesNotGiveBack(before: Node, l: Layout, manifest: seq<Byte>, r: Renames) returns (fs: Node)
    requires Proper(l) && DistinctNames(l) && (DatabaseSwappedAway(before, l) || Mistaken(before, l, r))
    ensures RestoreAll(fs, l, Restored(before, l, manifest).children, r).Some?
    ensures !GivenBack(before, fs, l, RestoreAll(fs, l, Restored(before, l, manifest).children, r).value)
  {
    var x := "f" + if l.DbNestedInData() && |l.dataDir| < |l.dbDir| then l.dbDir[|l.dataDir|] else "";
    if Mistaken(before, l, r) {
      fs := MistakenTree(before, l, manifest, r, x);
    } else {
      fs := LiveData(l, x, 1);
      var out := Restored(before, l, manifest).children;
      LiveDataIsOpen(l, x, 1);
      RestoreCompletes(fs, l, out, r);
      StandingIs(before, fs, l, manifest, r);
      DatabaseAfterRestore(fs, l, out, r);
      DataHasNoDatabase(before, l);
    }
  }

  lemma MistakenTree(before: Node, l: Layout, manifest: seq<Byte>, r: Renames, x: string) returns (fs: Node)
    requires Proper(l) && DistinctNames(l) && Mistaken(before, l, r) && BesideDatabase(l, x)
    ensures RestoreAll(fs, l, Restored(before, l, manifest).children, r).Some?
    ensures !GivenBack(before, fs, l, RestoreAll(fs, l, Restored(before, l, manifest).children, r).value)
  {
    var out := Restored(before, l, manifest).children;
    LiveDataIsOpen(l, x, 1);
    LiveDataIsOpen(l, x, 2);
    RestoreCompletes(LiveData(l, x, 1), l, out, r);
    RestoreCompletes(LiveData(l, x, 2), l, out, r);
    StandingIs(before, LiveData(l, x, 1), l, manifest, r);
    var standing := Standing(LiveData(l, x, 1), l, out, r);
    var b: Byte := if Lookup(standing.value, [x]) == Some(File([1])) then 2 else 1;
    fs := LiveData(l, x, b);
    assert Standing(fs, l, out, r) == standing;
    DataAfterRestore(fs, l, out, r);
    var after := RestoreAll(fs, l, out, r).value;
    LookupThrough(after, l.dataDir, [x]);
    BesideIsApart(l, x);
    assert !LeftAlone(fs, after, l.dataDir, l.dbDir);
  }

  /** Over every live tree, a completed restore gives back what is archived and leaves the rest as
      it was, exactly when the database does not lie inside the data directory with both archived,
      and no extracted entry is taken for a data directory that is not archived. */
  lemma RestoreGivesBackIff(before: Node, l: Layout, manifest: seq<Byte>, r: Renames)
    requires Proper(l) && DistinctNames(l)
    ensures !DatabaseSwappedAway(before, l) && !Mistaken(before, l, r) <==>
            forall fs: Node | RestoreAll(fs, l, Restored(before, l, manifest).children, r).Some? ::
              GivenBack(before, fs, l, RestoreAll(fs, l, Restored(before, l, manifest).children, r).value)
  {
    if DatabaseSwappedAway(before, l) || Mistaken(before, l, r) {
      var fs := DoesNotGiveBack(before, l, manifest, r);
    } else {
      forall fs: Node | RestoreAll(fs, l, Restored(before, l, manifest).children, r).Some?
        ensures GivenBack(before, fs, l, RestoreAll(fs, l, Restored(before, l, manifest).children, r).value)
      {
        GivesBack(before, fs, l, manifest, r);
      }
    }
  }

  /** Nothing could be renamed: every swap was a copy. */
  const ALL_COPIED := Renames(false, false, false)

  /** Whatever can be renamed, everything is given back exactly when that holds with nothing renamed. */
  lemma AlwaysGivesBackIff(before: Node, l: Layout, manifest: seq<Byte>)
    requires Proper(l) && DistinctNames(l)
    ensures !DatabaseSwappedAway(before, l) && !Mistaken(before, l, ALL_COPIED) <==>
            forall fs: Node, r: Renames | RestoreAll(fs, l, Restored(before, l, manifest).children, r).Some? ::
              GivenBack(before, fs, l, RestoreAll(fs, l, Restored(before, l, manifest).children, r).value)
  {
    if DatabaseSwappedAway(before, l) || Mistaken(before, l, ALL_COPIED) {
      var fs := DoesNotGiveBack(before, l, manifest, ALL_COPIED);
    } else {
      forall fs: Node, r: Renames | RestoreAll(fs, l, Restored(before, l, manifest).children, r).Some?
        ensures GivenBack(before, fs, l, RestoreAll(fs, l, Restored(before, l, manifest).children, r).value)
      {
        GivesBack(before, fs, l, manifest, r);
      }
    }
  }

  // --- The built-in layout on Linux ---

  /** `/etc/{org}/{project}`, `/var/lib/{org}/{project}` and the `db` directory in it, without options. */
  function LinuxLayout(org: string, project: string): Layout {
    Layout(["etc", org, project], ["var", "lib", org, project], ["var", "lib", org, project, "db"], false, false)
  }

  lemma LinuxLayoutIsProper(org: string, project: string)
    requires IsFileName(org) && IsFileName(project) && project != "db" && project != "manifest.json"
    ensures var l := LinuxLayout(org, project);
            Proper(l) && DistinctNames(l) && l.DbNestedInData() && Inside(l) == ["db"]
  {
    var l := LinuxLayout(org, project);
    assert "etc"[0] != "var"[0];
    if Overlap(l.configDir, l.dataDir) { SameStart(l.configDir, l.dataDir); }
    if Overlap(l.configDir, l.dbDir) { SameStart(l.configDir, l.dbDir); }
    assert l.dbDir[..4] == l.dataDir;
  }

  lemma SameStart(a: Path, b: Path)
    requires a != [] && b != [] && Overlap(a, b)
    ensures a[0] == b[0]
  {
    assert IsUnder(a, b) ==> a[..|b|][0] == a[0];
    assert IsUnder(b, a) ==> b[..|a|][0] == b[0];
  }

  /** On that layout every backup survives its verification. But when the temporary directory is on
      another file system, so that the config directory is copied, every restore of an archived
      config directory replaces the whole data directory with it, and the database just restored is
      gone unless the config directory happens to hold something of that name. */
  lemma LinuxRestoreReplacesData(org: string, project: string, before: Node, fs: Node, manifest: seq<Byte>, r: Renames)
    requires IsFileName(org) && IsFileName(project) && project != "db" && project != "manifest.json" && !r.config
    requires ArchivedConfig(before, LinuxLayout(org, project)).Some?
    requires RestoreAll(fs, LinuxLayout(org, project), Restored(before, LinuxLayout(org, project), manifest).children, r).Some?
    ensures var l := LinuxLayout(org, project);
            var after := RestoreAll(fs, l, Restored(before, l, manifest).children, r).value;
            && AlwaysSurvives(l)
            && Lookup(after, l.configDir).Some? && Lookup(after, l.dataDir) == Lookup(after, l.configDir)
            && Lookup(after, l.dbDir) == Lookup(Lookup(after, l.configDir).value, ["db"])
  {
    var l := LinuxLayout(org, project);
    LinuxLayoutIsProper(org, project);
    SurvivesIffDistinct(l);
    var out := Restored(before, l, manifest).children;
    ExtractedParts(before, l, manifest);
    StandingIs(before, fs, l, manifest, r);
    ConfigComesBack(fs, l, out, r);
    DataAfterRestore(fs, l, out, r);
    DatabaseAfterRestore(fs, l, out, r);
  }
}
