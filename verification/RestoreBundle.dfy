/** The restore command in `src/main.go` on the layouts of macOS and Windows, where the database
    and the data lie inside the config directory (`src/paths/paths.go`). */
module RestoreBundle {
  import opened Options
  import opened FileTree
  import opened Backup
  import opened BackupLayout
  import opened RestoreRun

  lemma {:induction false} LookupAbove(n: Node, dir: Path, rest: Path)
    requires Lookup(n, dir + rest).Some?
    ensures Lookup(n, dir).Some?
    decreases |dir|
  {
    if dir != [] {
      assert (dir + rest)[0] == dir[0] && (dir + rest)[1..] == dir[1..] + rest;
      LookupAbove(n.children[dir[0]], dir[1..], rest);
    }
  }

  /** A walk that meets no exclude keeps what a walk without excludes keeps. */
  lemma {:induction false} KeptOutside(n: Node, path: Path, excludes: seq<Path>)
    requires forall rest: Path :: !IsExcluded(path + rest, excludes)
    ensures Kept(n, path, excludes) == Kept(n, path, [])
    decreases n
  {
    assert path + [] == path;
    if n.Dir? {
      forall k | k in n.children ensures Kept(n.children[k], path + [k], excludes) == Kept(n.children[k], path + [k], []) {
        forall rest: Path ensures !IsExcluded(path + [k] + rest, excludes) { assert path + [k] + rest == path + ([k] + rest); }
        KeptOutside(n.children[k], path + [k], excludes);
      }
      assert Kept(n, path, excludes).value.children == Kept(n, path, []).value.children;
    }
  }

  lemma NothingExcluded(dir: Path, k: string, excludes: seq<Path>, ssl: string)
    requires (excludes == [] || excludes == [dir + [ssl]]) && k != ssl
    ensures !IsExcluded(dir, excludes) && forall rest: Path :: !IsExcluded(dir + [k] + rest, excludes)
  {
    forall rest: Path ensures !IsExcluded(dir + [k] + rest, excludes) {
      assert dir + [k] + rest == dir + ([k] + rest);
      OutsideSsl(dir, [k] + rest, ssl);
    }
  }

  /** What is archived of a directory inside the config directory is also archived as part of it. */
  lemma ArchivedInside(before: Node, dir: Path, k: string, excludes: seq<Path>)
    requires (excludes == [] || excludes == [dir + ["ssl"]]) && k != "ssl" && KeptDir(before, dir + [k], []).Some?
    ensures var config := KeptDir(before, dir, excludes);
            config.Some? && config.value.Dir? && Child(config.value.children, k) == KeptDir(before, dir + [k], [])
  {
    LookupAbove(before, dir, [k]);
    LookupThrough(before, dir, [k]);
    NothingExcluded(dir, k, excludes, "ssl");
    var d := Lookup(before, dir).value;
    assert Lookup(d, [k]) == Some(d.children[k]);
    KeptOutside(d.children[k], dir + [k], excludes);
  }

  /** Swapping in what a directory already holds does not change it. */
  lemma SwapsTheSame(s: Stage, name: string, dir: Path, k: string, renamed: bool, d: Node)
    requires Lookup(s.fs, dir) == Some(d) && Swap(s, name, dir + [k], renamed).Some?
    requires name in s.out ==> d.Dir? && Child(d.children, k) == Some(s.out[name])
    ensures Lookup(Swap(s, name, dir + [k], renamed).value.fs, dir) == Some(d)
  {
    if name in s.out {
      SetBelow(s.fs, dir, [k], s.out[name]);
      assert [k][1..] == [] && d.children[k := s.out[name]] == d.children;
    }
  }

  lemma SslIsCarried(fs: Node, l: Layout, config: Node, k: string)
    requires k != "ssl" && config.Dir? && k in config.children && CarrySsl(fs, l, config).Some?
    ensures var c := CarrySsl(fs, l, config).value; c.Dir? && Child(c.children, k) == Child(config.children, k)
  {}

  /** The config directory after the first two swaps, if the database lies inside it. */
  lemma BundleAfterTwo(before: Node, fs: Node, l: Layout, manifest: seq<Byte>, r: Renames)
    requires GoodPaths(l) && DistinctNames(l) && l.dbDir == l.configDir + ["db"] && ArchivedConfig(before, l).Some?
    requires RestoreTwo(fs, l, Restored(before, l, manifest).children, r).Some?
    ensures CarrySsl(fs, l, ArchivedConfig(before, l).value).Some?
    ensures Lookup(RestoreTwo(fs, l, Restored(before, l, manifest).children, r).value.fs, l.configDir) ==
            CarrySsl(fs, l, ArchivedConfig(before, l).value)
  {
    var out, config := Restored(before, l, manifest).children, ArchivedConfig(before, l).value;
    ExtractedParts(before, l, manifest);
    var zero := Carried(Stage(fs, out), l).value;
    SwapThere(zero, Base(l.configDir), l.configDir, r.config);
    var one := Swap(zero, Base(l.configDir), l.configDir, r.config).value;
    if "db" in out {
      assert "db"[0] != "ssl"[0];
      ArchivedInside(before, l.configDir, "db", l.ConfigExcludes());
      SslIsCarried(fs, l, config, "db");
    }
    SwapsTheSame(one, "db", l.configDir, "db", r.db, CarrySsl(fs, l, config).value);
  }

  /** No tree holds itself under a name. */
  lemma NotInItself(d: Node, k: string)
    requires d.Dir?
    ensures Child(d.children, k) != Some(d)
  {}

  /** Data and database inside the config directory: a completed restore brings the whole directory
      back, and the live ssl directory with it, exactly when no copied config directory is taken
      for data that is not included. */
  lemma BundledRestoreGivesBackIff(before: Node, fs: Node, base: Path, includeSSL: bool, includeData: bool, manifest: seq<Byte>, r: Renames)
    requires var l := BundledLayout(base, includeSSL, includeData);
             && GoodPath(base) && DistinctNames(l) && ArchivedConfig(before, l).Some?
             && RestoreAll(fs, l, Restored(before, l, manifest).children, r).Some?
    ensures var l := BundledLayout(base, includeSSL, includeData);
            Lookup(RestoreAll(fs, l, Restored(before, l, manifest).children, r).value, base) == CarrySsl(fs, l, ArchivedConfig(before, l).value) <==>
            !Mistaken(before, l, r)
  {
    var l := BundledLayout(base, includeSSL, includeData);
    var out := Restored(before, l, manifest).children;
    assert "data"[1] != "db"[1] && "data"[0] != "manifest.json"[0] && "data"[0] != "ssl"[0];
    assert Base(l.dataDir) == "data" && GoodPaths(l);
    BundleAfterTwo(before, fs, l, manifest, r);
    StandingIs(before, fs, l, manifest, r);
    ThirdSwapFinds(fs, l, out, r);
    var two, c := RestoreTwo(fs, l, out, r).value, CarrySsl(fs, l, ArchivedConfig(before, l).value).value;
    if Mistaken(before, l, r) {
      SetBelow(two.fs, base, ["data"], c);
      SelfNested(c, "data");
    } else {
      if "data" in two.out { BundledData(before, fs, l, base); }
      SwapsTheSame(two, "data", base, "data", r.data, c);
    }
  }

  lemma SelfNested(c: Node, k: string)
    ensures SetAt(c, [k], c) != c
  {
    assert [k][1..] == [];
    if c.Dir? { NotInItself(c, k); }
  }

  lemma BundledData(before: Node, fs: Node, l: Layout, base: Path)
    requires l == BundledLayout(base, l.includeSSL, true) && ArchivedData(before, l).Some?
    requires ArchivedConfig(before, l).Some? && CarrySsl(fs, l, ArchivedConfig(before, l).value).Some?
    ensures var c := CarrySsl(fs, l, ArchivedConfig(before, l).value).value; c.Dir? && Child(c.children, "data") == ArchivedData(before, l)
  {
    assert "data"[0] != "ssl"[0] && "data"[1] != "db"[1];
    OutsideSsl(base, ["db"], "data");
    ArchivedInside(before, base, "data", l.ConfigExcludes());
    SslIsCarried(fs, l, ArchivedConfig(before, l).value, "data");
  }

  /** One directory for config and data: a completed restore of a backup without included data
      brings the whole directory back, and the live ssl directory with it. */
  lemma SharedRestoreGivesBack(before: Node, fs: Node, base: Path, includeSSL: bool, manifest: seq<Byte>, r: Renames)
    requires var l := SharedLayout(base, includeSSL, false);
             && GoodPath(base) && DistinctNames(l) && ArchivedConfig(before, l).Some?
             && RestoreAll(fs, l, Restored(before, l, manifest).children, r).Some?
    ensures var l := SharedLayout(base, includeSSL, false);
            Lookup(RestoreAll(fs, l, Restored(before, l, manifest).children, r).value, base) == CarrySsl(fs, l, ArchivedConfig(before, l).value)
  {
    var l := SharedLayout(base, includeSSL, false);
    var out := Restored(before, l, manifest).children;
    BundleAfterTwo(before, fs, l, manifest, r);
    ExtractedParts(before, l, manifest);
    ThirdSwapFinds(fs, l, out, r);
    var two := RestoreTwo(fs, l, out, r).value;
    if Base(base) in two.out { SwapThere(two, Base(base), base, r.data); }
  }
}
