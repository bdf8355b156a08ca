/** Which setting paths need a restart, a graceful reload or nothing special,
    and how these classes behave under path extension. */
module ReloadPaths {
  import opened Strings

  const RESTART_PREFIXES: seq<string> := [
    "server.port", "server.address", "server.daemonize",
    "ssl.", "server.ssl.", "database.", "server.database.", "tor.", "server.tor."
  ]

  predicate Dotted(prefix: string) {
    prefix != "" && prefix[|prefix| - 1] == '.'
  }

  predicate Matches(prefix: string, setting: string) {
    setting == TrimDot(prefix) || (Dotted(prefix) && HasPrefix(setting, prefix))
  }

  predicate RequiresRestart(setting: string) {
    exists p | p in RESTART_PREFIXES :: Matches(p, setting)
  }

  predicate IsRestartAncestor(path: string) {
    path == "" || exists p | p in RESTART_PREFIXES :: HasPrefix(TrimDot(p), path + ".")
  }

  predicate RequiresGraceful(setting: string) {
    || setting == "server.baseurl"
    || (HasPrefix(setting, "server.logging.") && setting != "server.logging.level")
    || setting in ["server.limits.read_timeout", "server.limits.write_timeout", "server.limits.idle_timeout",
                   "server.timeouts.read", "server.timeouts.write", "server.timeouts.idle"]
  }

  datatype Buckets = Buckets(hot: seq<string>, graceful: seq<string>, restart: seq<string>)

  predicate NeedsNoRestart(q: string) {
    !RequiresRestart(q)
  }

  predicate IsHot(q: string) {
    !RequiresRestart(q) && !RequiresGraceful(q)
  }

  predicate IsGraceful(q: string) {
    !RequiresRestart(q) && RequiresGraceful(q)
  }

  /** What the classifier loop computes: each bucket keeps its paths in order. */
  function Categorize(changes: seq<string>): Buckets {
    Buckets(Filter(IsHot, changes), Filter(IsGraceful, changes), Filter(RequiresRestart, changes))
  }

  /** `categorizeReloadChanges`. */
  method CategorizeReloadChanges(changes: seq<string>) returns (b: Buckets)
    ensures b == Categorize(changes)
  {
    var hot, graceful, restart := [], [], [];
    var i := 0;
    while i < |changes|
      invariant 0 <= i <= |changes|
      invariant Buckets(hot, graceful, restart) == Categorize(changes[..i])
    {
      var q := changes[i];
      CategorizeStep(changes, i);
      if RequiresRestart(q) {
        restart := restart + [q];
      } else if RequiresGraceful(q) {
        graceful := graceful + [q];
      } else {
        hot := hot + [q];
      }
      i := i + 1;
    }
    assert changes[..i] == changes;
    b := Buckets(hot, graceful, restart);
  }

  lemma FilterStep(keep: string -> bool, xs: seq<string>, i: nat)
    requires i < |xs|
    ensures Filter(keep, xs[..i + 1]) == Filter(keep, xs[..i]) + if keep(xs[i]) then [xs[i]] else []
  {
    assert xs[..i + 1] == xs[..i] + [xs[i]];
    FilterConcat(keep, xs[..i], [xs[i]]);
    assert [xs[i]][1..] == [];
  }

  lemma CategorizeStep(changes: seq<string>, i: nat)
    requires i < |changes|
    ensures var q, b := changes[i], Categorize(changes[..i]);
            Categorize(changes[..i + 1]) ==
              if RequiresRestart(q) then b.(restart := b.restart + [q])
              else if RequiresGraceful(q) then b.(graceful := b.graceful + [q])
              else b.(hot := b.hot + [q])
  {
    FilterStep(IsHot, changes, i);
    FilterStep(IsGraceful, changes, i);
    FilterStep(RequiresRestart, changes, i);
  }

  /** Every change lands in exactly one bucket. */
  lemma BucketsPartition(changes: seq<string>)
    ensures multiset(changes) ==
            multiset(Categorize(changes).hot) + multiset(Categorize(changes).graceful) +
            multiset(Categorize(changes).restart)
  {
    if changes != [] {
      var n := |changes| - 1;
      assert changes[..n + 1] == changes == changes[..n] + [changes[n]];
      BucketsPartition(changes[..n]);
      CategorizeStep(changes, n);
    }
  }

  // --- Extension of paths ---

  /** `q` is `path` itself or a setting below it. */
  predicate Extends(q: string, path: string) {
    HasPrefix(q, path) && (|q| == |path| || q[|path|] == '.' || q[|path|] == '[')
  }

  lemma ExtendsIsTransitive(a: string, b: string, c: string)
    requires Extends(a, b) && Extends(b, c)
    ensures Extends(a, c)
  {
    assert a[..|c|] == a[..|b|][..|c|];
    if |c| < |b| { assert a[|c|] == a[..|b|][|c|]; }
  }

  lemma PrefixesHaveNoBracket(p: string)
    requires p in RESTART_PREFIXES
    ensures '[' !in p
  {}

  /** Strictly below a dotted restart root. */
  predicate UnderDotted(path: string) {
    exists p | p in RESTART_PREFIXES :: Dotted(p) && HasPrefix(path, p)
  }

  lemma UnderDottedIsClosed(path: string, q: string)
    requires UnderDotted(path) && HasPrefix(q, path)
    ensures RequiresRestart(q) && UnderDotted(q)
  {
    var p :| p in RESTART_PREFIXES && Dotted(p) && HasPrefix(path, p);
    assert q[..|p|] == q[..|path|][..|p|];
    assert Matches(p, q);
  }

  /** One prefix cannot match an extension of `path` unless it matches `path`
      or has `path` as a proper ancestor. */
  lemma OnePrefixIsABarrier(p: string, path: string, q: string)
    requires '[' !in p && Extends(q, path) && Matches(p, q)
    ensures Matches(p, path) || (HasPrefix(TrimDot(p), path + ".") && q[|path|] == '.')
  {
    var root := TrimDot(p);
    if q == root {
      if |q| != |path| {
        assert root[|path|] in p by { assert root[|path|] == p[|path|]; }
        assert root[..|path| + 1] == path + ".";
      }
    } else {
      assert Dotted(p) && q[..|p|] == p && root == p[..|p| - 1];
      if |p| <= |path| {
        assert path[..|p|] == q[..|path|][..|p|] == q[..|p|];
      } else if |path| == |root| {
        assert path == q[..|path|] == q[..|p|][..|path|] == root;
      } else {
        assert q[|path|] == q[..|p|][|path|] == p[|path|];
        assert p[|path|] in p;
        assert root[..|path| + 1] == p[..|path| + 1] == q[..|p|][..|path| + 1] == q[..|path| + 1] == path + ".";
      }
    }
  }

  /** The preserve walk may stop at a path that neither needs a restart nor
      leads to one: nothing below it needs a restart. */
  lemma StopIsSafe(path: string, q: string)
    requires path != "" && !RequiresRestart(path) && Extends(q, path)
    requires !IsRestartAncestor(path) || (|q| == |path| || q[|path|] == '[')
    ensures !RequiresRestart(q)
  {
    if RequiresRestart(q) {
      var p :| p in RESTART_PREFIXES && Matches(p, q);
      PrefixesHaveNoBracket(p);
      OnePrefixIsABarrier(p, path, q);
    }
  }

  /** No plain restart root leads to another one. */
  lemma PlainRootsLeadNowhere(r: string, p: string)
    requires r in RESTART_PREFIXES && p in RESTART_PREFIXES && !Dotted(r)
    ensures !HasPrefix(p, r + ".") && !HasPrefix(TrimDot(p), r + ".")
  {
    assert r in ["server.port", "server.address", "server.daemonize"];
    forall x | x in RESTART_PREFIXES ensures |x| > 7 ==> x[7] != r[7] || |x| <= |r| {}
  }

  /** Below a plain root, or beside any root in a list, nothing needs a restart. */
  lemma OutsideRoot(path: string, q: string)
    requires RequiresRestart(path) && HasPrefix(q, path) && |q| > |path|
    requires (q[|path|] == '.' && !UnderDotted(path + ".")) || (q[|path|] == '[' && !UnderDotted(path))
    ensures !RequiresRestart(q)
  {
    if RequiresRestart(q) {
      var p :| p in RESTART_PREFIXES && Matches(p, q);
      PrefixesHaveNoBracket(p);
      if q[|path|] == '[' {
        MatchBeforeBracket(p, path, q);
      } else {
        var r :| r in RESTART_PREFIXES && Matches(r, path);
        RootIsPlain(r, path);
        PlainRootsLeadNowhere(r, p);
        MatchBelowDot(p, path, q);
      }
    }
  }

  lemma NoBracketNoReach(p: string, q: string, n: nat)
    requires '[' !in p && HasPrefix(q, p) && n < |q| && q[n] == '['
    ensures |p| <= n
  {
    assert forall i | 0 <= i < |p| :: q[i] == q[..|p|][i] == p[i] && p[i] in p;
  }

  lemma MatchBeforeBracket(p: string, path: string, q: string)
    requires '[' !in p && Matches(p, q) && HasPrefix(q, path) && |q| > |path| && q[|path|] == '['
    ensures Dotted(p) && HasPrefix(path, p)
  {
    assert q[|path|] in q && '[' !in TrimDot(p);
    assert q[..|p|] == p;
    NoBracketNoReach(p, q, |path|);
    assert path[..|p|] == q[..|path|][..|p|];
  }

  lemma DottedRootIsAbove(r: string, path: string)
    requires Dotted(r) && Matches(r, path)
    ensures HasPrefix(path + ".", r)
  {
    if path == TrimDot(r) { assert path + "." == r; } else { assert (path + ".")[..|r|] == path[..|r|]; }
  }

  lemma RootIsPlain(r: string, path: string)
    requires r in RESTART_PREFIXES && Matches(r, path) && !UnderDotted(path + ".")
    ensures !Dotted(r) && r == path
  {
    if Dotted(r) { DottedRootIsAbove(r, path); }
  }

  lemma MatchBelowDot(p: string, path: string, q: string)
    requires Matches(p, q) && HasPrefix(q, path) && |q| > |path| && q[|path|] == '.'
    ensures HasPrefix(p, path + ".") || HasPrefix(TrimDot(p), path + ".") || (Dotted(p) && HasPrefix(path + ".", p))
  {
    var d := path + ".";
    assert q[..|d|] == d;
    if q != TrimDot(p) {
      assert q[..|p|] == p;
      if |p| <= |d| { assert d[..|p|] == q[..|d|][..|p|]; } else { assert p[..|d|] == q[..|p|][..|d|]; }
    }
  }

  /** Below a child of a root, a path needs a restart exactly when the child lies under a dotted root. */
  lemma BelowChildOfRoot(path: string, d: string, child: string, q: string)
    requires RequiresRestart(path) && |child| > |path| && Extends(q, child)
    requires (d == path && HasPrefix(child, path) && child[|path|] == '[') || (d == path + "." && HasPrefix(child, d))
    ensures RequiresRestart(q) <==> UnderDotted(d)
  {
    assert child[|path|] == '[' || child[|path|] == child[..|d|][|path|] == '.';
    assert child[..|path|] == path by { if d != path { assert child[..|path|] == child[..|d|][..|path|]; } }
    assert q[..|path|] == q[..|child|][..|path|] && q[|path|] == q[..|child|][|path|];
    if UnderDotted(d) {
      assert q[..|d|] == q[..|child|][..|d|];
      UnderDottedIsClosed(d, q);
    } else {
      OutsideRoot(path, q);
    }
  }
}
