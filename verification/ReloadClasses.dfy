/** The prefix tests of `src/config/hot_reload.go` on setting paths, read segment by segment. */
module ReloadClasses {
  import opened Strings
  import opened ReloadPaths

  lemma {:induction false} JoinConcat(xs: seq<string>, ys: seq<string>, sep: char)
    requires xs != [] && ys != []
    ensures Join(xs + ys, sep) == Join(xs, sep) + [sep] + Join(ys, sep)
    decreases |xs|
  {
    assert (xs + ys)[1..] == xs[1..] + ys;
    if |xs| > 1 { JoinConcat(xs[1..], ys, sep); }
  }

  /** A path is the root, or continues it after a dot, exactly when its segments begin with those of the root. */
  lemma UnderRootIff(r: string, q: string)
    ensures q == r || HasPrefix(q, r + ".") <==> Split(r, '.') <= Split(q, '.')
  {
    if HasPrefix(q, r + ".") { ContinuesRoot(r, q); }
    if Split(r, '.') <= Split(q, '.') { BeginsWithRoot(r, q); }
  }

  lemma ContinuesRoot(r: string, q: string)
    requires HasPrefix(q, r + ".")
    ensures Split(r, '.') <= Split(q, '.')
  {
    var rest := q[|r| + 1..];
    assert q == r + ['.'] + rest;
    SplitConcat(r, rest, '.');
  }

  lemma BeginsWithRoot(r: string, q: string)
    requires Split(r, '.') <= Split(q, '.')
    ensures q == r || HasPrefix(q, r + ".")
  {
    var root, parts := Split(r, '.'), Split(q, '.');
    var rest := parts[|root|..];
    assert parts == root + rest;
    JoinSplit(q, '.');
    JoinSplit(r, '.');
    if rest == [] {
      assert parts == root;
    } else {
      JoinConcat(root, rest, '.');
      assert q == r + ['.'] + Join(rest, '.');
      assert q[..|r| + 1] == r + ".";
    }
  }

  lemma SameSegments(r: string, q: string)
    ensures q == r <==> Split(q, '.') == Split(r, '.')
  {
    JoinSplit(q, '.');
    JoinSplit(r, '.');
  }

  lemma OneSegment(a: string)
    requires '.' !in a
    ensures Split(a, '.') == [a]
  {
    SplitOne(a, '.');
  }

  lemma TwoSegments(a: string, b: string)
    requires '.' !in a && '.' !in b
    ensures Split(a + "." + b, '.') == [a, b]
  {
    SplitFirst(a, b, '.');
    SplitOne(b, '.');
  }

  lemma ThreeSegments(a: string, b: string, c: string)
    requires '.' !in a && '.' !in b && '.' !in c
    ensures Split(a + "." + b + "." + c, '.') == [a, b, c]
  {
    assert a + "." + b + "." + c == a + "." + (b + "." + c);
    SplitFirst(a, b + "." + c, '.');
    TwoSegments(b, c);
  }

  lemma DottedMatches(r: string, q: string)
    ensures Matches(r + ".", q) <==> Split(r, '.') <= Split(q, '.')
  {
    assert TrimDot(r + ".") == r;
    UnderRootIff(r, q);
  }

  lemma PlainMatches(r: string, q: string)
    requires !Dotted(r)
    ensures Matches(r, q) <==> Split(q, '.') == Split(r, '.')
  {
    SameSegments(r, q);
  }

  /** The settings of `server` that need a restart on their own. */
  lemma ServerSettings(q: string)
    ensures var s := Split(q, '.');
            && (Matches("server.port", q) <==> s == ["server", "port"])
            && (Matches("server.address", q) <==> s == ["server", "address"])
            && (Matches("server.daemonize", q) <==> s == ["server", "daemonize"])
  {
    assert "server" + "." + "port" == "server.port" && "server" + "." + "address" == "server.address";
    assert "server" + "." + "daemonize" == "server.daemonize";
    TwoSegments("server", "port");
    TwoSegments("server", "address");
    TwoSegments("server", "daemonize");
    PlainMatches("server.port", q);
    PlainMatches("server.address", q);
    PlainMatches("server.daemonize", q);
  }

  lemma TopSubtree(name: string, prefix: string, q: string)
    requires '.' !in name && prefix == name + "."
    ensures Matches(prefix, q) <==> [name] <= Split(q, '.')
  {
    OneSegment(name);
    DottedMatches(name, q);
  }

  lemma TopSubtrees(q: string)
    ensures var s := Split(q, '.');
            && (Matches("ssl.", q) <==> ["ssl"] <= s) && (Matches("database.", q) <==> ["database"] <= s) && (Matches("tor.", q) <==> ["tor"] <= s)
  {
    TopSubtree("ssl", "ssl.", q);
    TopSubtree("database", "database.", q);
    TopSubtree("tor", "tor.", q);
  }

  lemma ServerSubtree(name: string, root: string, prefix: string, q: string)
    requires '.' !in name && root == "server" + "." + name && prefix == root + "."
    ensures Matches(prefix, q) <==> ["server", name] <= Split(q, '.')
  {
    TwoSegments("server", name);
    DottedMatches(root, q);
  }

  lemma ServerSubtrees(q: string)
    ensures var s := Split(q, '.');
            && (Matches("server.ssl.", q) <==> ["server", "ssl"] <= s)
            && (Matches("server.database.", q) <==> ["server", "database"] <= s)
            && (Matches("server.tor.", q) <==> ["server", "tor"] <= s)
  {
    ServerSubtree("ssl", "server.ssl", "server.ssl.", q);
    ServerSubtree("database", "server.database", "server.database.", q);
    ServerSubtree("tor", "server.tor", "server.tor.", q);
  }

  /** Exactly which settings need a restart: the port, address and daemon mode of the server, and
      everything in the ssl, database and tor sections, at the top or in the server section. */
  lemma RestartIffSegments(q: string)
    ensures var s := Split(q, '.');
            RequiresRestart(q) <==>
            || s in [["server", "port"], ["server", "address"], ["server", "daemonize"]]
            || ["ssl"] <= s || ["database"] <= s || ["tor"] <= s
            || ["server", "ssl"] <= s || ["server", "database"] <= s || ["server", "tor"] <= s
  {
    ServerSettings(q);
    TopSubtrees(q);
    ServerSubtrees(q);
    AnyPrefix(q);
  }

  lemma AnyOfNine(f: string -> bool, ps: seq<string>)
    requires |ps| == 9
    ensures (exists p | p in ps :: f(p)) <==>
            f(ps[0]) || f(ps[1]) || f(ps[2]) || f(ps[3]) || f(ps[4]) || f(ps[5]) || f(ps[6]) || f(ps[7]) || f(ps[8])
  {
    if p :| p in ps && f(p) {
      var i :| 0 <= i < 9 && ps[i] == p;
    }
  }

  lemma AnyPrefix(q: string)
    ensures RequiresRestart(q) <==>
            || Matches("server.port", q) || Matches("server.address", q) || Matches("server.daemonize", q)
            || Matches("ssl.", q) || Matches("server.ssl.", q) || Matches("database.", q) || Matches("server.database.", q)
            || Matches("tor.", q) || Matches("server.tor.", q)
  {
    NinePrefixes();
    AnyMatch(q, RESTART_PREFIXES);
  }

  lemma NinePrefixes()
    ensures |RESTART_PREFIXES| == 9
    ensures RESTART_PREFIXES[0] == "server.port" && RESTART_PREFIXES[1] == "server.address" && RESTART_PREFIXES[2] == "server.daemonize"
    ensures RESTART_PREFIXES[3] == "ssl." && RESTART_PREFIXES[4] == "server.ssl." && RESTART_PREFIXES[5] == "database."
    ensures RESTART_PREFIXES[6] == "server.database." && RESTART_PREFIXES[7] == "tor." && RESTART_PREFIXES[8] == "server.tor."
  {}

  lemma AnyMatch(q: string, ps: seq<string>)
    requires ps == RESTART_PREFIXES && |ps| == 9
    ensures RequiresRestart(q) <==>
            || Matches(ps[0], q) || Matches(ps[1], q) || Matches(ps[2], q) || Matches(ps[3], q) || Matches(ps[4], q)
            || Matches(ps[5], q) || Matches(ps[6], q) || Matches(ps[7], q) || Matches(ps[8], q)
  {
    AnyOfNine((p: string) => Matches(p, q), ps);
  }

  lemma IsSetting(a: string, b: string, c: string, setting: string, q: string)
    requires '.' !in a && '.' !in b && '.' !in c && setting == a + "." + b + "." + c
    ensures q == setting <==> Split(q, '.') == [a, b, c]
  {
    ThreeSegments(a, b, c);
    SameSegments(setting, q);
  }

  lemma InLogging(q: string)
    ensures HasPrefix(q, "server.logging.") <==> ["server", "logging"] < Split(q, '.')
  {
    var root := "server.logging";
    assert root == "server" + "." + "logging" && root + "." == "server.logging.";
    TwoSegments("server", "logging");
    UnderRootIff(root, q);
    SameSegments(root, q);
    assert q == root ==> |q| < |"server.logging."|;
  }

  lemma ReadLimit(q: string)
    ensures q == "server.limits.read_timeout" <==> Split(q, '.') == ["server", "limits", "read_timeout"]
  {
    IsSetting("server", "limits", "read_timeout", "server.limits.read_timeout", q);
  }

  lemma WriteLimit(q: string)
    ensures q == "server.limits.write_timeout" <==> Split(q, '.') == ["server", "limits", "write_timeout"]
  {
    IsSetting("server", "limits", "write_timeout", "server.limits.write_timeout", q);
  }

  lemma IdleLimit(q: string)
    ensures q == "server.limits.idle_timeout" <==> Split(q, '.') == ["server", "limits", "idle_timeout"]
  {
    IsSetting("server", "limits", "idle_timeout", "server.limits.idle_timeout", q);
  }

  lemma LimitTimeouts(q: string)
    ensures q in ["server.limits.read_timeout", "server.limits.write_timeout", "server.limits.idle_timeout"] <==>
            Split(q, '.') in [["server", "limits", "read_timeout"], ["server", "limits", "write_timeout"], ["server", "limits", "idle_timeout"]]
  {
    ReadLimit(q);
    WriteLimit(q);
    IdleLimit(q);
  }

  lemma ReadTimeout(q: string)
    ensures q == "server.timeouts.read" <==> Split(q, '.') == ["server", "timeouts", "read"]
  {
    IsSetting("server", "timeouts", "read", "server.timeouts.read", q);
  }

  lemma WriteTimeout(q: string)
    ensures q == "server.timeouts.write" <==> Split(q, '.') == ["server", "timeouts", "write"]
  {
    IsSetting("server", "timeouts", "write", "server.timeouts.write", q);
  }

  lemma IdleTimeout(q: string)
    ensures q == "server.timeouts.idle" <==> Split(q, '.') == ["server", "timeouts", "idle"]
  {
    IsSetting("server", "timeouts", "idle", "server.timeouts.idle", q);
  }

  lemma PlainTimeouts(q: string)
    ensures q in ["server.timeouts.read", "server.timeouts.write", "server.timeouts.idle"] <==>
            Split(q, '.') in [["server", "timeouts", "read"], ["server", "timeouts", "write"], ["server", "timeouts", "idle"]]
  {
    ReadTimeout(q);
    WriteTimeout(q);
    IdleTimeout(q);
  }

  lemma LoggingButLevel(q: string)
    ensures HasPrefix(q, "server.logging.") && q != "server.logging.level" <==>
            ["server", "logging"] < Split(q, '.') && Split(q, '.') != ["server", "logging", "level"]
  {
    InLogging(q);
    IsSetting("server", "logging", "level", "server.logging.level", q);
  }

  lemma BaseUrl(q: string)
    ensures q == "server.baseurl" <==> Split(q, '.') == ["server", "baseurl"]
  {
    assert "server" + "." + "baseurl" == "server.baseurl";
    TwoSegments("server", "baseurl");
    SameSegments("server.baseurl", q);
  }

  lemma GracefulParts(q: string, limits: seq<string>, timeouts: seq<string>)
    requires limits == ["server.limits.read_timeout", "server.limits.write_timeout", "server.limits.idle_timeout"]
    requires timeouts == ["server.timeouts.read", "server.timeouts.write", "server.timeouts.idle"]
    ensures RequiresGraceful(q) <==>
            q == "server.baseurl" || (HasPrefix(q, "server.logging.") && q != "server.logging.level") || q in limits || q in timeouts
  {}

  /** Exactly which settings need a graceful reload: the base URL, everything inside the logging
      section but the level, and the six timeouts. */
  lemma GracefulIffSegments(q: string)
    ensures var s := Split(q, '.');
            RequiresGraceful(q) <==>
            || s == ["server", "baseurl"]
            || (["server", "logging"] < s && s != ["server", "logging", "level"])
            || s in [["server", "limits", "read_timeout"], ["server", "limits", "write_timeout"], ["server", "limits", "idle_timeout"]]
            || s in [["server", "timeouts", "read"], ["server", "timeouts", "write"], ["server", "timeouts", "idle"]]
  {
    BaseUrl(q);
    LoggingButLevel(q);
    LimitTimeouts(q);
    PlainTimeouts(q);
    GracefulParts(q, ["server.limits.read_timeout", "server.limits.write_timeout", "server.limits.idle_timeout"],
                  ["server.timeouts.read", "server.timeouts.write", "server.timeouts.idle"]);
  }
}
