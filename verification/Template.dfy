/** Placeholder substitution in e-mail templates (`src/email/email.go`): one ReplaceAll
    per variable, in whatever order Go visits the map. */
module Template {
  import opened Strings

  /** A template with flat, matched braces: plain text and `{name}` holes. */
  datatype Segment = Text(text: string) | Hole(name: string)

  predicate NoBraces(s: string) {
    '{' !in s && '}' !in s
  }

  function Placeholder(k: string): string {
    ['{'] + k + ['}']
  }

  function PrintOne(g: Segment): string {
    match g
    case Text(t) => t
    case Hole(k) => Placeholder(k)
  }

  function Print(segs: seq<Segment>): string {
    if segs == [] then "" else PrintOne(segs[0]) + Print(segs[1..])
  }

  predicate Clean(segs: seq<Segment>) {
    forall i | 0 <= i < |segs| :: NoBraces(if segs[i].Text? then segs[i].text else segs[i].name)
  }

  // --- Every string with flat, matched braces is such a template ---

  /** The braces of `s` are matched and not nested; `open` says whether one is open before it. */
  predicate Flat(s: string, open: bool) {
    if s == "" then !open
    else if s[0] == '{' then !open && Flat(s[1..], true)
    else if s[0] == '}' then open && Flat(s[1..], false)
    else Flat(s[1..], open)
  }

  /** The segments of a flat string. Inside a hole, the first segment holds the rest of its name. */
  function Parse(s: string, open: bool): (segs: seq<Segment>)
    requires Flat(s, open)
    ensures open ==> segs != [] && segs[0].Hole?
  {
    if s == "" then []
    else if s[0] == '{' then Parse(s[1..], true)
    else if s[0] == '}' then [Hole("")] + Parse(s[1..], false)
    else if open then
      var rest := Parse(s[1..], true);
      [Hole([s[0]] + rest[0].name)] + rest[1..]
    else [Text([s[0]])] + Parse(s[1..], false)
  }

  lemma {:induction false} ParseIsClean(s: string, open: bool)
    requires Flat(s, open)
    ensures Clean(Parse(s, open))
  {
    if s != "" { ParseIsClean(s[1..], s[0] == '{' || (open && s[0] != '}')); }
  }

  lemma AfterBrace(name: string, rest: string, t: string)
    requires Placeholder(name) + rest == ['{'] + t
    ensures t == name + ['}'] + rest
  {
    assert (['{'] + t)[1..] == t;
    assert (Placeholder(name) + rest)[1..] == name + ['}'] + rest;
  }

  lemma LongerPlaceholder(c: char, name: string, rest: string)
    ensures Placeholder([c] + name) + rest == ['{'] + ([c] + (name + ['}'] + rest))
  {}

  lemma LongerName(c: char, segs: seq<Segment>, t: string)
    requires segs != [] && segs[0].Hole? && Print(segs) == ['{'] + t
    ensures Print([Hole([c] + segs[0].name)] + segs[1..]) == ['{'] + ([c] + t)
  {
    var name, rest := segs[0].name, Print(segs[1..]);
    AfterBrace(name, rest, t);
    LongerPlaceholder(c, name, rest);
    assert ([Hole([c] + name)] + segs[1..])[1..] == segs[1..];
  }

  /** Printing inverts parsing. */
  lemma {:induction false} PrintParse(s: string, open: bool)
    requires Flat(s, open)
    ensures Print(Parse(s, open)) == (if open then ['{'] else []) + s
  {
    if s != "" {
      var c, t, segs := s[0], s[1..], Parse(s, open);
      assert s == [c] + t;
      if c == '{' {
        PrintParse(t, true);
      } else if c == '}' {
        PrintParse(t, false);
        assert segs[1..] == Parse(t, false);
        assert Placeholder("") == ['{', '}'];
      } else if open {
        PrintParse(t, true);
        LongerName(c, Parse(t, true), t);
      } else {
        PrintParse(t, false);
        assert segs[1..] == Parse(t, false);
      }
    }
  }

  // --- One replacement ---

  function FillOne(g: Segment, k: string, v: string): Segment {
    if g == Hole(k) then Text(v) else g
  }

  function Fill(segs: seq<Segment>, k: string, v: string): seq<Segment> {
    if segs == [] then [] else [FillOne(segs[0], k, v)] + Fill(segs[1..], k, v)
  }

  lemma StepOver(c: char, s: string, p: string, v: string)
    requires p != "" && !HasPrefix([c] + s, p)
    ensures ReplaceAll([c] + s, p, v) == [c] + ReplaceAll(s, p, v)
  {
    assert ([c] + s)[1..] == s;
  }

  lemma ReplaceMatch(p: string, rest: string, v: string)
    requires p != ""
    ensures ReplaceAll(p + rest, p, v) == v + ReplaceAll(rest, p, v)
  {
    assert (p + rest)[|p|..] == rest && (p + rest)[..|p|] == p;
  }

  lemma OtherStart(c: char, s: string, p: string)
    requires p != "" && p[0] != c
    ensures !HasPrefix([c] + s, p)
  {
    assert |p| <= |[c] + s| ==> ([c] + s)[..|p|][0] == c;
  }

  /** Text without an opening brace passes through unchanged. */
  lemma {:induction false} PassesThrough(t: string, rest: string, p: string, v: string)
    requires p != "" && p[0] == '{' && '{' !in t
    ensures ReplaceAll(t + rest, p, v) == t + ReplaceAll(rest, p, v)
  {
    if t == "" {
      assert t + rest == rest;
    } else {
      var c, tail := t[0], t[1..];
      PassesThrough(tail, rest, p, v);
      assert t + rest == [c] + (tail + rest);
      OtherStart(c, tail + rest, p);
      StepOver(c, tail + rest, p, v);
      assert t == [c] + tail;
    }
  }

  /** What comes before the first closing brace. */
  function BeforeBrace(s: string): string {
    if s == "" || s[0] == '}' then "" else [s[0]] + BeforeBrace(s[1..])
  }

  lemma {:induction false} BeforeBraceIs(a: string, rest: string)
    requires '}' !in a
    ensures BeforeBrace(a + ['}'] + rest) == a
  {
    if a != "" {
      BeforeBraceIs(a[1..], rest);
      assert (a + ['}'] + rest)[1..] == a[1..] + ['}'] + rest;
    }
  }

  /** At a hole, the placeholder matches exactly when the names agree. */
  lemma MatchesOwnHole(j: string, k: string, rest: string)
    requires NoBraces(j) && NoBraces(k)
    ensures HasPrefix(Placeholder(j) + rest, Placeholder(k)) <==> j == k
  {
    var s, p := Placeholder(j) + rest, Placeholder(k);
    assert (p + rest)[..|p|] == p;
    if HasPrefix(s, p) {
      assert s == (['{'] + k) + ['}'] + s[|p|..];
      BeforeBraceIs(['{'] + k, s[|p|..]);
      BeforeBraceIs(['{'] + j, rest);
      assert (['{'] + j)[1..] == j && (['{'] + k)[1..] == k;
    }
  }

  lemma ReplacesAtHole(j: string, k: string, v: string, rest: string)
    requires NoBraces(j) && NoBraces(k)
    ensures ReplaceAll(Placeholder(j) + rest, Placeholder(k), v) ==
            (if j == k then v else Placeholder(j)) + ReplaceAll(rest, Placeholder(k), v)
  {
    var p, tail := Placeholder(k), j + ['}'];
    MatchesOwnHole(j, k, rest);
    if j == k {
      ReplaceMatch(p, rest, v);
    } else {
      assert Placeholder(j) + rest == ['{'] + (tail + rest);
      StepOver('{', tail + rest, p, v);
      PassesThrough(tail, rest, p, v);
      assert Placeholder(j) == ['{'] + tail;
    }
  }

  /** Replacing a placeholder in the text fills exactly the holes of that name. */
  lemma {:induction false} ReplaceIsFill(segs: seq<Segment>, k: string, v: string)
    requires Clean(segs) && NoBraces(k)
    ensures ReplaceAll(Print(segs), Placeholder(k), v) == Print(Fill(segs, k, v))
  {
    if segs != [] {
      var g, rest := segs[0], Print(segs[1..]);
      ReplaceIsFill(segs[1..], k, v);
      assert Fill(segs, k, v)[1..] == Fill(segs[1..], k, v);
      if g.Text? {
        PassesThrough(g.text, rest, Placeholder(k), v);
      } else {
        ReplacesAtHole(g.name, k, v, rest);
      }
    }
  }

  // --- All replacements ---

  /** All placeholders at once. */
  function Substitute(segs: seq<Segment>, vars: map<string, string>): seq<Segment> {
    if segs == [] then []
    else
      [if segs[0].Hole? && segs[0].name in vars then Text(vars[segs[0].name]) else segs[0]] + Substitute(segs[1..], vars)
  }

  function Render(s: string, order: seq<string>, vars: map<string, string>): string
    requires forall k | k in order :: k in vars
    decreases |order|
  {
    if order == [] then s
    else Render(ReplaceAll(s, Placeholder(order[0]), vars[order[0]]), order[1..], vars)
  }

  /** The loop of `Render` and `expandLocalizedVars` over a map in some order. */
  method RenderLoop(template: string, order: seq<string>, vars: map<string, string>) returns (s: string)
    requires forall k | k in order :: k in vars
    ensures s == Render(template, order, vars)
  {
    s := template;
    var i := 0;
    while i < |order|
      invariant 0 <= i <= |order| && Render(s, order[i..], vars) == Render(template, order, vars)
    {
      assert order[i] in order && order[i..][1..] == order[i + 1..];
      s := ReplaceAll(s, Placeholder(order[i]), vars[order[i]]);
      i := i + 1;
    }
    assert order[i..] == [];
  }

  predicate IsOrder(order: seq<string>, keys: set<string>) {
    && (forall k | k in order :: k in keys) && (forall k | k in keys :: k in order)
    && (forall i, j | 0 <= i < j < |order| :: order[i] != order[j])
  }

  predicate BraceFree(vars: map<string, string>) {
    forall k | k in vars :: NoBraces(k) && NoBraces(vars[k])
  }

  predicate FlatValues(vars: map<string, string>) {
    forall k | k in vars :: NoBraces(k) && Flat(vars[k], false)
  }

  /** No value holds the placeholder of another variable, unless that variable stands for its own placeholder. */
  predicate Settled(vars: map<string, string>)
    requires FlatValues(vars)
  {
    forall a, b | a in vars && b in vars && a != b && Hole(b) in Parse(vars[a], false) :: vars[b] == Placeholder(b)
  }

  // --- Settled variables give one result ---

  lemma {:induction false} PrintAppend(xs: seq<Segment>, ys: seq<Segment>)
    ensures Print(xs + ys) == Print(xs) + Print(ys)
  {
    if xs == [] {
      assert xs + ys == ys;
    } else {
      assert (xs + ys)[1..] == xs[1..] + ys;
      PrintAppend(xs[1..], ys);
    }
  }

  lemma {:induction false} FillAppend(xs: seq<Segment>, ys: seq<Segment>, k: string, v: string)
    ensures Fill(xs + ys, k, v) == Fill(xs, k, v) + Fill(ys, k, v)
  {
    if xs == [] {
      assert xs + ys == ys;
    } else {
      assert (xs + ys)[1..] == xs[1..] + ys;
      FillAppend(xs[1..], ys, k, v);
    }
  }

  lemma {:induction false} FillWithItself(segs: seq<Segment>, k: string, v: string)
    requires Hole(k) in segs ==> v == Placeholder(k)
    ensures Print(Fill(segs, k, v)) == Print(segs)
  {
    if segs != [] {
      assert segs == [segs[0]] + segs[1..];
      FillWithItself(segs[1..], k, v);
      assert Fill(segs, k, v)[1..] == Fill(segs[1..], k, v);
    }
  }

  /** One segment after the variables in `done` have been replaced. */
  function ExpandOne(g: Segment, done: set<string>, vars: map<string, string>): seq<Segment>
    requires FlatValues(vars) && done <= vars.Keys
  {
    if g.Hole? && g.name in done then Parse(vars[g.name], false) else [g]
  }

  function Expand(segs: seq<Segment>, done: set<string>, vars: map<string, string>): seq<Segment>
    requires FlatValues(vars) && done <= vars.Keys
  {
    if segs == [] then [] else ExpandOne(segs[0], done, vars) + Expand(segs[1..], done, vars)
  }

  lemma {:induction false} ExpandIsClean(segs: seq<Segment>, done: set<string>, vars: map<string, string>)
    requires FlatValues(vars) && done <= vars.Keys && Clean(segs)
    ensures Clean(Expand(segs, done, vars))
  {
    if segs != [] {
      ExpandIsClean(segs[1..], done, vars);
      if segs[0].Hole? && segs[0].name in done { ParseIsClean(vars[segs[0].name], false); }
    }
  }

  lemma ExpandOneStep(g: Segment, done: set<string>, vars: map<string, string>, k: string)
    requires FlatValues(vars) && Settled(vars) && done <= vars.Keys && k in vars && k !in done
    ensures Print(Fill(ExpandOne(g, done, vars), k, vars[k])) == Print(ExpandOne(g, done + {k}, vars))
  {
    if g.Hole? && g.name in done {
      FillWithItself(Parse(vars[g.name], false), k, vars[k]);
    } else if g == Hole(k) {
      PrintParse(vars[k], false);
      assert [] + vars[k] == vars[k];
      assert Fill([g], k, vars[k]) == [Text(vars[k])];
      assert Print([Text(vars[k])]) == vars[k] + Print([]);
    } else {
      assert Fill([g], k, vars[k]) == [g];
    }
  }

  lemma {:induction false} ExpandStep(segs: seq<Segment>, done: set<string>, vars: map<string, string>, k: string)
    requires FlatValues(vars) && Settled(vars) && done <= vars.Keys && k in vars && k !in done
    ensures Print(Fill(Expand(segs, done, vars), k, vars[k])) == Print(Expand(segs, done + {k}, vars))
  {
    if segs != [] {
      var g, rest := segs[0], segs[1..];
      ExpandOneStep(g, done, vars, k);
      ExpandStep(rest, done, vars, k);
      FillAppend(ExpandOne(g, done, vars), Expand(rest, done, vars), k, vars[k]);
      PrintAppend(Fill(ExpandOne(g, done, vars), k, vars[k]), Fill(Expand(rest, done, vars), k, vars[k]));
      PrintAppend(ExpandOne(g, done + {k}, vars), Expand(rest, done + {k}, vars));
    }
  }

  lemma {:induction false} RenderExpands(segs: seq<Segment>, order: seq<string>, done: set<string>, vars: map<string, string>)
    requires Clean(segs) && FlatValues(vars) && Settled(vars) && done <= vars.Keys && IsOrder(order, vars.Keys - done)
    ensures Render(Print(Expand(segs, done, vars)), order, vars) == Print(Expand(segs, vars.Keys, vars))
    decreases |order|
  {
    if order == [] {
      assert vars.Keys - done == {};
      assert vars.Keys == done + (vars.Keys - done);
      assert done == vars.Keys;
    } else {
      var k := order[0];
      assert k in order;
      ExpandIsClean(segs, done, vars);
      ReplaceIsFill(Expand(segs, done, vars), k, vars[k]);
      ExpandStep(segs, done, vars, k);
      TailIsOrder(order, vars.Keys - done);
      assert vars.Keys - done - {k} == vars.Keys - (done + {k});
      RenderExpands(segs, order[1..], done + {k}, vars);
    }
  }

  lemma {:induction false} ExpandNothing(segs: seq<Segment>, vars: map<string, string>)
    requires FlatValues(vars)
    ensures Expand(segs, {}, vars) == segs
  {
    if segs != [] { ExpandNothing(segs[1..], vars); }
  }

  lemma {:induction false} ExpandAll(segs: seq<Segment>, vars: map<string, string>)
    requires FlatValues(vars)
    ensures Print(Expand(segs, vars.Keys, vars)) == Print(Substitute(segs, vars))
  {
    if segs != [] {
      var g := segs[0];
      ExpandAll(segs[1..], vars);
      PrintAppend(ExpandOne(g, vars.Keys, vars), Expand(segs[1..], vars.Keys, vars));
      assert Substitute(segs, vars)[1..] == Substitute(segs[1..], vars);
      if g.Hole? && g.name in vars {
        PrintParse(vars[g.name], false);
        assert [] + vars[g.name] == vars[g.name];
      } else {
        assert Print([g]) == PrintOne(g) + Print([]) == PrintOne(g);
      }
    }
  }

  lemma TailIsOrder(order: seq<string>, keys: set<string>)
    requires order != [] && IsOrder(order, keys)
    ensures IsOrder(order[1..], keys - {order[0]})
  {
    assert order == [order[0]] + order[1..];
  }

  /** For a template and values with flat, matched braces, and settled variables, every order
      of the variables gives the simultaneous substitution. */
  lemma RenderIsConfluent(template: string, order: seq<string>, vars: map<string, string>)
    requires Flat(template, false) && FlatValues(vars) && Settled(vars) && IsOrder(order, vars.Keys)
    ensures Render(template, order, vars) == Print(Substitute(Parse(template, false), vars))
  {
    var segs := Parse(template, false);
    ParseIsClean(template, false);
    PrintParse(template, false);
    assert [] + template == template;
    ExpandNothing(segs, vars);
    assert vars.Keys - {} == vars.Keys;
    RenderExpands(segs, order, {}, vars);
    ExpandAll(segs, vars);
  }

  // --- And no others do ---

  /** Filling a hole with anything but its own placeholder shows. */
  lemma {:induction false} FillChangesLength(segs: seq<Segment>, k: string, v: string)
    ensures |v| >= |Placeholder(k)| ==> |Print(Fill(segs, k, v))| >= |Print(segs)|
    ensures |v| > |Placeholder(k)| && Hole(k) in segs ==> |Print(Fill(segs, k, v))| > |Print(segs)|
    ensures |v| <= |Placeholder(k)| ==> |Print(Fill(segs, k, v))| <= |Print(segs)|
    ensures |v| < |Placeholder(k)| && Hole(k) in segs ==> |Print(Fill(segs, k, v))| < |Print(segs)|
  {
    if segs != [] {
      assert segs == [segs[0]] + segs[1..];
      FillChangesLength(segs[1..], k, v);
      assert Fill(segs, k, v)[1..] == Fill(segs[1..], k, v);
    }
  }

  lemma SplitEqual(a: string, b: string, x: string, y: string)
    requires |a| == |x| && a + b == x + y
    ensures a == x && b == y
  {
    assert (a + b)[..|a|] == a && (x + y)[..|x|] == x && (a + b)[|a|..] == b && (x + y)[|x|..] == y;
  }

  lemma {:induction false} FillShows(segs: seq<Segment>, k: string, v: string)
    requires Hole(k) in segs && v != Placeholder(k)
    ensures Print(Fill(segs, k, v)) != Print(segs)
  {
    FillChangesLength(segs, k, v);
    if |v| == |Placeholder(k)| && Print(Fill(segs, k, v)) == Print(segs) {
      assert segs == [segs[0]] + segs[1..];
      assert Fill(segs, k, v)[1..] == Fill(segs[1..], k, v);
      SplitEqual(PrintOne(FillOne(segs[0], k, v)), Print(Fill(segs[1..], k, v)), PrintOne(segs[0]), Print(segs[1..]));
      if segs[0] != Hole(k) { FillShows(segs[1..], k, v); }
    }
  }

  lemma ReplaceAlone(j: string, k: string, v: string)
    requires NoBraces(j) && NoBraces(k)
    ensures ReplaceAll(Placeholder(j), Placeholder(k), v) == if j == k then v else Placeholder(j)
  {
    ReplacesAtHole(j, k, v, "");
    assert Placeholder(j) + "" == Placeholder(j) && v + "" == v && ReplaceAll("", Placeholder(k), v) == "";
  }

  /** Variables other than `a` leave the template `{a}` alone. */
  lemma {:induction false} OthersFirst(a: string, others: seq<string>, tail: seq<string>, vars: map<string, string>)
    requires FlatValues(vars) && (forall k | k in others :: k in vars && k != a) && (forall k | k in tail :: k in vars) && NoBraces(a)
    ensures (forall k | k in others + tail :: k in vars) && Render(Placeholder(a), others + tail, vars) == Render(Placeholder(a), tail, vars)
    decreases |others|
  {
    if others == [] {
      assert others + tail == tail;
    } else {
      assert others[0] in others && (others + tail)[1..] == others[1..] + tail;
      ReplaceAlone(a, others[0], vars[others[0]]);
      OthersFirst(a, others[1..], tail, vars);
    }
  }

  lemma {:induction false} SomeOrder(keys: set<string>) returns (order: seq<string>)
    ensures IsOrder(order, keys)
    decreases |keys|
  {
    if keys == {} {
      order := [];
    } else {
      var k :| k in keys;
      var rest := SomeOrder(keys - {k});
      order := [k] + rest;
    }
  }

  lemma TwoLast(others: seq<string>, keys: set<string>, a: string, b: string)
    requires a in keys && b in keys && a != b && IsOrder(others, keys - {a, b})
    ensures IsOrder(others + [a, b], keys)
  {
    var order := others + [a, b];
    assert forall i | 0 <= i < |others| :: others[i] in others;
    forall k | k in keys ensures k in order {
      if k == a { assert order[|others|] == a; } else if k == b { assert order[|others| + 1] == b; }
    }
  }

  /** With `a` holding the placeholder of `b`, the template `{a}` depends on which comes first. */
  lemma OrderShows(a: string, b: string, vars: map<string, string>) returns (one: seq<string>, two: seq<string>)
    requires FlatValues(vars) && a in vars && b in vars && a != b
    requires Hole(b) in Parse(vars[a], false) && vars[b] != Placeholder(b)
    ensures IsOrder(one, vars.Keys) && IsOrder(two, vars.Keys)
    ensures Render(Placeholder(a), one, vars) != Render(Placeholder(a), two, vars)
  {
    var others := SomeOrder(vars.Keys - {a, b});
    one, two := others + [a, b], others + [b, a];
    TwoLast(others, vars.Keys, a, b);
    assert vars.Keys - {a, b} == vars.Keys - {b, a};
    TwoLast(others, vars.Keys, b, a);
    OthersFirst(a, others, [a, b], vars);
    OthersFirst(a, others, [b, a], vars);
    TwoOrders(a, b, vars);
    ValueShows(vars[a], b, vars[b]);
  }

  lemma TwoOrders(a: string, b: string, vars: map<string, string>)
    requires FlatValues(vars) && a in vars && b in vars && a != b
    ensures Render(Placeholder(a), [a, b], vars) == ReplaceAll(vars[a], Placeholder(b), vars[b])
    ensures Render(Placeholder(a), [b, a], vars) == vars[a]
  {
    ReplaceAlone(a, a, vars[a]);
    ReplaceAlone(a, b, vars[b]);
    assert [a, b][1..] == [b] && [b, a][1..] == [a] && [b][1..] == [] && [a][1..] == [];
    assert Render(Placeholder(a), [a, b], vars) == Render(vars[a], [b], vars);
    assert Render(Placeholder(a), [b, a], vars) == Render(Placeholder(a), [a], vars);
  }

  lemma ValueShows(value: string, b: string, v: string)
    requires Flat(value, false) && NoBraces(b) && Hole(b) in Parse(value, false) && v != Placeholder(b)
    ensures ReplaceAll(value, Placeholder(b), v) != value
  {
    var segs := Parse(value, false);
    ParseIsClean(value, false);
    PrintParse(value, false);
    assert [] + value == value;
    ReplaceIsFill(segs, b, v);
    FillShows(segs, b, v);
  }

  ghost predicate OrdersAgree(vars: map<string, string>) {
    forall template: string, one: seq<string>, two: seq<string> |
      Flat(template, false) && IsOrder(one, vars.Keys) && IsOrder(two, vars.Keys) ::
      Render(template, one, vars) == Render(template, two, vars)
  }

  lemma {:induction false} NoBracesIsFlat(s: string, open: bool)
    requires NoBraces(s)
    ensures !open ==> Flat(s, open)
    ensures !open ==> forall k :: Hole(k) !in Parse(s, open)
    ensures open ==> Flat(s + ['}'], open)
  {
    if s != "" {
      NoBracesIsFlat(s[1..], open);
      assert (s + ['}'])[1..] == s[1..] + ['}'];
    } else {
      assert (s + ['}'])[1..] == "";
    }
  }

  lemma PlaceholderIsFlat(k: string)
    requires NoBraces(k)
    ensures Flat(Placeholder(k), false)
  {
    NoBracesIsFlat(k, true);
    assert Placeholder(k)[1..] == k + ['}'];
  }

  /** Rendering does not depend on the order of the map, for any flat template, exactly when
      no value holds the placeholder of another variable that stands for something else. */
  lemma OrdersAgreeIffSettled(vars: map<string, string>)
    requires FlatValues(vars)
    ensures OrdersAgree(vars) <==> Settled(vars)
  {
    if Settled(vars) {
      forall template: string, one: seq<string>, two: seq<string> |
        Flat(template, false) && IsOrder(one, vars.Keys) && IsOrder(two, vars.Keys)
        ensures Render(template, one, vars) == Render(template, two, vars)
      {
        RenderIsConfluent(template, one, vars);
        RenderIsConfluent(template, two, vars);
      }
    } else {
      var a, b :| a in vars && b in vars && a != b && Hole(b) in Parse(vars[a], false) && vars[b] != Placeholder(b);
      var one, two := OrderShows(a, b, vars);
      PlaceholderIsFlat(a);
      assert Render(Placeholder(a), one, vars) != Render(Placeholder(a), two, vars);
    }
  }

  /** Values without braces are always settled. */
  lemma BraceFreeIsSettled(vars: map<string, string>)
    requires BraceFree(vars)
    ensures FlatValues(vars) && Settled(vars)
  {
    forall k | k in vars ensures Flat(vars[k], false) && forall b :: Hole(b) !in Parse(vars[k], false) {
      NoBracesIsFlat(vars[k], false);
    }
  }
}
