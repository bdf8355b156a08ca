/** `src/graphql/complexity.go`: a query is measured through its fragments with
    an early cut-off, and must be judged as if it had been fully expanded first. */
module Complexity {
  import opened Options

  const MAX_QUERY_DEPTH := 15
  const MAX_QUERY_ALIASES := 50

  /** A selection set may be absent; a field's alias and a spread's name may be too. */
  datatype SelectionSet = NoSet | SelectionSet(selections: seq<Selection>)

  datatype Selection =
    | FieldSel(alias: Option<string>, sub: SelectionSet)
    | InlineFragment(sub: SelectionSet)
    | FragmentSpread(name: Option<string>)

  type Fragments = map<string, SelectionSet>

  datatype Definition =
    | Operation(body: SelectionSet)
    | FragmentDef(name: Option<string>, body: SelectionSet)
    | OtherDef

  // --- The measuring walk ---

  datatype Outcome = Cycle | Depth(depth: int)

  /** What a walk returns, and the alias count it leaves behind. */
  datatype Measured = Measured(outcome: Outcome, aliases: nat)

  function Max(a: int, b: int): (m: int)
    ensures a <= m && b <= m && (m == a || m == b)
  {
    if a < b then b else a
  }

  predicate IsAliased(alias: Option<string>) {
    alias.Some? && alias.value != ""
  }

  /** The fragments whose expansion has not been entered. */
  function Unvisited(frags: Fragments, visiting: set<string>): nat {
    |frags.Keys - visiting|
  }

  lemma VisitingOneMore(frags: Fragments, visiting: set<string>, name: string)
    requires name in frags && name !in visiting
    ensures Unvisited(frags, visiting + {name}) == Unvisited(frags, visiting) - 1
  {
    assert frags.Keys - (visiting + {name}) == (frags.Keys - visiting) - {name};
  }

  /** `measureSelectionSet`. */
  function Measure(ss: SelectionSet, frags: Fragments, visiting: set<string>, depth: nat, aliases: nat): Measured
    decreases Unvisited(frags, visiting), ss, 1
  {
    if ss.NoSet? then Measured(Depth(depth - 1), aliases)
    else if depth > MAX_QUERY_DEPTH then Measured(Depth(depth), aliases)
    else MeasureFrom(ss.selections, frags, visiting, depth, depth - 1, aliases)
  }

  /** The loop over the selections, with the depth reached so far. */
  function MeasureFrom(sels: seq<Selection>, frags: Fragments, visiting: set<string>, depth: nat, maxDepth: int, aliases: nat): Measured
    decreases Unvisited(frags, visiting), sels, 0
  {
    if sels == [] then Measured(Depth(maxDepth), aliases)
    else
      var m := MeasureOne(sels[0], frags, visiting, depth, aliases);
      if m.outcome.Cycle? then m
      else
        var reached := Max(maxDepth, m.outcome.depth);
        if reached > MAX_QUERY_DEPTH then Measured(Depth(reached), m.aliases)
        else MeasureFrom(sels[1..], frags, visiting, depth, reached, m.aliases)
  }

  function MeasureOne(sel: Selection, frags: Fragments, visiting: set<string>, depth: nat, aliases: nat): Measured
    decreases Unvisited(frags, visiting), sel, 2
  {
    match sel
    case FieldSel(alias, sub) =>
      var n := if IsAliased(alias) then aliases + 1 else aliases;
      if sub.NoSet? then Measured(Depth(depth), n)
      else Measure(sub, frags, visiting, depth + 1, n)
    case InlineFragment(sub) => Measure(sub, frags, visiting, depth, aliases)
    case FragmentSpread(name) =>
      if name.None? then Measured(Depth(depth - 1), aliases)
      else if name.value in visiting then Measured(Cycle, aliases)
      else if name.value !in frags || frags[name.value].NoSet? then Measured(Depth(depth - 1), aliases)
      else
        VisitingOneMore(frags, visiting, name.value);
        Measure(frags[name.value], frags, visiting + {name.value}, depth, aliases)
  }

  // --- The reference: expand every fragment, then measure ---

  /** A field after expansion, without or with a selection set. */
  datatype Expanded = Plain(aliased: bool) | Nested(aliased: bool, children: seq<Expanded>)

  predicate Defined(frags: Fragments, name: string) {
    name in frags && frags[name].SelectionSet?
  }

  /** Expansion with at most `fuel` fragments nested inside one another; None when that is not enough. */
  function Expand(ss: SelectionSet, frags: Fragments, fuel: nat): Option<seq<Expanded>>
    decreases fuel, ss, 1
  {
    if ss.NoSet? then Some([]) else ExpandAll(ss.selections, frags, fuel)
  }

  function ExpandAll(sels: seq<Selection>, frags: Fragments, fuel: nat): Option<seq<Expanded>>
    decreases fuel, sels, 0
  {
    if sels == [] then Some([])
    else
      var first := ExpandOne(sels[0], frags, fuel);
      var rest := ExpandAll(sels[1..], frags, fuel);
      Append(first, rest)
  }

  function ExpandOne(sel: Selection, frags: Fragments, fuel: nat): Option<seq<Expanded>>
    decreases fuel, sel, 2
  {
    match sel
    case FieldSel(alias, sub) =>
      var aliased := alias.Some? && |alias.value| > 0;
      if sub.NoSet? then Some([Plain(aliased)])
      else
        var children := Expand(sub, frags, fuel);
        if children.None? then None else Some([Nested(aliased, children.value)])
    case InlineFragment(sub) => Expand(sub, frags, fuel)
    case FragmentSpread(name) =>
      if name.None? || !Defined(frags, name.value) then Some([])
      else if fuel == 0 then None
      else Expand(frags[name.value], frags, fuel - 1)
  }

  /** The nesting depth of the expanded fields. */
  function Height(xs: seq<Expanded>): nat {
    if xs == [] then 0 else Max(HeightOne(xs[0]), Height(xs[1..]))
  }

  function HeightOne(x: Expanded): nat {
    if x.Plain? then 1 else 1 + Height(x.children)
  }

  /** How deeply selection sets are opened below this one, empty ones included. */
  function Opened(xs: seq<Expanded>): nat {
    if xs == [] then 0 else Max(OpenedOne(xs[0]), Opened(xs[1..]))
  }

  function OpenedOne(x: Expanded): nat {
    if x.Plain? then 0 else 1 + Opened(x.children)
  }

  function Aliases(xs: seq<Expanded>): nat {
    if xs == [] then 0 else AliasesOne(xs[0]) + Aliases(xs[1..])
  }

  function AliasesOne(x: Expanded): nat {
    (if x.aliased then 1 else 0) + if x.Plain? then 0 else Aliases(x.children)
  }

  lemma MeasuresOfConcat(xs: seq<Expanded>, ys: seq<Expanded>)
    ensures Height(xs + ys) == Max(Height(xs), Height(ys))
    ensures Opened(xs + ys) == Max(Opened(xs), Opened(ys))
    ensures Aliases(xs + ys) == Aliases(xs) + Aliases(ys)
  {
    if xs == [] {
      assert xs + ys == ys;
    } else {
      assert (xs + ys)[1..] == xs[1..] + ys;
      MeasuresOfConcat(xs[1..], ys);
    }
  }

  lemma MeasuresOfOne(x: Expanded)
    ensures Height([x]) == HeightOne(x) && Opened([x]) == OpenedOne(x) && Aliases([x]) == AliasesOne(x)
  {
    assert [x][1..] == [];
  }

  /** More fuel does not change an expansion that succeeded. */
  lemma {:induction false} ExpandMonotone(ss: SelectionSet, frags: Fragments, m: nat, n: nat)
    requires m <= n && Expand(ss, frags, m).Some?
    ensures Expand(ss, frags, n) == Expand(ss, frags, m)
    decreases m, ss, 1
  {
    if ss.SelectionSet? { ExpandAllMonotone(ss.selections, frags, m, n); }
  }

  lemma {:induction false} ExpandAllMonotone(sels: seq<Selection>, frags: Fragments, m: nat, n: nat)
    requires m <= n && ExpandAll(sels, frags, m).Some?
    ensures ExpandAll(sels, frags, n) == ExpandAll(sels, frags, m)
    decreases m, sels, 0
  {
    if sels != [] {
      ExpandAllMonotone(sels[1..], frags, m, n);
      ExpandOneMonotone(sels[0], frags, m, n);
    }
  }

  lemma {:induction false} ExpandOneMonotone(sel: Selection, frags: Fragments, m: nat, n: nat)
    requires m <= n && ExpandOne(sel, frags, m).Some?
    ensures ExpandOne(sel, frags, n) == ExpandOne(sel, frags, m)
    decreases m, sel, 2
  {
    match sel
    case FieldSel(_, sub) => if sub.SelectionSet? { ExpandMonotone(sub, frags, m, n); }
    case InlineFragment(sub) => ExpandMonotone(sub, frags, m, n);
    case FragmentSpread(name) =>
      if name.Some? && Defined(frags, name.value) { ExpandMonotone(frags[name.value], frags, m - 1, n - 1); }
  }

  // --- A walk that stays within the limit has seen the whole expansion ---

  predicate Within(m: Measured) {
    m.outcome.Depth? && m.outcome.depth <= MAX_QUERY_DEPTH
  }

  lemma MeasureFromSteps(sels: seq<Selection>, frags: Fragments, visiting: set<string>, depth: nat, maxDepth: int, aliases: nat)
    requires sels != [] && Within(MeasureFrom(sels, frags, visiting, depth, maxDepth, aliases))
    ensures var m := MeasureOne(sels[0], frags, visiting, depth, aliases);
            Within(m) &&
            MeasureFrom(sels, frags, visiting, depth, maxDepth, aliases) ==
            MeasureFrom(sels[1..], frags, visiting, depth, Max(maxDepth, m.outcome.depth), m.aliases)
  {}

  /** The measure is that of the expansion, and the cut-off did not bite. */
  predicate Tells(m: Measured, x: Option<seq<Expanded>>, depth: nat, aliases: nat) {
    x.Some? && Within(m) &&
    m == Measured(Depth(depth - 1 + Height(x.value)), aliases + Aliases(x.value)) &&
    depth + Opened(x.value) <= MAX_QUERY_DEPTH
  }

  /** The same for the loop, which starts from the depth already reached. */
  predicate LoopTells(m: Measured, x: Option<seq<Expanded>>, depth: nat, maxDepth: int, aliases: nat) {
    x.Some? &&
    m == Measured(Depth(Max(maxDepth, depth - 1 + Height(x.value))), aliases + Aliases(x.value)) &&
    depth + Opened(x.value) <= MAX_QUERY_DEPTH
  }

  function Append(x: Option<seq<Expanded>>, y: Option<seq<Expanded>>): Option<seq<Expanded>> {
    if x.None? || y.None? then None else Some(x.value + y.value)
  }

  /** One turn of the loop: the next selection, then the rest. */
  lemma LoopStep(first: Option<seq<Expanded>>, rest: Option<seq<Expanded>>, depth: nat, maxDepth: int, aliases: nat, m: Measured, r: Measured)
    requires Tells(m, first, depth, aliases)
    requires LoopTells(r, rest, depth, Max(maxDepth, m.outcome.depth), m.aliases)
    ensures LoopTells(r, Append(first, rest), depth, maxDepth, aliases)
  {
    MeasuresOfConcat(first.value, rest.value);
  }

  lemma SpreadUnfolds(name: string, frags: Fragments, visiting: set<string>, depth: nat, aliases: nat)
    requires Defined(frags, name) && name !in visiting
    ensures MeasureOne(FragmentSpread(Some(name)), frags, visiting, depth, aliases)
         == Measure(frags[name], frags, visiting + {name}, depth, aliases)
    ensures Unvisited(frags, visiting + {name}) < Unvisited(frags, visiting)
    ensures ExpandOne(FragmentSpread(Some(name)), frags, Unvisited(frags, visiting))
         == Expand(frags[name], frags, Unvisited(frags, visiting + {name}))
  {
    VisitingOneMore(frags, visiting, name);
  }

  lemma InlineUnfolds(sub: SelectionSet, frags: Fragments, visiting: set<string>, depth: nat, aliases: nat, fuel: nat)
    ensures MeasureOne(InlineFragment(sub), frags, visiting, depth, aliases) == Measure(sub, frags, visiting, depth, aliases)
    ensures ExpandOne(InlineFragment(sub), frags, fuel) == Expand(sub, frags, fuel)
  {}

  lemma FieldUnfolds(alias: Option<string>, sub: SelectionSet, frags: Fragments, visiting: set<string>, depth: nat, aliases: nat, fuel: nat)
    requires sub.SelectionSet?
    ensures MeasureOne(FieldSel(alias, sub), frags, visiting, depth, aliases)
         == Measure(sub, frags, visiting, depth + 1, if IsAliased(alias) then aliases + 1 else aliases)
    ensures var x := Expand(sub, frags, fuel);
            ExpandOne(FieldSel(alias, sub), frags, fuel) == if x.None? then None else Some([Nested(IsAliased(alias), x.value)])
  {}

  lemma NestTells(aliased: bool, children: seq<Expanded>, depth: nat, aliases: nat, m: Measured)
    requires Tells(m, Some(children), depth + 1, if aliased then aliases + 1 else aliases)
    ensures Tells(m, Some([Nested(aliased, children)]), depth, aliases)
  {
    MeasuresOfOne(Nested(aliased, children));
  }

  lemma {:induction false} FieldIsSound(alias: Option<string>, sub: SelectionSet, frags: Fragments, visiting: set<string>, depth: nat, aliases: nat, fuel: nat)
    requires depth >= 1 && fuel == Unvisited(frags, visiting) && sub.SelectionSet?
    requires Within(MeasureOne(FieldSel(alias, sub), frags, visiting, depth, aliases))
    ensures Tells(MeasureOne(FieldSel(alias, sub), frags, visiting, depth, aliases), ExpandOne(FieldSel(alias, sub), frags, fuel), depth, aliases)
    decreases fuel, sub, 2
  {
    var n := if IsAliased(alias) then aliases + 1 else aliases;
    FieldUnfolds(alias, sub, frags, visiting, depth, aliases, fuel);
    MeasureIsSound(sub, frags, visiting, depth + 1, n);
    NestTells(IsAliased(alias), Expand(sub, frags, fuel).value, depth, aliases, Measure(sub, frags, visiting, depth + 1, n));
  }

  lemma {:induction false} MeasureIsSound(ss: SelectionSet, frags: Fragments, visiting: set<string>, depth: nat, aliases: nat)
    requires ss.SelectionSet? && depth >= 1 && Within(Measure(ss, frags, visiting, depth, aliases))
    ensures Tells(Measure(ss, frags, visiting, depth, aliases), Expand(ss, frags, Unvisited(frags, visiting)), depth, aliases)
    decreases Unvisited(frags, visiting), ss, 1
  {
    MeasureFromIsSound(ss.selections, frags, visiting, depth, depth - 1, aliases, Unvisited(frags, visiting));
  }

  lemma {:induction false} MeasureFromIsSound(sels: seq<Selection>, frags: Fragments, visiting: set<string>, depth: nat, maxDepth: int, aliases: nat, fuel: nat)
    requires 1 <= depth <= MAX_QUERY_DEPTH && depth - 1 <= maxDepth && fuel == Unvisited(frags, visiting)
    requires Within(MeasureFrom(sels, frags, visiting, depth, maxDepth, aliases))
    ensures LoopTells(MeasureFrom(sels, frags, visiting, depth, maxDepth, aliases), ExpandAll(sels, frags, fuel), depth, maxDepth, aliases)
    decreases fuel, sels, 0
  {
    if sels == [] {
      LoopEnds(frags, visiting, depth, maxDepth, aliases, fuel);
    } else {
      var m := MeasureOne(sels[0], frags, visiting, depth, aliases);
      MeasureFromSteps(sels, frags, visiting, depth, maxDepth, aliases);
      MeasureOneIsSound(sels[0], frags, visiting, depth, aliases, fuel);
      MeasureFromIsSound(sels[1..], frags, visiting, depth, Max(maxDepth, m.outcome.depth), m.aliases, fuel);
      LoopStep(ExpandOne(sels[0], frags, fuel), ExpandAll(sels[1..], frags, fuel), depth, maxDepth, aliases, m,
               MeasureFrom(sels[1..], frags, visiting, depth, Max(maxDepth, m.outcome.depth), m.aliases));
    }
  }

  lemma LoopEnds(frags: Fragments, visiting: set<string>, depth: nat, maxDepth: int, aliases: nat, fuel: nat)
    requires 1 <= depth <= MAX_QUERY_DEPTH && depth - 1 <= maxDepth
    ensures LoopTells(MeasureFrom([], frags, visiting, depth, maxDepth, aliases), ExpandAll([], frags, fuel), depth, maxDepth, aliases)
  {}

  lemma {:induction false} MeasureOneIsSound(sel: Selection, frags: Fragments, visiting: set<string>, depth: nat, aliases: nat, fuel: nat)
    requires 1 <= depth <= MAX_QUERY_DEPTH && fuel == Unvisited(frags, visiting)
    requires Within(MeasureOne(sel, frags, visiting, depth, aliases))
    ensures Tells(MeasureOne(sel, frags, visiting, depth, aliases), ExpandOne(sel, frags, fuel), depth, aliases)
    decreases fuel, sel, 2
  {
    match sel
    case FieldSel(alias, sub) =>
      if sub.SelectionSet? {
        FieldIsSound(alias, sub, frags, visiting, depth, aliases, fuel);
      } else {
        PlainFieldTells(alias, frags, visiting, depth, aliases, fuel);
      }
    case InlineFragment(sub) =>
      InlineUnfolds(sub, frags, visiting, depth, aliases, fuel);
      if sub.SelectionSet? { MeasureIsSound(sub, frags, visiting, depth, aliases); }
    case FragmentSpread(name) =>
      if name.Some? && Defined(frags, name.value) {
        SpreadIsSound(name.value, frags, visiting, depth, aliases, fuel);
      } else {
        EmptySpreadTells(name, frags, visiting, depth, aliases, fuel);
      }
  }

  lemma PlainFieldTells(alias: Option<string>, frags: Fragments, visiting: set<string>, depth: nat, aliases: nat, fuel: nat)
    requires 1 <= depth <= MAX_QUERY_DEPTH
    ensures Tells(MeasureOne(FieldSel(alias, NoSet), frags, visiting, depth, aliases), ExpandOne(FieldSel(alias, NoSet), frags, fuel), depth, aliases)
  {
    MeasuresOfOne(Plain(IsAliased(alias)));
  }

  lemma EmptySpreadTells(name: Option<string>, frags: Fragments, visiting: set<string>, depth: nat, aliases: nat, fuel: nat)
    requires 1 <= depth <= MAX_QUERY_DEPTH && (name.Some? ==> !Defined(frags, name.value) && name.value !in visiting)
    ensures Tells(MeasureOne(FragmentSpread(name), frags, visiting, depth, aliases), ExpandOne(FragmentSpread(name), frags, fuel), depth, aliases)
  {}

  lemma {:induction false} SpreadIsSound(name: string, frags: Fragments, visiting: set<string>, depth: nat, aliases: nat, fuel: nat)
    requires 1 <= depth <= MAX_QUERY_DEPTH && fuel == Unvisited(frags, visiting) && Defined(frags, name)
    requires Within(MeasureOne(FragmentSpread(Some(name)), frags, visiting, depth, aliases))
    ensures Tells(MeasureOne(FragmentSpread(Some(name)), frags, visiting, depth, aliases), ExpandOne(FragmentSpread(Some(name)), frags, fuel), depth, aliases)
    decreases fuel, FragmentSpread(Some(name)), 1
  {
    SpreadUnfolds(name, frags, visiting, depth, aliases);
    MeasureIsSound(frags[name], frags, visiting + {name}, depth, aliases);
  }

  // --- An expansion within the limit is measured to the end ---

  /** Every fragment being visited needs more fuel than what is being measured. */
  ghost predicate Blocked(frags: Fragments, visiting: set<string>, n: nat) {
    forall v | v in visiting :: Defined(frags, v) && (n == 0 || Expand(frags[v], frags, n - 1).None?)
  }

  lemma LeastFuel(ss: SelectionSet, frags: Fragments, n: nat) returns (m: nat)
    requires Expand(ss, frags, n).Some?
    ensures m <= n && Expand(ss, frags, m) == Expand(ss, frags, n)
    ensures m == 0 || Expand(ss, frags, m - 1).None?
  {
    m := n;
    while m > 0 && Expand(ss, frags, m - 1).Some?
      invariant m <= n && Expand(ss, frags, m).Some?
    {
      m := m - 1;
    }
    ExpandMonotone(ss, frags, m, n);
  }

  lemma {:induction false} MeasureIsComplete(ss: SelectionSet, frags: Fragments, visiting: set<string>, depth: nat, aliases: nat, n: nat)
    requires ss.SelectionSet? && depth >= 1 && Expand(ss, frags, n).Some? && Blocked(frags, visiting, n)
    requires depth + Opened(Expand(ss, frags, n).value) <= MAX_QUERY_DEPTH
    ensures Tells(Measure(ss, frags, visiting, depth, aliases), Expand(ss, frags, n), depth, aliases)
    decreases n, ss, 1
  {
    MeasureFromIsComplete(ss.selections, frags, visiting, depth, depth - 1, aliases, n);
    HeightWithinOpened(Expand(ss, frags, n).value);
  }

  lemma HeightWithinOpened(xs: seq<Expanded>)
    ensures Height(xs) <= Opened(xs) + 1
  {
    if xs != [] {
      HeightWithinOpened(xs[1..]);
      if xs[0].Nested? { HeightWithinOpened(xs[0].children); }
    }
  }

  lemma MeasureFromContinues(sels: seq<Selection>, frags: Fragments, visiting: set<string>, depth: nat, maxDepth: int, aliases: nat)
    requires sels != [] && maxDepth <= MAX_QUERY_DEPTH && Within(MeasureOne(sels[0], frags, visiting, depth, aliases))
    ensures var m := MeasureOne(sels[0], frags, visiting, depth, aliases);
            MeasureFrom(sels, frags, visiting, depth, maxDepth, aliases) ==
            MeasureFrom(sels[1..], frags, visiting, depth, Max(maxDepth, m.outcome.depth), m.aliases)
  {}

  lemma {:induction false} MeasureFromIsComplete(sels: seq<Selection>, frags: Fragments, visiting: set<string>, depth: nat, maxDepth: int, aliases: nat, n: nat)
    requires depth >= 1 && ExpandAll(sels, frags, n).Some? && Blocked(frags, visiting, n)
    requires depth + Opened(ExpandAll(sels, frags, n).value) <= MAX_QUERY_DEPTH
    requires depth - 1 <= maxDepth <= MAX_QUERY_DEPTH
    ensures LoopTells(MeasureFrom(sels, frags, visiting, depth, maxDepth, aliases), ExpandAll(sels, frags, n), depth, maxDepth, aliases)
    decreases n, sels, 0
  {
    if sels == [] {
      LoopEnds(frags, visiting, depth, maxDepth, aliases, n);
    } else {
      var first, rest := ExpandOne(sels[0], frags, n), ExpandAll(sels[1..], frags, n);
      MeasuresOfConcat(first.value, rest.value);
      MeasureOneIsComplete(sels[0], frags, visiting, depth, aliases, n);
      var m := MeasureOne(sels[0], frags, visiting, depth, aliases);
      MeasureFromContinues(sels, frags, visiting, depth, maxDepth, aliases);
      MeasureFromIsComplete(sels[1..], frags, visiting, depth, Max(maxDepth, m.outcome.depth), m.aliases, n);
      LoopStep(first, rest, depth, maxDepth, aliases, m,
               MeasureFrom(sels[1..], frags, visiting, depth, Max(maxDepth, m.outcome.depth), m.aliases));
    }
  }

  lemma {:induction false} MeasureOneIsComplete(sel: Selection, frags: Fragments, visiting: set<string>, depth: nat, aliases: nat, n: nat)
    requires depth >= 1 && ExpandOne(sel, frags, n).Some? && Blocked(frags, visiting, n)
    requires depth + Opened(ExpandOne(sel, frags, n).value) <= MAX_QUERY_DEPTH
    ensures Tells(MeasureOne(sel, frags, visiting, depth, aliases), ExpandOne(sel, frags, n), depth, aliases)
    decreases n, sel, 2
  {
    match sel
    case FieldSel(alias, sub) =>
      if sub.SelectionSet? {
        var k := if IsAliased(alias) then aliases + 1 else aliases;
        FieldUnfolds(alias, sub, frags, visiting, depth, aliases, n);
        MeasuresOfOne(Nested(IsAliased(alias), Expand(sub, frags, n).value));
        MeasureIsComplete(sub, frags, visiting, depth + 1, k, n);
        NestTells(IsAliased(alias), Expand(sub, frags, n).value, depth, aliases, Measure(sub, frags, visiting, depth + 1, k));
      } else {
        PlainFieldTells(alias, frags, visiting, depth, aliases, n);
      }
    case InlineFragment(sub) =>
      InlineUnfolds(sub, frags, visiting, depth, aliases, n);
      if sub.SelectionSet? { MeasureIsComplete(sub, frags, visiting, depth, aliases, n); }
    case FragmentSpread(name) =>
      if name.Some? && Defined(frags, name.value) {
        SpreadIsComplete(name.value, frags, visiting, depth, aliases, n);
      } else {
        EmptySpreadTells(name, frags, visiting, depth, aliases, n);
      }
  }

  lemma {:induction false} SpreadIsComplete(name: string, frags: Fragments, visiting: set<string>, depth: nat, aliases: nat, n: nat)
    requires depth >= 1 && Defined(frags, name) && Blocked(frags, visiting, n)
    requires n > 0 && Expand(frags[name], frags, n - 1).Some?
    requires depth + Opened(Expand(frags[name], frags, n - 1).value) <= MAX_QUERY_DEPTH
    ensures Tells(MeasureOne(FragmentSpread(Some(name)), frags, visiting, depth, aliases), Expand(frags[name], frags, n - 1), depth, aliases)
    decreases n, FragmentSpread(Some(name)), 1
  {
    var body := frags[name];
    var m := LeastFuel(body, frags, n - 1);
    forall v | v in visiting ensures m == 0 || Expand(frags[v], frags, m - 1).None? {
      if m > 0 && Expand(frags[v], frags, m - 1).Some? { ExpandMonotone(frags[v], frags, m - 1, n - 1); }
    }
    SpreadUnfolds(name, frags, visiting, depth, aliases);
    MeasureIsComplete(body, frags, visiting + {name}, depth, aliases, m);
  }

  // --- Cycles ---

  /** `name` is spread somewhere in the selections. */
  predicate SpreadsIn(ss: SelectionSet, name: string) {
    ss.SelectionSet? && Spreads(ss.selections, name)
  }

  predicate Spreads(sels: seq<Selection>, name: string) {
    sels != [] && (SpreadsOne(sels[0], name) || Spreads(sels[1..], name))
  }

  predicate SpreadsOne(sel: Selection, name: string) {
    match sel
    case FieldSel(_, sub) => SpreadsIn(sub, name)
    case InlineFragment(sub) => SpreadsIn(sub, name)
    case FragmentSpread(n) => n == Some(name)
  }

  /** A chain of fragments, each spread by the one before it and the first by `ss`. */
  predicate IsChain(ss: SelectionSet, frags: Fragments, chain: seq<string>)
    decreases |chain|
  {
    chain == [] ||
    (SpreadsIn(ss, chain[0]) && Defined(frags, chain[0]) && IsChain(frags[chain[0]], frags, chain[1..]))
  }

  /** Some chain of spreads visits a fragment twice (section 5.5.2.2 of the GraphQL specification). */
  ghost predicate ReachesCycle(ss: SelectionSet, frags: Fragments) {
    exists chain: seq<string>, i, j ::
      0 <= i < j < |chain| && IsChain(ss, frags, chain) && chain[i] == chain[j]
  }

  ghost predicate Expandable(ss: SelectionSet, frags: Fragments) {
    exists n: nat :: Expand(ss, frags, n).Some?
  }

  lemma {:induction false} SpreadIsExpanded(sels: seq<Selection>, frags: Fragments, n: nat, name: string)
    requires ExpandAll(sels, frags, n).Some? && Spreads(sels, name) && Defined(frags, name)
    ensures n > 0 && Expand(frags[name], frags, n - 1).Some?
    decreases sels, 0
  {
    if SpreadsOne(sels[0], name) {
      SpreadOneIsExpanded(sels[0], frags, n, name);
    } else {
      SpreadIsExpanded(sels[1..], frags, n, name);
    }
  }

  lemma {:induction false} SpreadOneIsExpanded(sel: Selection, frags: Fragments, n: nat, name: string)
    requires ExpandOne(sel, frags, n).Some? && SpreadsOne(sel, name) && Defined(frags, name)
    ensures n > 0 && Expand(frags[name], frags, n - 1).Some?
    decreases sel, 1
  {
    match sel
    case FieldSel(_, sub) => SpreadIsExpanded(sub.selections, frags, n, name);
    case InlineFragment(sub) => SpreadIsExpanded(sub.selections, frags, n, name);
    case FragmentSpread(_) =>
  }

  /** Each step along a chain needs one unit of fuel less. */
  lemma {:induction false} ChainUsesFuel(ss: SelectionSet, frags: Fragments, chain: seq<string>, j: nat, n: nat)
    requires IsChain(ss, frags, chain) && j < |chain| && Expand(ss, frags, n).Some?
    ensures n > j && Defined(frags, chain[j]) && Expand(frags[chain[j]], frags, n - 1 - j).Some?
    decreases j
  {
    SpreadIsExpanded(ss.selections, frags, n, chain[0]);
    if j > 0 {
      assert chain[1..][j - 1] == chain[j];
      ChainUsesFuel(frags[chain[0]], frags, chain[1..], j - 1, n - 1);
    }
  }

  lemma {:induction false} ChainSuffix(ss: SelectionSet, frags: Fragments, chain: seq<string>, i: nat)
    requires IsChain(ss, frags, chain) && i < |chain|
    ensures Defined(frags, chain[i]) && IsChain(frags[chain[i]], frags, chain[i + 1..])
    decreases i
  {
    if i > 0 {
      assert chain[1..][i - 1] == chain[i] && chain[1..][i..] == chain[i + 1..];
      ChainSuffix(frags[chain[0]], frags, chain[1..], i - 1);
    }
  }

  /** When the expansion fails for lack of fuel, the fuel was used up along a chain. */
  lemma {:induction false} FailureFollowsAChain(ss: SelectionSet, frags: Fragments, n: nat) returns (chain: seq<string>)
    requires Expand(ss, frags, n).None?
    ensures IsChain(ss, frags, chain) && |chain| == n + 1
    decreases n, ss, 1
  {
    var name, rest := FailureFollowsASpread(ss.selections, frags, n);
    chain := [name] + rest;
    assert chain[1..] == rest;
  }

  lemma {:induction false} FailureFollowsASpread(sels: seq<Selection>, frags: Fragments, n: nat) returns (name: string, rest: seq<string>)
    requires ExpandAll(sels, frags, n).None?
    ensures Spreads(sels, name) && Defined(frags, name) && IsChain(frags[name], frags, rest) && |rest| == n
    decreases n, sels, 0
  {
    if ExpandOne(sels[0], frags, n).None? {
      name, rest := FailureFollowsOneSpread(sels[0], frags, n);
    } else {
      name, rest := FailureFollowsASpread(sels[1..], frags, n);
    }
  }

  lemma {:induction false} FailureFollowsOneSpread(sel: Selection, frags: Fragments, n: nat) returns (name: string, rest: seq<string>)
    requires ExpandOne(sel, frags, n).None?
    ensures SpreadsOne(sel, name) && Defined(frags, name) && IsChain(frags[name], frags, rest) && |rest| == n
    decreases n, sel, 2
  {
    match sel
    case FieldSel(_, sub) => name, rest := FailureFollowsASpread(sub.selections, frags, n);
    case InlineFragment(sub) => name, rest := FailureFollowsASpread(sub.selections, frags, n);
    case FragmentSpread(k) =>
      name, rest := k.value, [];
      if n > 0 { rest := FailureFollowsAChain(frags[name], frags, n - 1); }
  }

  lemma ChainStaysInFragments(ss: SelectionSet, frags: Fragments, chain: seq<string>)
    requires IsChain(ss, frags, chain)
    ensures forall i | 0 <= i < |chain| :: chain[i] in frags.Keys
  {
    forall i | 0 <= i < |chain| ensures chain[i] in frags.Keys { ChainSuffix(ss, frags, chain, i); }
  }

  lemma {:induction false} Pigeonhole(xs: seq<string>, s: set<string>)
    requires |xs| > |s| && forall i | 0 <= i < |xs| :: xs[i] in s
    ensures exists i, j :: 0 <= i < j < |xs| && xs[i] == xs[j]
    decreases |xs|
  {
    var n := |xs| - 1;
    if exists i | 0 <= i < n :: xs[i] == xs[n] {
      var i :| 0 <= i < n && xs[i] == xs[n];
      assert 0 <= i < n < |xs|;
    } else {
      var t := s - {xs[n]};
      assert |s| == |t| + 1;
      Pigeonhole(xs[..n], t);
      var i, j :| 0 <= i < j < |xs[..n]| && xs[..n][i] == xs[..n][j];
      assert xs[i] == xs[j];
    }
  }

  /** A selection set has a finite expansion exactly when it reaches no fragment cycle. */
  lemma ExpandableIffAcyclic(ss: SelectionSet, frags: Fragments)
    ensures Expandable(ss, frags) <==> !ReachesCycle(ss, frags)
    ensures !ReachesCycle(ss, frags) ==> Expand(ss, frags, |frags.Keys|).Some?
  {
    if Expandable(ss, frags) && ReachesCycle(ss, frags) {
      var n: nat :| Expand(ss, frags, n).Some?;
      var chain: seq<string>, i, j :| 0 <= i < j < |chain| && IsChain(ss, frags, chain) && chain[i] == chain[j];
      ChainUsesFuel(ss, frags, chain, i, n);
      var m := LeastFuel(frags[chain[i]], frags, n - 1 - i);
      ChainSuffix(ss, frags, chain, i);
      assert chain[i + 1..][j - i - 1] == chain[j];
      ChainUsesFuel(frags[chain[i]], frags, chain[i + 1..], j - i - 1, m);
      ExpandMonotone(frags[chain[i]], frags, m - (j - i), m - 1);
    }
    if Expand(ss, frags, |frags.Keys|).None? {
      var chain := FailureFollowsAChain(ss, frags, |frags.Keys|);
      ChainStaysInFragments(ss, frags, chain);
      Pigeonhole(chain, frags.Keys);
    }
  }

  // --- Documents ---

  datatype Verdict = Accepted | CycleFound | TooDeep(depth: int) | TooManyAliases(count: nat)

  /** The last definition of a name wins. */
  function FragmentsOf(defs: seq<Definition>): Fragments {
    if defs == [] then map[]
    else
      var n := |defs| - 1;
      var before := FragmentsOf(defs[..n]);
      if defs[n].FragmentDef? && defs[n].name.Some? then before[defs[n].name.value := defs[n].body] else before
  }

  predicate Defines(d: Definition, name: string) {
    d.FragmentDef? && d.name == Some(name)
  }

  predicate IsLastOf(defs: seq<Definition>, i: int, name: string) {
    0 <= i < |defs| && Defines(defs[i], name) && forall j | i < j < |defs| :: !Defines(defs[j], name)
  }

  /** The fragments of a document: a name has one exactly when some definition bears it, and it is
      the body of the last such definition. */
  ghost predicate IsTable(defs: seq<Definition>, frags: Fragments) {
    && (forall name: string :: name in frags <==> exists i :: 0 <= i < |defs| && Defines(defs[i], name))
    && (forall name: string, i :: IsLastOf(defs, i, name) ==> name in frags && frags[name] == defs[i].body)
  }

  lemma {:induction false} HasLast(defs: seq<Definition>, i: nat, name: string) returns (last: nat)
    requires i < |defs| && Defines(defs[i], name)
    ensures IsLastOf(defs, last, name)
    decreases |defs| - i
  {
    if j :| i < j < |defs| && Defines(defs[j], name) {
      last := HasLast(defs, j, name);
    } else {
      last := i;
    }
  }

  lemma {:induction false} FragmentsOfIsTable(defs: seq<Definition>)
    ensures IsTable(defs, FragmentsOf(defs))
  {
    if defs != [] {
      var n := |defs| - 1;
      var before, d := defs[..n], defs[n];
      FragmentsOfIsTable(before);
      forall name: string ensures name in FragmentsOf(defs) <==> exists i :: 0 <= i < |defs| && Defines(defs[i], name) {
        if Defines(d, name) { assert Defines(defs[n], name); }
        if i :| 0 <= i < n && Defines(before[i], name) { assert Defines(defs[i], name); }
        if i :| 0 <= i < n && Defines(defs[i], name) { assert Defines(before[i], name); }
      }
      forall name: string, i | IsLastOf(defs, i, name)
        ensures name in FragmentsOf(defs) && FragmentsOf(defs)[name] == defs[i].body
      {
        if i < n {
          assert !Defines(defs[n], name);
          assert IsLastOf(before, i, name);
        }
      }
    }
  }

  lemma TableIsUnique(defs: seq<Definition>, frags: Fragments)
    requires IsTable(defs, frags)
    ensures frags == FragmentsOf(defs)
  {
    FragmentsOfIsTable(defs);
    forall name | name in frags ensures name in FragmentsOf(defs) && FragmentsOf(defs)[name] == frags[name] {
      var i :| 0 <= i < |defs| && Defines(defs[i], name);
      var last := HasLast(defs, i, name);
    }
    assert frags.Keys == FragmentsOf(defs).Keys;
  }

  /** The loop over the operations, with the aliases counted so far. */
  function CheckFrom(defs: seq<Definition>, frags: Fragments, aliases: nat): Verdict {
    if defs == [] then
      if aliases > MAX_QUERY_ALIASES then TooManyAliases(aliases) else Accepted
    else if !defs[0].Operation? then CheckFrom(defs[1..], frags, aliases)
    else
      var m := Measure(defs[0].body, frags, {}, 1, aliases);
      if m.outcome.Cycle? then CycleFound
      else if m.outcome.depth > MAX_QUERY_DEPTH then TooDeep(m.outcome.depth)
      else CheckFrom(defs[1..], frags, m.aliases)
  }

  /** `checkQueryComplexity`; None stands for an empty or unparsable query. */
  function Check(doc: Option<seq<Definition>>): Verdict {
    if doc.None? then Accepted else CheckFrom(doc.value, FragmentsOf(doc.value), 0)
  }

  /** The full expansion of a selection set, or None when it reaches a fragment cycle. */
  function Expansion(ss: SelectionSet, frags: Fragments): Option<seq<Expanded>> {
    Expand(ss, frags, |frags.Keys|)
  }

  lemma ExpansionExistsIffAcyclic(ss: SelectionSet, frags: Fragments)
    ensures Expansion(ss, frags).Some? <==> !ReachesCycle(ss, frags)
  {
    ExpandableIffAcyclic(ss, frags);
    if Expansion(ss, frags).Some? { assert Expandable(ss, frags); }
  }

  /** One operation passes exactly when its expansion exists and opens no
      selection set beyond the limit; then its true depth and aliases are measured. */
  lemma OperationMeasure(ss: SelectionSet, frags: Fragments, aliases: nat)
    ensures var m, x := Measure(ss, frags, {}, 1, aliases), Expansion(ss, frags);
            && (Within(m) <==> x.Some? && Opened(x.value) < MAX_QUERY_DEPTH)
            && (Within(m) ==> m == Measured(Depth(Height(x.value)), aliases + Aliases(x.value)))
  {
    if ss.SelectionSet? {
      var m, x := Measure(ss, frags, {}, 1, aliases), Expansion(ss, frags);
      assert frags.Keys - {} == frags.Keys;
      if Within(m) { MeasureIsSound(ss, frags, {}, 1, aliases); }
      if x.Some? && Opened(x.value) < MAX_QUERY_DEPTH { MeasureIsComplete(ss, frags, {}, 1, aliases, |frags.Keys|); }
    }
  }

  /** Every operation has an expansion, opened less than `limit` deep. */
  predicate AllOpenedBelow(defs: seq<Definition>, frags: Fragments, limit: nat) {
    forall i | 0 <= i < |defs| && defs[i].Operation? ::
      Expansion(defs[i].body, frags).Some? && Opened(Expansion(defs[i].body, frags).value) < limit
  }

  /** The aliased fields of all operations after expansion. */
  function TotalAliases(defs: seq<Definition>, frags: Fragments): nat {
    if defs == [] then 0
    else
      (if defs[0].Operation? && Expansion(defs[0].body, frags).Some? then Aliases(Expansion(defs[0].body, frags).value) else 0)
      + TotalAliases(defs[1..], frags)
  }

  lemma {:induction false} CheckFromIsExact(defs: seq<Definition>, frags: Fragments, aliases: nat)
    ensures CheckFrom(defs, frags, aliases).Accepted? <==>
            AllOpenedBelow(defs, frags, MAX_QUERY_DEPTH) && aliases + TotalAliases(defs, frags) <= MAX_QUERY_ALIASES
  {
    if defs != [] {
      assert AllOpenedBelow(defs, frags, MAX_QUERY_DEPTH) ==> AllOpenedBelow(defs[1..], frags, MAX_QUERY_DEPTH);
      if defs[0].Operation? {
        OperationMeasure(defs[0].body, frags, aliases);
        var m := Measure(defs[0].body, frags, {}, 1, aliases);
        if Within(m) { CheckFromIsExact(defs[1..], frags, m.aliases); }
      } else {
        CheckFromIsExact(defs[1..], frags, aliases);
      }
      forall i | 0 <= i < |defs| && defs[i].Operation? && i > 0 ensures defs[i] == defs[1..][i - 1] {}
    }
  }

  /** Exactly which documents pass, whatever they hold. */
  lemma AcceptedExactly(defs: seq<Definition>, frags: Fragments)
    requires IsTable(defs, frags)
    ensures Check(Some(defs)).Accepted? <==> AllOpenedBelow(defs, frags, 15) && TotalAliases(defs, frags) <= 50
  {
    TableIsUnique(defs, frags);
    CheckFromIsExact(defs, frags, 0);
  }

  /** No operation reaches a fragment cycle, and every one has depth at most `limit` when expanded. */
  ghost predicate AllWithinDepth(defs: seq<Definition>, frags: Fragments, limit: nat) {
    forall i | 0 <= i < |defs| && defs[i].Operation? ::
      && !ReachesCycle(defs[i].body, frags)
      && Expansion(defs[i].body, frags).Some?
      && Height(Expansion(defs[i].body, frags).value) <= limit
  }

  /** An accepted document has no fragment cycle in reach of an operation, depth
      at most 15 and at most 50 aliases after full expansion. */
  lemma AcceptedOnlyWithinLimits(defs: seq<Definition>, frags: Fragments)
    requires IsTable(defs, frags) && Check(Some(defs)).Accepted?
    ensures AllWithinDepth(defs, frags, 15) && TotalAliases(defs, frags) <= 50
  {
    AcceptedExactly(defs, frags);
    forall i | 0 <= i < |defs| && defs[i].Operation?
      ensures !ReachesCycle(defs[i].body, frags) && Height(Expansion(defs[i].body, frags).value) <= MAX_QUERY_DEPTH
    {
      ExpansionExistsIffAcyclic(defs[i].body, frags);
      HeightWithinOpened(Expansion(defs[i].body, frags).value);
    }
  }

  // --- A rejection tells the truth ---

  /** The chain ends in a fragment that was entered before. */
  predicate Returns(visiting: set<string>, chain: seq<string>) {
    chain != [] && var n := |chain| - 1; chain[n] in visiting || chain[n] in chain[..n]
  }

  predicate AllDefined(frags: Fragments, visiting: set<string>) {
    forall v | v in visiting :: Defined(frags, v)
  }

  lemma {:induction false} CycleFollowsAChain(ss: SelectionSet, frags: Fragments, visiting: set<string>, depth: nat, aliases: nat)
    returns (chain: seq<string>)
    requires AllDefined(frags, visiting) && Measure(ss, frags, visiting, depth, aliases).outcome.Cycle?
    ensures IsChain(ss, frags, chain) && Returns(visiting, chain)
    decreases Unvisited(frags, visiting), ss, 1
  {
    chain := CycleFollowsASpread(ss.selections, frags, visiting, depth, depth - 1, aliases);
  }

  lemma {:induction false} CycleFollowsASpread(sels: seq<Selection>, frags: Fragments, visiting: set<string>, depth: nat, maxDepth: int, aliases: nat)
    returns (chain: seq<string>)
    requires AllDefined(frags, visiting) && MeasureFrom(sels, frags, visiting, depth, maxDepth, aliases).outcome.Cycle?
    ensures Returns(visiting, chain) && Spreads(sels, chain[0]) && Defined(frags, chain[0])
    ensures IsChain(frags[chain[0]], frags, chain[1..])
    decreases Unvisited(frags, visiting), sels, 0
  {
    var m := MeasureOne(sels[0], frags, visiting, depth, aliases);
    if m.outcome.Cycle? {
      chain := CycleFollowsOneSpread(sels[0], frags, visiting, depth, aliases);
    } else {
      chain := CycleFollowsASpread(sels[1..], frags, visiting, depth, Max(maxDepth, m.outcome.depth), m.aliases);
    }
  }

  lemma {:induction false} CycleFollowsOneSpread(sel: Selection, frags: Fragments, visiting: set<string>, depth: nat, aliases: nat)
    returns (chain: seq<string>)
    requires AllDefined(frags, visiting) && MeasureOne(sel, frags, visiting, depth, aliases).outcome.Cycle?
    ensures Returns(visiting, chain) && SpreadsOne(sel, chain[0]) && Defined(frags, chain[0])
    ensures IsChain(frags[chain[0]], frags, chain[1..])
    decreases Unvisited(frags, visiting), sel, 2
  {
    match sel
    case FieldSel(alias, sub) =>
      chain := CycleFollowsAChain(sub, frags, visiting, depth + 1, if IsAliased(alias) then aliases + 1 else aliases);
    case InlineFragment(sub) => chain := CycleFollowsAChain(sub, frags, visiting, depth, aliases);
    case FragmentSpread(name) =>
      if name.value in visiting {
        chain := [name.value];
      } else {
        VisitingOneMore(frags, visiting, name.value);
        var rest := CycleFollowsAChain(frags[name.value], frags, visiting + {name.value}, depth, aliases);
        chain := [name.value] + rest;
        assert chain[1..] == rest && chain[..|rest|] == [name.value] + rest[..|rest| - 1];
      }
  }

  lemma FoundCycleIsReached(ss: SelectionSet, frags: Fragments, aliases: nat)
    requires Measure(ss, frags, {}, 1, aliases).outcome.Cycle?
    ensures ReachesCycle(ss, frags)
  {
    var chain := CycleFollowsAChain(ss, frags, {}, 1, aliases);
    var n := |chain| - 1;
    var i :| 0 <= i < n && chain[..n][i] == chain[n];
    assert chain[i] == chain[n];
  }

  /** Some operation of the document reaches a fragment cycle. */
  ghost predicate AnyCycle(defs: seq<Definition>, frags: Fragments) {
    exists i :: 0 <= i < |defs| && defs[i].Operation? && ReachesCycle(defs[i].body, frags)
  }

  /** Some operation reaches a fragment cycle, or opens `limit` selection sets inside one another. */
  ghost predicate AnyTooDeep(defs: seq<Definition>, frags: Fragments, limit: nat) {
    exists i :: 0 <= i < |defs| && defs[i].Operation? &&
      (Expansion(defs[i].body, frags).None? || Opened(Expansion(defs[i].body, frags).value) >= limit)
  }

  lemma {:induction false} VerdictIsTrue(defs: seq<Definition>, frags: Fragments, aliases: nat)
    ensures var v := CheckFrom(defs, frags, aliases);
            match v
            case Accepted => true
            case CycleFound => AnyCycle(defs, frags)
            case TooDeep(depth) => depth > 15 && AnyTooDeep(defs, frags, 15)
            case TooManyAliases(count) =>
              count > 50 && count == aliases + TotalAliases(defs, frags) && AllOpenedBelow(defs, frags, 15)
  {
    if defs != [] {
      var v, rest := CheckFrom(defs, frags, aliases), defs[1..];
      if defs[0].Operation? {
        OperationMeasure(defs[0].body, frags, aliases);
        var m := Measure(defs[0].body, frags, {}, 1, aliases);
        if m.outcome.Cycle? {
          FoundCycleIsReached(defs[0].body, frags, aliases);
        } else if Within(m) {
          VerdictIsTrue(rest, frags, m.aliases);
        }
      } else {
        VerdictIsTrue(rest, frags, aliases);
      }
      if i :| 0 <= i < |rest| && rest[i].Operation? && ReachesCycle(rest[i].body, frags) { assert defs[i + 1] == rest[i]; }
      if i :| 0 <= i < |rest| && rest[i].Operation? &&
              (Expansion(rest[i].body, frags).None? || Opened(Expansion(rest[i].body, frags).value) >= 15) {
        assert defs[i + 1] == rest[i];
      }
      forall i | 0 <= i < |defs| && defs[i].Operation? && i > 0 ensures defs[i] == rest[i - 1] {}
    }
  }

  /** The reason given for a rejection is true of the document, and the counted aliases are all of them. */
  lemma RejectionIsTrue(defs: seq<Definition>, frags: Fragments)
    requires IsTable(defs, frags)
    ensures match Check(Some(defs))
            case Accepted => true
            case CycleFound => AnyCycle(defs, frags)
            case TooDeep(depth) => depth > 15 && AnyTooDeep(defs, frags, 15)
            case TooManyAliases(count) => count == TotalAliases(defs, frags) > 50 && AllOpenedBelow(defs, frags, 15)
  {
    TableIsUnique(defs, frags);
    VerdictIsTrue(defs, frags, 0);
  }

  // --- Documents as the parser produces them ---

  /** No selection set is empty, and every spread names a defined fragment
      (section 5.5.2.1 of the GraphQL specification). */
  predicate Filled(ss: SelectionSet, frags: Fragments) {
    ss.SelectionSet? && ss.selections != [] && AllFilled(ss.selections, frags)
  }

  predicate AllFilled(sels: seq<Selection>, frags: Fragments) {
    sels == [] || (FilledOne(sels[0], frags) && AllFilled(sels[1..], frags))
  }

  predicate FilledOne(sel: Selection, frags: Fragments) {
    match sel
    case FieldSel(_, sub) => sub.NoSet? || Filled(sub, frags)
    case InlineFragment(sub) => Filled(sub, frags)
    case FragmentSpread(name) => name.Some? && Defined(frags, name.value)
  }

  ghost predicate FilledDocument(defs: seq<Definition>, frags: Fragments) {
    && (forall i | 0 <= i < |defs| && defs[i].Operation? :: Filled(defs[i].body, frags))
    && (forall f | f in frags :: Filled(frags[f], frags))
  }

  /** Every opened selection set holds a field. */
  predicate Proper(xs: seq<Expanded>) {
    xs == [] || (ProperOne(xs[0]) && Proper(xs[1..]))
  }

  predicate ProperOne(x: Expanded) {
    x.Nested? ==> x.children != [] && Proper(x.children)
  }

  lemma ProperSingle(x: Expanded)
    requires ProperOne(x)
    ensures Proper([x])
  {
    assert [x][1..] == [];
  }

  lemma ProperConcat(xs: seq<Expanded>, ys: seq<Expanded>)
    requires Proper(xs) && Proper(ys)
    ensures Proper(xs + ys)
  {
    if xs == [] {
      assert xs + ys == ys;
    } else {
      assert (xs + ys)[1..] == xs[1..] + ys;
      ProperConcat(xs[1..], ys);
    }
  }

  lemma {:induction false} ProperHeight(xs: seq<Expanded>)
    requires Proper(xs)
    ensures xs != [] ==> Height(xs) == Opened(xs) + 1
    decreases xs, 0
  {
    if xs != [] {
      ProperHeightOne(xs[0]);
      ProperHeight(xs[1..]);
    }
  }

  lemma {:induction false} ProperHeightOne(x: Expanded)
    requires ProperOne(x)
    ensures HeightOne(x) == OpenedOne(x) + 1
    decreases x, 1
  {
    if x.Nested? { ProperHeight(x.children); }
  }

  lemma {:induction false} FilledExpandsProperly(ss: SelectionSet, frags: Fragments, n: nat)
    requires Filled(ss, frags) && Expand(ss, frags, n).Some? && forall f | f in frags :: Filled(frags[f], frags)
    ensures Expand(ss, frags, n).value != [] && Proper(Expand(ss, frags, n).value)
    decreases n, ss, 1
  {
    AllFilledExpandsProperly(ss.selections, frags, n);
  }

  lemma {:induction false} AllFilledExpandsProperly(sels: seq<Selection>, frags: Fragments, n: nat)
    requires AllFilled(sels, frags) && ExpandAll(sels, frags, n).Some? && forall f | f in frags :: Filled(frags[f], frags)
    ensures (sels != [] ==> ExpandAll(sels, frags, n).value != []) && Proper(ExpandAll(sels, frags, n).value)
    decreases n, sels, 0
  {
    if sels != [] {
      FilledOneExpandsProperly(sels[0], frags, n);
      AllFilledExpandsProperly(sels[1..], frags, n);
      ProperConcat(ExpandOne(sels[0], frags, n).value, ExpandAll(sels[1..], frags, n).value);
    }
  }

  lemma {:induction false} FilledOneExpandsProperly(sel: Selection, frags: Fragments, n: nat)
    requires FilledOne(sel, frags) && ExpandOne(sel, frags, n).Some? && forall f | f in frags :: Filled(frags[f], frags)
    ensures ExpandOne(sel, frags, n).value != [] && Proper(ExpandOne(sel, frags, n).value)
    decreases n, sel, 2
  {
    match sel
    case FieldSel(alias, sub) =>
      if sub.SelectionSet? { FilledExpandsProperly(sub, frags, n); }
      var x := ExpandOne(sel, frags, n).value;
      assert x == [x[0]] && ProperOne(x[0]);
      ProperSingle(x[0]);
    case InlineFragment(sub) => FilledExpandsProperly(sub, frags, n);
    case FragmentSpread(name) => FilledExpandsProperly(frags[name.value], frags, n - 1);
  }

  /** A parsed document whose spreads are all defined is accepted exactly when
      no operation reaches a fragment cycle, every expanded operation has depth
      at most 15 and the expanded aliases total at most 50, despite the early cut-offs. */
  lemma FilledDocumentAcceptedIff(defs: seq<Definition>, frags: Fragments)
    requires IsTable(defs, frags) && FilledDocument(defs, frags)
    ensures Check(Some(defs)).Accepted? <==> AllWithinDepth(defs, frags, 15) && TotalAliases(defs, frags) <= 50
  {
    AcceptedExactly(defs, frags);
    if Check(Some(defs)).Accepted? {
      AcceptedOnlyWithinLimits(defs, frags);
    } else if AllWithinDepth(defs, frags, MAX_QUERY_DEPTH) {
      forall i | 0 <= i < |defs| && defs[i].Operation?
        ensures Opened(Expansion(defs[i].body, frags).value) < MAX_QUERY_DEPTH
      {
        FilledExpandsProperly(defs[i].body, frags, |frags.Keys|);
        ProperHeight(Expansion(defs[i].body, frags).value);
      }
      assert AllOpenedBelow(defs, frags, MAX_QUERY_DEPTH);
    }
  }

  /** The shortest such document, with one field, is accepted. */
  lemma OneFieldIsAccepted(alias: Option<string>)
    ensures var defs := [Operation(SelectionSet([FieldSel(alias, NoSet)]))];
            IsTable(defs, map[]) && FilledDocument(defs, map[]) && Check(Some(defs)).Accepted?
  {
    var sels := [FieldSel(alias, NoSet)];
    var defs := [Operation(SelectionSet(sels))];
    FragmentsOfIsTable(defs);
    assert FragmentsOf(defs) == FragmentsOf(defs[..0]) == map[];
    var none: Fragments := map[];
    assert sels[1..] == [] && defs[1..] == [];
    assert AllFilled([], none) && FilledOne(sels[0], none) && AllFilled(sels, none);
    assert forall i | 0 <= i < |defs| :: defs[i] == defs[0];
    var one := MeasureOne(sels[0], none, {}, 1, 0);
    assert one.outcome == Depth(1) && one.aliases <= 1;
    assert MeasureFrom(sels, none, {}, 1, 0, 0) == MeasureFrom([], none, {}, 1, 1, one.aliases);
    assert CheckFrom(defs, none, 0) == CheckFrom([], none, one.aliases);
  }

  /** `k` fields nested in one another, the innermost with nothing but a spread of a fragment
      that the document does not define: it parses, and it expands to nothing. */
  function HollowNest(k: nat): SelectionSet {
    if k == 0 then SelectionSet([FragmentSpread(Some("missing"))]) else SelectionSet([FieldSel(None, HollowNest(k - 1))])
  }

  lemma HollowNestMeasures(k: nat)
    ensures var x := Expand(HollowNest(k), map[], 0);
            x.Some? && Height(x.value) == k && Opened(x.value) == k && Aliases(x.value) == 0
  {
    if k > 0 {
      HollowNestMeasures(k - 1);
      var inner := Expand(HollowNest(k - 1), map[], 0).value;
      FieldUnfolds(None, HollowNest(k - 1), map[], {}, 1, 0, 0);
      var sels := HollowNest(k).selections;
      assert sels == [FieldSel(None, HollowNest(k - 1))] && sels[1..] == [];
      assert ExpandAll(sels, map[], 0) == Append(Some([Nested(false, inner)]), ExpandAll([], map[], 0));
      assert [Nested(false, inner)] + [] == [Nested(false, inner)];
      MeasuresOfOne(Nested(false, inner));
    }
  }

  /** Without that hypothesis the limit is one level tighter: a field at depth 15
      whose selection set expands to nothing is rejected. */
  lemma HollowSetAtLimitIsRejected(frags: Fragments)
    requires IsTable([Operation(HollowNest(15))], frags)
    ensures var defs := [Operation(HollowNest(15))];
            AllWithinDepth(defs, frags, 15) && !Check(Some(defs)).Accepted?
  {
    var defs := [Operation(HollowNest(15))];
    TableIsUnique(defs, frags);
    assert frags == FragmentsOf(defs[..0]) == map[];
    HollowNestMeasures(15);
    ExpansionExistsIffAcyclic(defs[0].body, map[]);
    AcceptedExactly(defs, frags);
    assert defs[0].Operation?;
  }

  // --- The walk as the source runs it ---

  /** The state one check shares along its recursion. */
  class Checker {
    const fragments: Fragments
    var visiting: set<string>
    var aliasCount: nat

    constructor (fragments: Fragments)
      ensures this.fragments == fragments && visiting == {} && aliasCount == 0
    {
      this.fragments := fragments;
      visiting, aliasCount := {}, 0;
    }

    /** `measureSelectionSet`: terminates on unvisited fragments and query size,
        and leaves the visiting set as it found it. */
    method MeasureSelectionSet(ss: SelectionSet, depth: nat) returns (r: Outcome)
      requires depth >= 1
      modifies this
      ensures visiting == old(visiting)
      ensures Measured(r, aliasCount) == Measure(ss, fragments, old(visiting), depth, old(aliasCount))
      decreases Unvisited(fragments, visiting), ss, 1
    {
      if ss.NoSet? { return Depth(depth - 1); }
      if depth > MAX_QUERY_DEPTH { return Depth(depth); }
      var maxDepth := depth - 1;
      var sels, i := ss.selections, 0;
      while i < |sels|
        invariant 0 <= i <= |sels| && visiting == old(visiting)
        invariant MeasureFrom(sels[i..], fragments, visiting, depth, maxDepth, aliasCount)
               == Measure(ss, fragments, visiting, depth, old(aliasCount))
      {
        var one := MeasureSelection(sels[i], depth);
        assert sels[i..][1..] == sels[i + 1..];
        if one.Cycle? { return Cycle; }
        if one.depth > maxDepth { maxDepth := one.depth; }
        if maxDepth > MAX_QUERY_DEPTH { return Depth(maxDepth); }
        i := i + 1;
      }
      r := Depth(maxDepth);
    }

    method MeasureSelection(sel: Selection, depth: nat) returns (r: Outcome)
      requires depth >= 1
      modifies this
      ensures visiting == old(visiting)
      ensures Measured(r, aliasCount) == MeasureOne(sel, fragments, old(visiting), depth, old(aliasCount))
      decreases Unvisited(fragments, visiting), sel, 2
    {
      match sel
      case FieldSel(alias, sub) =>
        if IsAliased(alias) { aliasCount := aliasCount + 1; }
        r := Depth(depth);
        if sub.SelectionSet? { r := MeasureSelectionSet(sub, depth + 1); }
      case InlineFragment(sub) =>
        r := MeasureSelectionSet(sub, depth);
      case FragmentSpread(name) =>
        r := Depth(depth - 1);
        if name.None? { return; }
        if name.value in visiting { return Cycle; }
        if name.value !in fragments || fragments[name.value].NoSet? { return; }
        VisitingOneMore(fragments, visiting, name.value);
        visiting := visiting + {name.value};
        r := MeasureSelectionSet(fragments[name.value], depth);
        visiting := visiting - {name.value};
    }
  }

  /** `checkQueryComplexity`. */
  method CheckQueryComplexity(doc: Option<seq<Definition>>) returns (v: Verdict)
    ensures v == Check(doc) && (doc.None? ==> v.Accepted?)
  {
    if doc.None? { return Accepted; }
    var defs := doc.value;
    var fragments: Fragments := map[];
    var i := 0;
    while i < |defs|
      invariant 0 <= i <= |defs|
      invariant fragments == FragmentsOf(defs[..i])
    {
      assert defs[..i + 1][..i] == defs[..i];
      if defs[i].FragmentDef? && defs[i].name.Some? {
        fragments := fragments[defs[i].name.value := defs[i].body];
      }
      i := i + 1;
    }
    assert defs[..i] == defs;
    var checker := new Checker(fragments);
    i := 0;
    while i < |defs|
      invariant 0 <= i <= |defs| && checker.visiting == {} && checker.fragments == fragments
      invariant CheckFrom(defs[i..], fragments, checker.aliasCount) == Check(doc)
    {
      assert defs[i..][1..] == defs[i + 1..];
      if defs[i].Operation? {
        var r := checker.MeasureSelectionSet(defs[i].body, 1);
        if r.Cycle? { return CycleFound; }
        if r.depth > MAX_QUERY_DEPTH { return TooDeep(r.depth); }
      }
      i := i + 1;
    }
    if checker.aliasCount > MAX_QUERY_ALIASES { return TooManyAliases(checker.aliasCount); }
    v := Accepted;
  }
}
