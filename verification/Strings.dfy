/** String operations of the Go standard library that several components share:
    lexicographic order, sorting, prefixes and suffixes, and decimal rendering; and the
    concatenation of sequences. */
module Strings {

  /** Go's `a < b` on strings. */
  predicate Less(a: string, b: string)
  {
    if b == "" then false
    else if a == "" then true
    else a[0] < b[0] || (a[0] == b[0] && Less(a[1..], b[1..]))
  }

  predicate AtMost(a: string, b: string) {
    a == b || Less(a, b)
  }

  lemma LessIsTotal(a: string, b: string)
    ensures Less(a, b) || a == b || Less(b, a)
  {
    if a != "" && b != "" && a[0] == b[0] {
      LessIsTotal(a[1..], b[1..]);
      assert a == [a[0]] + a[1..] && b == [b[0]] + b[1..];
    }
  }

  lemma LessIsStrict(a: string, b: string)
    ensures !(Less(a, b) && Less(b, a))
    ensures !Less(a, a)
  {
    if a != "" && b != "" {
      LessIsStrict(a[1..], b[1..]);
    }
    if a != "" {
      LessIsStrict(a[1..], a[1..]);
    }
  }

  lemma LessIsTransitive(a: string, b: string, c: string)
    requires Less(a, b) && Less(b, c)
    ensures Less(a, c)
  {
    if a != "" && a[0] == b[0] && b[0] == c[0] {
      LessIsTransitive(a[1..], b[1..], c[1..]);
    }
  }

  /** A shared prefix does not affect the order. */
  lemma LessCancelsPrefix(p: string, a: string, b: string)
    ensures Less(p + a, p + b) == Less(a, b)
  {
    if p == "" {
      assert p + a == a && p + b == b;
    } else {
      assert (p + a)[1..] == p[1..] + a && (p + b)[1..] == p[1..] + b;
      LessCancelsPrefix(p[1..], a, b);
    }
  }

  ghost predicate Ascending(xs: seq<string>) {
    forall i, j | 0 <= i < j < |xs| :: Less(xs[i], xs[j])
  }

  predicate IsLeast(k: string, s: set<string>) {
    k in s && forall j | j in s :: AtMost(k, j)
  }

  lemma LeastExists(s: set<string>)
    requires s != {}
    ensures exists k :: IsLeast(k, s)
  {
    var x :| x in s;
    if s == {x} {
      assert IsLeast(x, s);
    } else {
      var rest := s - {x};
      LeastExists(rest);
      var k :| IsLeast(k, rest);
      LessIsTotal(x, k);
      if Less(x, k) {
        forall j | j in s ensures AtMost(x, j) {
          if j != x && j != k {
            assert j in rest;
            LessIsTransitive(x, k, j);
          }
        }
        assert IsLeast(x, s);
      } else {
        assert IsLeast(k, s);
      }
    }
  }

  lemma LeastIsUnique(s: set<string>, k: string, l: string)
    requires IsLeast(k, s) && IsLeast(l, s)
    ensures k == l
  {
    LessIsStrict(k, l);
  }

  function Least(s: set<string>): (k: string)
    requires s != {}
    ensures IsLeast(k, s)
  {
    LeastExists(s);
    assert forall k, l | IsLeast(k, s) && IsLeast(l, s) :: k == l by {
      forall k, l | IsLeast(k, s) && IsLeast(l, s) ensures k == l { LeastIsUnique(s, k, l); }
    }
    var k :| IsLeast(k, s);
    k
  }

  /** The keys of a Go map after `sort.Strings`. */
  function SortedKeys(s: set<string>): (r: seq<string>)
    ensures forall k :: k in r <==> k in s
    ensures Ascending(r)
  {
    if s == {} then []
    else
      var k := Least(s);
      var rest := SortedKeys(s - {k});
      assert forall j | 0 <= j < |rest| :: rest[j] in rest && Less(k, rest[j]);
      [k] + rest
  }

  lemma LeastStays(s: set<string>, k: string)
    requires s != {} && forall x | x in s :: Less(x, k)
    ensures Least(s + {k}) == Least(s)
  {
    assert IsLeast(Least(s), s + {k});
    LeastIsUnique(s + {k}, Least(s), Least(s + {k}));
  }

  lemma {:induction false} SortedKeysAppend(s: set<string>, k: string)
    requires forall x | x in s :: Less(x, k)
    ensures SortedKeys(s + {k}) == SortedKeys(s) + [k]
  {
    if s == {} {
      assert s + {k} == {k};
      assert {k} - {k} == {};
    } else {
      var m := Least(s);
      LeastStays(s, k);
      LessIsStrict(k, k);
      assert s + {k} - {m} == (s - {m}) + {k};
      SortedKeysAppend(s - {m}, k);
    }
  }

  lemma SortedOne(k: string)
    ensures SortedKeys({k}) == [k]
  {
    assert {k} - {k} == {};
  }

  lemma SortedPair(j: string, k: string)
    requires Less(j, k)
    ensures SortedKeys({j, k}) == [j, k]
  {
    LessIsStrict(j, j);
    SortedOne(j);
    SortedKeysAppend({j}, k);
    assert {j} + {k} == {j, k};
  }

  lemma KeysDiffer(ks: seq<string>, i: nat)
    requires Ascending(ks) && i < |ks|
    ensures ks[i] !in ks[..i]
  {
    forall j | 0 <= j < i ensures ks[j] != ks[i] { LessIsStrict(ks[j], ks[i]); }
  }

  /** `sort.Strings`. */
  function Sort(xs: seq<string>): (r: seq<string>) {
    if xs == [] then [] else Insert(xs[0], Sort(xs[1..]))
  }

  function Insert(x: string, xs: seq<string>): (r: seq<string>) {
    if xs == [] || AtMost(x, xs[0]) then [x] + xs else [xs[0]] + Insert(x, xs[1..])
  }

  ghost predicate Ordered(xs: seq<string>) {
    forall i, j | 0 <= i < j < |xs| :: AtMost(xs[i], xs[j])
  }

  lemma InsertKeepsOrder(x: string, xs: seq<string>)
    requires Ordered(xs)
    ensures Ordered(Insert(x, xs))
    ensures multiset(Insert(x, xs)) == multiset{x} + multiset(xs)
  {
    if xs == [] {
    } else if AtMost(x, xs[0]) {
      forall i | 0 <= i < |xs| ensures AtMost(x, xs[i]) {
        if 0 < i && x != xs[0] && xs[0] != xs[i] { LessIsTransitive(x, xs[0], xs[i]); }
      }
    } else {
      LessIsTotal(x, xs[0]);
      InsertKeepsOrder(x, xs[1..]);
      assert xs == [xs[0]] + xs[1..];
      AtMostInserted(xs[0], x, xs[1..], Insert(x, xs[1..]));
    }
  }

  lemma AtMostInserted(least: string, x: string, xs: seq<string>, t: seq<string>)
    requires AtMost(least, x) && (forall i | 0 <= i < |xs| :: AtMost(least, xs[i]))
    requires multiset(t) == multiset{x} + multiset(xs)
    ensures forall i | 0 <= i < |t| :: AtMost(least, t[i])
  {
    forall i | 0 <= i < |t| ensures AtMost(least, t[i]) {
      assert t[i] in multiset(t);
      if t[i] != x { assert t[i] in xs; }
    }
  }

  /** Sorting yields an ordered permutation. */
  lemma {:induction false} SortIsOrderedPermutation(xs: seq<string>)
    ensures Ordered(Sort(xs))
    ensures multiset(Sort(xs)) == multiset(xs)
  {
    if xs != [] {
      SortIsOrderedPermutation(xs[1..]);
      InsertKeepsOrder(xs[0], Sort(xs[1..]));
      assert xs == [xs[0]] + xs[1..];
    }
  }

  function Filter(keep: string -> bool, xs: seq<string>): (r: seq<string>)
    ensures forall x :: x in r <==> x in xs && keep(x)
  {
    if xs == [] then []
    else (if keep(xs[0]) then [xs[0]] else []) + Filter(keep, xs[1..])
  }

  lemma FilterConcat(keep: string -> bool, xs: seq<string>, ys: seq<string>)
    ensures Filter(keep, xs + ys) == Filter(keep, xs) + Filter(keep, ys)
  {
    if xs == [] {
      assert xs + ys == ys;
    } else {
      assert (xs + ys)[1..] == xs[1..] + ys;
      FilterConcat(keep, xs[1..], ys);
    }
  }

  lemma FilterAll(keep: string -> bool, xs: seq<string>)
    requires forall x | x in xs :: keep(x)
    ensures Filter(keep, xs) == xs
  {
    if xs != [] {
      FilterAll(keep, xs[1..]);
      assert xs == [xs[0]] + xs[1..];
    }
  }

  lemma FilterNone(keep: string -> bool, xs: seq<string>)
    requires forall x | x in xs :: !keep(x)
    ensures Filter(keep, xs) == []
  {
    if xs != [] { FilterNone(keep, xs[1..]); }
  }

  lemma FilterInsert(keep: string -> bool, x: string, xs: seq<string>)
    requires Ordered(xs)
    ensures Filter(keep, Insert(x, xs)) == if keep(x) then Insert(x, Filter(keep, xs)) else Filter(keep, xs)
  {
    if xs == [] {
    } else if AtMost(x, xs[0]) {
      assert ([x] + xs)[1..] == xs;
      var f := Filter(keep, xs);
      if f != [] {
        assert f[0] in xs;
        var j :| 0 <= j < |xs| && xs[j] == f[0];
        if 0 < j && x != xs[0] && xs[0] != xs[j] { LessIsTransitive(x, xs[0], xs[j]); }
        assert AtMost(x, f[0]);
      }
    } else {
      FilterInsert(keep, x, xs[1..]);
      assert ([xs[0]] + Insert(x, xs[1..]))[1..] == Insert(x, xs[1..]);
      if keep(xs[0]) {
        assert ([xs[0]] + Filter(keep, xs[1..]))[1..] == Filter(keep, xs[1..]);
      } else if keep(x) {
        assert Filter(keep, xs) == Filter(keep, xs[1..]);
      }
    }
  }

  /** Filtering before or after sorting gives the same list. */
  lemma {:induction false} SortCommutesWithFilter(keep: string -> bool, xs: seq<string>)
    ensures Sort(Filter(keep, xs)) == Filter(keep, Sort(xs))
  {
    if xs != [] {
      SortCommutesWithFilter(keep, xs[1..]);
      SortIsOrderedPermutation(xs[1..]);
      FilterInsert(keep, xs[0], Sort(xs[1..]));
      if keep(xs[0]) {
        assert ([xs[0]] + Filter(keep, xs[1..]))[1..] == Filter(keep, xs[1..]);
      } else {
        assert Filter(keep, xs) == Filter(keep, xs[1..]);
      }
    }
  }

  predicate HasPrefix(s: string, p: string) {
    |p| <= |s| && s[..|p|] == p
  }

  predicate HasSuffix(s: string, p: string) {
    |p| <= |s| && s[|s| - |p|..] == p
  }

  /** `strings.ReplaceAll` for a nonempty pattern. */
  function ReplaceAll(s: string, p: string, r: string): string
    requires p != ""
  {
    if HasPrefix(s, p) then r + ReplaceAll(s[|p|..], p, r)
    else if s == "" then ""
    else [s[0]] + ReplaceAll(s[1..], p, r)
  }

  /** `strings.TrimSuffix(s, ".")`. */
  function TrimDot(s: string): (r: string) {
    if s != "" && s[|s| - 1] == '.' then s[..|s| - 1] else s
  }

  /** The decimal digits `strconv` and `fmt` print for a non-negative number. */
  function Decimal(n: nat): (r: string)
    ensures r != ""
    ensures forall i | 0 <= i < |r| :: '0' <= r[i] <= '9'
  {
    if n < 10 then [Digit(n)] else Decimal(n / 10) + [Digit(n % 10)]
  }

  function Digit(n: nat): (c: char)
    requires n < 10
    ensures '0' <= c <= '9'
  {
    '0' + (n as char)
  }

  /** `strings.Split(s, sep)` for a one-character separator. */
  function Split(s: string, sep: char): (parts: seq<string>)
    ensures parts != []
    ensures forall p | p in parts :: sep !in p
  {
    if s == "" then [""]
    else
      var rest := Split(s[1..], sep);
      if s[0] == sep then [""] + rest
      else [[s[0]] + rest[0]] + rest[1..]
  }

  function Join(parts: seq<string>, sep: char): (s: string)
    requires parts != []
  {
    if |parts| == 1 then parts[0] else parts[0] + [sep] + Join(parts[1..], sep)
  }

  lemma {:induction false} SplitOne(s: string, sep: char)
    requires sep !in s
    ensures Split(s, sep) == [s]
  {
    if s != "" {
      SplitOne(s[1..], sep);
      assert s == [s[0]] + s[1..];
    }
  }

  lemma {:induction false} SplitFirst(a: string, b: string, sep: char)
    requires sep !in a
    ensures Split(a + [sep] + b, sep) == [a] + Split(b, sep)
  {
    var s := a + [sep] + b;
    if a == "" {
      assert s[1..] == b;
    } else {
      assert s[1..] == a[1..] + [sep] + b;
      SplitFirst(a[1..], b, sep);
      assert a == [a[0]] + a[1..];
    }
  }

  lemma {:induction false} SplitConcat(a: string, b: string, sep: char)
    ensures Split(a + [sep] + b, sep) == Split(a, sep) + Split(b, sep)
  {
    var s := a + [sep] + b;
    if a == "" {
      assert s[1..] == b;
    } else {
      assert s[1..] == a[1..] + [sep] + b;
      SplitConcat(a[1..], b, sep);
    }
  }

  /** Joining inverts splitting. */
  lemma {:induction false} JoinSplit(s: string, sep: char)
    ensures Join(Split(s, sep), sep) == s
  {
    if s != "" {
      JoinSplit(s[1..], sep);
      var rest := Split(s[1..], sep);
      if s[0] == sep {
        assert ([""] + rest)[1..] == rest;
        assert s == [s[0]] + s[1..];
      } else {
        var all := [[s[0]] + rest[0]] + rest[1..];
        assert all[1..] == rest[1..];
        assert s == [s[0]] + s[1..];
      }
    }
  }

  // --- Sequences of sequences ---

  function Flatten<T>(parts: seq<seq<T>>): seq<T> {
    if parts == [] then [] else parts[0] + Flatten(parts[1..])
  }

  lemma FlattenStep<T>(parts: seq<seq<T>>, i: nat)
    requires i < |parts|
    ensures Flatten(parts[..i + 1]) == Flatten(parts[..i]) + parts[i]
  {
    if i == 0 {
      assert parts[..1] == [parts[0]];
      assert Flatten([parts[0]]) == parts[0] + Flatten<T>([]);
    } else {
      assert parts[..i + 1][1..] == parts[1..][..i] && parts[..i][1..] == parts[1..][..i - 1];
      FlattenStep(parts[1..], i - 1);
    }
  }

  lemma InFlatten<T>(parts: seq<seq<T>>, x: T)
    ensures x in Flatten(parts) <==> exists i | 0 <= i < |parts| :: x in parts[i]
  {
    if parts != [] {
      InFlatten(parts[1..], x);
      if exists i | 0 <= i < |parts| :: x in parts[i] {
        var i :| 0 <= i < |parts| && x in parts[i];
        if i > 0 { assert x in parts[1..][i - 1]; }
      }
    }
  }
}
