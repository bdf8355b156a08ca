/** Backup retention (`src/backup_retention.go`): the count phase with its periodic
    buckets, then the hard size cap. Backups are listed newest first. */
module Retention {

  /** A modification time, with the calendar fields the periodic rules look at. */
  datatype ModTime = ModTime(weekday: nat, day: nat, yearDay: nat)

  datatype Backup = Backup(path: string, mod: ModTime, size: nat)

  datatype Policy = Policy(maxBackups: int, keepWeekly: int, keepMonthly: int, keepYearly: int)

  datatype Rule = Weekly | Monthly | Yearly

  predicate Matches(rule: Rule, t: ModTime) {
    match rule
    case Weekly => t.weekday == 0
    case Monthly => t.day == 1
    case Yearly => t.yearDay == 1
  }

  /** How many of the backups newer than the `i`-th fall under the rule. */
  function Rank(rule: Rule, fulls: seq<Backup>, i: nat): nat
    requires i <= |fulls|
  {
    if i == 0 then 0 else Rank(rule, fulls, i - 1) + if Matches(rule, fulls[i - 1].mod) then 1 else 0
  }

  /** The `i`-th backup is one of the newest `n` under the rule. */
  predicate InBucket(rule: Rule, fulls: seq<Backup>, n: int, i: nat)
    requires i < |fulls|
  {
    Matches(rule, fulls[i].mod) && Rank(rule, fulls, i) < n
  }

  function Bucket(rule: Rule, fulls: seq<Backup>, n: int, end: nat): set<string>
    requires end <= |fulls|
  {
    if end == 0 then {}
    else Bucket(rule, fulls, n, end - 1) + if InBucket(rule, fulls, n, end - 1) then {fulls[end - 1].path} else {}
  }

  lemma {:induction false} RankGrows(rule: Rule, fulls: seq<Backup>, i: nat, j: nat)
    requires i <= j <= |fulls|
    ensures Rank(rule, fulls, i) <= Rank(rule, fulls, j)
  {
    if i < j { RankGrows(rule, fulls, i, j - 1); }
  }

  /** Past a full bucket nothing is added. */
  lemma {:induction false} BucketIsFull(rule: Rule, fulls: seq<Backup>, n: int, end: nat, all: nat)
    requires end <= all <= |fulls| && Rank(rule, fulls, end) >= n
    ensures Bucket(rule, fulls, n, all) == Bucket(rule, fulls, n, end)
  {
    if end < all {
      BucketIsFull(rule, fulls, n, end, all - 1);
      RankGrows(rule, fulls, end, all - 1);
    }
  }

  /** `keepPeriodic`. */
  method KeepPeriodic(fulls: seq<Backup>, before: set<string>, n: int, rule: Rule) returns (keep: set<string>)
    ensures keep == before + Bucket(rule, fulls, n, |fulls|)
  {
    keep := before;
    if n <= 0 {
      BucketIsFull(rule, fulls, n, 0, |fulls|);
      return;
    }
    var kept, i := 0, 0;
    while i < |fulls|
      invariant 0 <= i <= |fulls| && kept == Rank(rule, fulls, i) < n
      invariant keep == before + Bucket(rule, fulls, n, i)
    {
      if Matches(rule, fulls[i].mod) {
        keep := keep + {fulls[i].path};
        kept := kept + 1;
        if kept >= n {
          BucketIsFull(rule, fulls, n, i + 1, |fulls|);
          return;
        }
      }
      i := i + 1;
    }
  }

  function AtLeastOne(n: int): nat {
    if n < 1 then 1 else n
  }

  /** What the policy promises to keep: the newest few, and the newest of each period. */
  predicate IsKept(p: Policy, fulls: seq<Backup>, i: nat)
    requires i < |fulls|
  {
    i < AtLeastOne(p.maxBackups) || InBucket(Weekly, fulls, p.keepWeekly, i) ||
    InBucket(Monthly, fulls, p.keepMonthly, i) || InBucket(Yearly, fulls, p.keepYearly, i)
  }

  /** The backups that are kept, or whose removal fails, among those from `i` on. */
  function Survivors(p: Policy, fulls: seq<Backup>, stuck: set<string>, i: nat): seq<Backup>
    requires i <= |fulls|
    decreases |fulls| - i
  {
    if i == |fulls| then []
    else (if IsKept(p, fulls, i) || fulls[i].path in stuck then [fulls[i]] else []) + Survivors(p, fulls, stuck, i + 1)
  }

  predicate DistinctPaths(fulls: seq<Backup>) {
    forall i, j | 0 <= i < j < |fulls| :: fulls[i].path != fulls[j].path
  }

  lemma {:induction false} BucketHolds(rule: Rule, fulls: seq<Backup>, n: int, end: nat, i: nat)
    requires DistinctPaths(fulls) && end <= |fulls| && i < |fulls|
    ensures fulls[i].path in Bucket(rule, fulls, n, end) <==> i < end && InBucket(rule, fulls, n, i)
  {
    if end > 0 { BucketHolds(rule, fulls, n, end - 1, i); }
  }

  method KeepSet(fulls: seq<Backup>, p: Policy) returns (keep: set<string>)
    requires DistinctPaths(fulls)
    ensures forall i | 0 <= i < |fulls| :: fulls[i].path in keep <==> IsKept(p, fulls, i)
  {
    var most := AtLeastOne(p.maxBackups);
    keep := {};
    var i := 0;
    while i < |fulls|
      invariant 0 <= i <= |fulls|
      invariant forall j | 0 <= j < |fulls| :: fulls[j].path in keep <==> j < i && j < most
    {
      if i < most { keep := keep + {fulls[i].path}; }
      i := i + 1;
    }
    keep := KeepPeriodic(fulls, keep, p.keepWeekly, Weekly);
    keep := KeepPeriodic(fulls, keep, p.keepMonthly, Monthly);
    keep := KeepPeriodic(fulls, keep, p.keepYearly, Yearly);
    forall j | 0 <= j < |fulls| ensures fulls[j].path in keep <==> IsKept(p, fulls, j) {
      BucketHolds(Weekly, fulls, p.keepWeekly, |fulls|, j);
      BucketHolds(Monthly, fulls, p.keepMonthly, |fulls|, j);
      BucketHolds(Yearly, fulls, p.keepYearly, |fulls|, j);
    }
  }

  /** The count phase of `applyBackupRetention`: exactly the promised backups survive,
      and those the file system does not let go. */
  method CountPhase(fulls: seq<Backup>, p: Policy, stuck: set<string>) returns (left: seq<Backup>)
    requires DistinctPaths(fulls)
    ensures left == Survivors(p, fulls, stuck, 0)
  {
    var keep := KeepSet(fulls, p);
    left := [];
    var i := 0;
    while i < |fulls|
      invariant 0 <= i <= |fulls|
      invariant left + Survivors(p, fulls, stuck, i) == Survivors(p, fulls, stuck, 0)
    {
      if fulls[i].path in keep || fulls[i].path in stuck { left := left + [fulls[i]]; }
      i := i + 1;
    }
  }

  lemma PerhapsOneMore(s: set<string>, x: string, more: bool)
    requires more ==> x !in s
    ensures |s + if more then {x} else {}| == |s| + if more then 1 else 0
  {
    assert s + {} == s;
  }

  /** A bucket holds exactly as many backups as it can: `n`, or all that match. */
  lemma {:induction false} BucketCount(rule: Rule, fulls: seq<Backup>, n: nat, end: nat)
    requires DistinctPaths(fulls) && end <= |fulls|
    ensures |Bucket(rule, fulls, n, end)| == if Rank(rule, fulls, end) < n then Rank(rule, fulls, end) else n
  {
    if end > 0 {
      BucketCount(rule, fulls, n, end - 1);
      BucketGrows(rule, fulls, n, end);
    }
  }

  lemma BucketGrows(rule: Rule, fulls: seq<Backup>, n: nat, end: nat)
    requires DistinctPaths(fulls) && 0 < end <= |fulls|
    ensures |Bucket(rule, fulls, n, end)| == |Bucket(rule, fulls, n, end - 1)| + if InBucket(rule, fulls, n, end - 1) then 1 else 0
  {
    BucketHolds(rule, fulls, n, end - 1, end - 1);
    PerhapsOneMore(Bucket(rule, fulls, n, end - 1), fulls[end - 1].path, InBucket(rule, fulls, n, end - 1));
  }

  /** How many of the backups newer than the `i`-th have such a modification time. */
  ghost function Newer(f: ModTime -> bool, fulls: seq<Backup>, i: nat): nat
    requires i <= |fulls|
  {
    |set j | 0 <= j < i && f(fulls[j].mod)|
  }

  lemma {:induction false} RankCounts(rule: Rule, f: ModTime -> bool, fulls: seq<Backup>, i: nat)
    requires i <= |fulls| && forall t :: Matches(rule, t) == f(t)
    ensures Rank(rule, fulls, i) == Newer(f, fulls, i)
  {
    if i > 0 {
      RankCounts(rule, f, fulls, i - 1);
      var before, all := set j | 0 <= j < i - 1 && f(fulls[j].mod), set j | 0 <= j < i && f(fulls[j].mod);
      assert all == before + if f(fulls[i - 1].mod) then {i - 1} else {};
    }
  }

  /** Exactly which backups the policy keeps: the newest `maxBackups` and always the newest one, and
      the newest few that were written on a Sunday, on the first of a month and on the first of a year. */
  lemma KeptExactly(p: Policy, fulls: seq<Backup>, i: nat)
    requires i < |fulls|
    ensures var t := fulls[i].mod;
            IsKept(p, fulls, i) <==>
            || i == 0 || i < p.maxBackups
            || (t.weekday == 0 && Newer((u: ModTime) => u.weekday == 0, fulls, i) < p.keepWeekly)
            || (t.day == 1 && Newer((u: ModTime) => u.day == 1, fulls, i) < p.keepMonthly)
            || (t.yearDay == 1 && Newer((u: ModTime) => u.yearDay == 1, fulls, i) < p.keepYearly)
  {
    RankCounts(Weekly, (u: ModTime) => u.weekday == 0, fulls, i);
    RankCounts(Monthly, (u: ModTime) => u.day == 1, fulls, i);
    RankCounts(Yearly, (u: ModTime) => u.yearDay == 1, fulls, i);
  }

  /** A backup survives the count phase exactly when it is kept or cannot be removed. */
  lemma {:induction false} SurvivorsHold(p: Policy, fulls: seq<Backup>, stuck: set<string>, from: nat, i: nat)
    requires DistinctPaths(fulls) && from <= |fulls| && i < |fulls|
    ensures fulls[i] in Survivors(p, fulls, stuck, from) <==> from <= i && (IsKept(p, fulls, i) || fulls[i].path in stuck)
    decreases |fulls| - from
  {
    if from < |fulls| { SurvivorsHold(p, fulls, stuck, from + 1, i); }
  }

  /** The newest backup always survives the count phase. */
  lemma NewestSurvivesCount(p: Policy, fulls: seq<Backup>, stuck: set<string>)
    requires fulls != []
    ensures Survivors(p, fulls, stuck, 0) != [] && Survivors(p, fulls, stuck, 0)[0] == fulls[0]
  {}

  // --- The size cap ---

  function Total(files: seq<Backup>): nat {
    if files == [] then 0 else Total(files[..|files| - 1]) + files[|files| - 1].size
  }

  function Stuck(files: seq<Backup>, stuck: set<string>): seq<Backup> {
    if files == [] then []
    else (if files[0].path in stuck then [files[0]] else []) + Stuck(files[1..], stuck)
  }

  /** What is left when every file from `k` on has been tried. */
  function TriedFrom(files: seq<Backup>, stuck: set<string>, k: nat): seq<Backup>
    requires k <= |files|
  {
    files[..k] + Stuck(files[k..], stuck)
  }

  lemma {:induction false} TotalConcat(a: seq<Backup>, b: seq<Backup>)
    ensures Total(a + b) == Total(a) + Total(b)
  {
    if b == [] {
      assert a + b == a;
    } else {
      TotalConcat(a, b[..|b| - 1]);
      assert (a + b)[..|a + b| - 1] == a + b[..|b| - 1];
    }
  }

  lemma NothingTried(files: seq<Backup>, stuck: set<string>)
    ensures TriedFrom(files, stuck, |files|) == files
  {
    assert files[|files|..] == [];
  }

  lemma TryOne(files: seq<Backup>, stuck: set<string>, k: nat)
    requires 0 < k <= |files|
    ensures Total(TriedFrom(files, stuck, k)) ==
            Total(TriedFrom(files, stuck, k - 1)) + if files[k - 1].path in stuck then 0 else files[k - 1].size
  {
    var f := files[k - 1];
    assert files[..k] == files[..k - 1] + [f] && files[k - 1..] == [f] + files[k..];
    assert Stuck(files[k - 1..], stuck) == (if f.path in stuck then [f] else []) + Stuck(files[k..], stuck);
    TotalConcat(files[..k], Stuck(files[k..], stuck));
    TotalConcat(files[..k - 1], Stuck(files[k - 1..], stuck));
    TotalConcat(files[..k - 1], [f]);
    TotalConcat(if f.path in stuck then [f] else [], Stuck(files[k..], stuck));
    assert Total([]) == 0 && [f][..0] == [] && Total([f]) == f.size;
  }

  /** The loop that adds up the sizes before the size phase. */
  method TotalSize(files: seq<Backup>) returns (total: int)
    ensures total == Total(files)
  {
    total := 0;
    var j := 0;
    while j < |files|
      invariant 0 <= j <= |files| && total == Total(files[..j])
    {
      assert files[..j + 1][..j] == files[..j];
      total := total + files[j].size;
      j := j + 1;
    }
    assert files[..j] == files;
  }

  /** The size phase of `applyBackupRetention`: remove from the old end until the total is
      within the cap. The tracked total is the size of what is left, whatever fails, and
      the loop has stopped as soon as it could, or has tried every file. */
  method SizePhase(files: seq<Backup>, cap: int, stuck: set<string>) returns (total: int, k: nat)
    ensures k <= |files| && total == Total(TriedFrom(files, stuck, k))
    ensures total <= cap || k == 0
    ensures k < |files| ==> Total(TriedFrom(files, stuck, k + 1)) > cap
  {
    total := TotalSize(files);
    ghost var totals := seq(|files| + 1, i requires 0 <= i <= |files| => Total(TriedFrom(files, stuck, i)));
    NothingTried(files, stuck);
    forall i | 0 < i <= |files| ensures IsStep(files, stuck, totals, i) { TryOne(files, stuck, i); }
    total, k := RemoveFromEnd(files, cap, stuck, total, totals);
  }

  /** Trying the oldest of the first `i` files takes its size off the total, if it can be removed. */
  ghost predicate IsStep(files: seq<Backup>, stuck: set<string>, totals: seq<int>, i: nat)
    requires 0 < i <= |files| && |totals| == |files| + 1
  {
    totals[i - 1] == totals[i] - if files[i - 1].path in stuck then 0 else files[i - 1].size
  }

  method RemoveFromEnd(files: seq<Backup>, cap: int, stuck: set<string>, all: int, ghost totals: seq<int>) returns (total: int, k: nat)
    requires |totals| == |files| + 1 && totals[|files|] == all
    requires forall i | 0 < i <= |files| :: IsStep(files, stuck, totals, i)
    ensures k <= |files| && total == totals[k]
    ensures total <= cap || k == 0
    ensures k < |files| ==> totals[k + 1] > cap
  {
    total, k := all, |files|;
    while k > 0 && total > cap
      invariant k <= |files| && total == totals[k]
      invariant k < |files| ==> totals[k + 1] > cap
    {
      assert IsStep(files, stuck, totals, k);
      if files[k - 1].path !in stuck { total := total - files[k - 1].size; }
      k := k - 1;
    }
  }

  lemma {:induction false} NothingStuck(files: seq<Backup>)
    ensures Stuck(files, {}) == []
  {
    if files != [] { NothingStuck(files[1..]); }
  }

  lemma PrefixTotalsGrow(files: seq<Backup>, i: nat, j: nat)
    requires i <= j <= |files|
    ensures Total(files[..i]) <= Total(files[..j])
  {
    TotalConcat(files[..i], files[i..j]);
    assert files[..i] + files[i..j] == files[..j];
  }

  /** With every removal working, what is left is the longest newest-first prefix within a
      cap that is not negative. */
  lemma LongestPrefixIsLeft(files: seq<Backup>, cap: int, k: nat, m: nat)
    requires k <= |files| && m <= |files| && cap >= 0
    requires Total(TriedFrom(files, {}, k)) <= cap || k == 0
    requires k < |files| ==> Total(TriedFrom(files, {}, k + 1)) > cap
    ensures TriedFrom(files, {}, k) == files[..k]
    ensures Total(files[..m]) <= cap <==> m <= k
  {
    NothingStuck(files[k..]);
    if k < |files| { NothingStuck(files[k + 1..]); assert TriedFrom(files, {}, k + 1) == files[..k + 1]; }
    assert Total(files[..0]) == 0;
    if m <= k { PrefixTotalsGrow(files, m, k); } else { PrefixTotalsGrow(files, k + 1, m); }
  }

  /** The cap is hard: even the newest backup goes when it alone is over it. */
  lemma NewestSurvivesCapIff(files: seq<Backup>, cap: int, k: nat)
    requires files != [] && k <= |files| && cap >= 0
    requires Total(TriedFrom(files, {}, k)) <= cap || k == 0
    requires k < |files| ==> Total(TriedFrom(files, {}, k + 1)) > cap
    ensures k > 0 <==> files[0].size <= cap
  {
    LongestPrefixIsLeft(files, cap, k, 1);
    assert files[..1][..0] == [];
  }
}
