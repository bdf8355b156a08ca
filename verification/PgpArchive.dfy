/** The grace archive of retired PGP keys (`src/pgp/store.go`, with the rotations of
    `src/main.go`): file names that carry an expiry, pruning by those names, and
    re-encryption when the installation secret changes. Encryption is a sealed pair. */
module PgpArchive {
  import opened Options
  import opened Strings

  // --- Numbers ---

  predicate IsDigits(s: string) {
    s != "" && forall i | 0 <= i < |s| :: '0' <= s[i] <= '9'
  }

  function DigitsValue(s: string): nat
    requires forall i | 0 <= i < |s| :: '0' <= s[i] <= '9'
  {
    if s == "" then 0 else DigitsValue(s[..|s| - 1]) * 10 + (s[|s| - 1] - '0') as nat
  }

  const MAX_INT64 := 0x7fff_ffff_ffff_ffff

  /** `strconv.ParseInt(s, 10, 64)`. */
  function ParseInt(s: string): Option<int> {
    var negative := s != "" && s[0] == '-';
    var body := if s != "" && (s[0] == '-' || s[0] == '+') then s[1..] else s;
    if !IsDigits(body) then None
    else
      var v: int := DigitsValue(body);
      var n := if negative then -v else v;
      if -MAX_INT64 - 1 <= n <= MAX_INT64 then Some(n) else None
  }

  lemma {:induction false} DecimalValue(n: nat)
    ensures DigitsValue(Decimal(n)) == n
  {
    if n < 10 {
      assert Decimal(n)[..0] == "";
    } else {
      DecimalValue(n / 10);
      assert Decimal(n)[..|Decimal(n)| - 1] == Decimal(n / 10);
    }
  }

  lemma ParseIntInverts(n: nat)
    requires n <= MAX_INT64
    ensures ParseInt(Decimal(n)) == Some(n)
  {
    DecimalValue(n);
    var c := Decimal(n)[0];
  }

  // --- Names ---

  /** What follows the expiry in the names of the two files: the private suffix in its three parts, and the public one. */
  datatype Layout = Layout(first: string, second: string, third: string, public: string) {
    function Private(): string { first + ['.'] + (second + ['.'] + third) }
  }

  const LAYOUT := Layout("priv", "asc", "enc", "pub.asc")

  /** All that the proofs need to know of the two suffixes. */
  predicate GoodLayout(l: Layout) {
    '.' !in l.first && '.' !in l.second && '.' !in l.third && 'v' in l.first && 'v' !in l.public
  }

  function Infix(l: Layout): string {
    ['.'] + l.Private()
  }

  predicate IsHex(c: char) {
    '0' <= c <= '9' || 'a' <= c <= 'f' || 'A' <= c <= 'F'
  }

  /** `validFingerprint`. */
  predicate ValidFingerprint(fp: string) {
    (|fp| == 40 || |fp| == 64) && forall i | 0 <= i < |fp| :: IsHex(fp[i])
  }

  /** The name printer of `ArchiveCurrentKeypair`: fingerprint, expiry, kind. */
  function Name(fp: string, expires: nat, kind: string): string {
    fp + ['.'] + (Decimal(expires) + ['.'] + kind)
  }

  predicate OccursAt(s: string, sub: string, i: nat) {
    i + |sub| <= |s| && s[i..i + |sub|] == sub
  }

  predicate Contains(s: string, sub: string) {
    exists i :: 0 <= i <= |s| && OccursAt(s, sub, i)
  }

  datatype Parsed = Parsed(fp: string, stamp: string, expires: int)

  function JoinParts(parts: seq<string>): string {
    if parts == [] then "" else Join(parts, '.')
  }

  /** The name parser of `PruneArchivedKeypairs`. */
  function ParseName(name: string, infix: string): Option<Parsed> {
    var parts := Split(name, '.');
    if |parts| < 4 || !Contains(name, infix) then None
    else
      var i := |parts| - 4;
      match ParseInt(parts[i])
      case None => None
      case Some(e) => Some(Parsed(JoinParts(parts[..i]), parts[i], e))
  }

  lemma NameParts(fp: string, expires: nat, kind: string)
    ensures Split(Name(fp, expires, kind), '.') == Split(fp, '.') + ([Decimal(expires)] + Split(kind, '.'))
  {
    SplitConcat(fp, Decimal(expires) + ['.'] + kind, '.');
    SplitFirst(Decimal(expires), kind, '.');
  }

  lemma NameContains(fp: string, expires: nat, kind: string, infix: string)
    requires infix == ['.'] + kind
    ensures Contains(Name(fp, expires, kind), infix)
  {
    var name, front := Name(fp, expires, kind), fp + ['.'] + Decimal(expires);
    assert name == front + infix;
    assert OccursAt(name, infix, |front|);
  }

  lemma ParseParts(name: string, infix: string, front: seq<string>, stamp: string, back: seq<string>, e: int)
    requires Split(name, '.') == front + ([stamp] + back) && |back| == 3 && Contains(name, infix) && ParseInt(stamp) == Some(e)
    ensures ParseName(name, infix) == Some(Parsed(JoinParts(front), stamp, e))
  {
    var parts := front + ([stamp] + back);
    assert parts[|front|] == stamp && parts[..|front|] == front;
  }

  /** Parsing inverts printing, for every fingerprint and every expiry an int64 can hold. */
  lemma ParseInvertsPrint(fp: string, expires: nat, kind: string, infix: string)
    requires |Split(kind, '.')| == 3 && infix == ['.'] + kind && expires <= MAX_INT64
    ensures ParseName(Name(fp, expires, kind), infix) == Some(Parsed(fp, Decimal(expires), expires))
  {
    NameParts(fp, expires, kind);
    NameContains(fp, expires, kind, infix);
    ParseIntInverts(expires);
    ParseParts(Name(fp, expires, kind), infix, Split(fp, '.'), Decimal(expires), Split(kind, '.'), expires);
    JoinSplit(fp, '.');
  }

  lemma ThreeParts(l: Layout)
    requires GoodLayout(l)
    ensures |Split(l.Private(), '.')| == 3
  {
    SplitOne(l.third, '.');
    SplitFirst(l.second, l.third, '.');
    SplitFirst(l.first, l.second + ['.'] + l.third, '.');
  }

  lemma LayoutIsGood()
    ensures GoodLayout(LAYOUT)
  {
    assert LAYOUT.first[3] == 'v';
  }

  // --- Pruning ---

  datatype Blob = Public(text: string) | Sealed(secret: nat, armor: string)

  type Archive = map<string, Blob>

  /** What pruning removes on account of one name: the private file and the public file beside it. */
  function Pair(l: Layout, name: string, now: int): set<string> {
    var p := ParseName(name, Infix(l));
    if p.Some? && now > p.value.expires then {name, p.value.fp + ['.'] + (p.value.stamp + ['.'] + l.public)} else {}
  }

  function PairAt(l: Layout, now: int): string -> set<string> {
    name => Pair(l, name, now)
  }

  function Union(names: seq<string>, pair: string -> set<string>): set<string> {
    if names == [] then {} else Union(names[..|names| - 1], pair) + pair(names[|names| - 1])
  }

  function Pruned(l: Layout, a: Archive, now: int): Archive {
    a - Union(SortedKeys(a.Keys), PairAt(l, now))
  }

  lemma {:induction false} UnionHolds(names: seq<string>, pair: string -> set<string>, x: string)
    ensures x in Union(names, pair) <==> exists n :: n in names && x in pair(n)
  {
    if names != [] {
      var front, last := names[..|names| - 1], names[|names| - 1];
      UnionHolds(front, pair, x);
      assert names == front + [last];
    }
  }

  lemma UnionOfPart(names: seq<string>, pair: string -> set<string>, i: nat)
    requires i < |names|
    ensures Union(names[..i], pair) + pair(names[i]) <= Union(names, pair)
  {
    forall x | x in Union(names[..i], pair) + pair(names[i]) ensures x in Union(names, pair) {
      UnionHolds(names[..i], pair, x);
      UnionHolds(names, pair, x);
    }
  }

  /** The loop over the directory listing; it stops at the first removal that fails. */
  method RemovePairs(a: Archive, names: seq<string>, pair: string -> set<string>, stuck: set<string>) returns (left: Archive, ok: bool)
    ensures ok ==> left == a - Union(names, pair)
    ensures left - Union(names, pair) == a - Union(names, pair)
    ensures stuck == {} ==> ok
  {
    left, ok := a, true;
    var i := 0;
    while i < |names|
      invariant 0 <= i <= |names| && left == a - Union(names[..i], pair)
    {
      var gone := pair(names[i]);
      UnionOfPart(names, pair, i);
      if gone * stuck != {} {
        ok := false;
        if names[i] !in stuck { left := left - gone * {names[i]}; }
        return;
      }
      assert names[..i + 1][..i] == names[..i];
      left := left - gone;
      i := i + 1;
    }
    assert names[..i] == names;
  }

  /** `PruneArchivedKeypairs`: it removes exactly the pairs it should, and when a removal
      fails it has removed nothing else. */
  method PruneArchivedKeypairs(a: Archive, now: int, stuck: set<string>) returns (left: Archive, ok: bool)
    ensures ok ==> left == Pruned(LAYOUT, a, now)
    ensures left - Union(SortedKeys(a.Keys), PairAt(LAYOUT, now)) == Pruned(LAYOUT, a, now)
    ensures stuck == {} ==> ok
  {
    left, ok := RemovePairs(a, SortedKeys(a.Keys), PairAt(LAYOUT, now), stuck);
  }

  // --- Names that were printed ---

  lemma PrivateNameParses(l: Layout, fp: string, expires: nat)
    requires GoodLayout(l) && expires <= MAX_INT64
    ensures ParseName(Name(fp, expires, l.Private()), Infix(l)) == Some(Parsed(fp, Decimal(expires), expires))
  {
    ThreeParts(l);
    ParseInvertsPrint(fp, expires, l.Private(), Infix(l));
  }

  /** Neither digits nor hexadecimal digits nor the public suffix hold a `v`, so no public name looks private. */
  lemma PublicNameIsNoPrivate(l: Layout, fp: string, expires: nat)
    requires ValidFingerprint(fp) && GoodLayout(l)
    ensures !Contains(Name(fp, expires, l.public), Infix(l))
  {
    var name, infix := Name(fp, expires, l.public), Infix(l);
    assert 'v' !in name;
    var k :| 0 <= k < |l.first| && l.first[k] == 'v';
    var j := k + 1;
    assert infix[j] == 'v';
    forall i | 0 <= i <= |name| ensures !OccursAt(name, infix, i) {
      assert i + |infix| <= |name| ==> name[i..i + |infix|][j] == name[i + j];
    }
  }

  lemma DecimalIsInjective(m: nat, n: nat)
    requires Decimal(m) == Decimal(n)
    ensures m == n
  {
    DecimalValue(m);
    DecimalValue(n);
  }

  lemma NoDots(fp: string)
    requires ValidFingerprint(fp)
    ensures '.' !in fp && Split(fp, '.') == [fp]
  {
    SplitOne(fp, '.');
  }

  /** Printing is injective. */
  lemma NameIsInjective(fp: string, e: nat, fp': string, e': nat, kind: string)
    requires ValidFingerprint(fp) && ValidFingerprint(fp') && Name(fp, e, kind) == Name(fp', e', kind)
    ensures fp == fp' && e == e'
  {
    NoDots(fp);
    NoDots(fp');
    NameParts(fp, e, kind);
    NameParts(fp', e', kind);
    var a, b := [fp] + ([Decimal(e)] + Split(kind, '.')), [fp'] + ([Decimal(e')] + Split(kind, '.'));
    assert a[0] == b[0] && a[1] == b[1];
    DecimalIsInjective(e, e');
  }

  /** The file was written by `ArchiveCurrentKeypair`. */
  ghost predicate IsPrinted(l: Layout, name: string) {
    exists fp, e, kind :: Prints(l, fp, e, kind, name)
  }

  predicate Prints(l: Layout, fp: string, e: nat, kind: string, name: string) {
    ValidFingerprint(fp) && e <= MAX_INT64 && (kind == l.Private() || kind == l.public) && name == Name(fp, e, kind)
  }

  lemma PairOfPrinted(l: Layout, fp: string, e: nat, now: int)
    requires GoodLayout(l) && ValidFingerprint(fp) && e <= MAX_INT64
    ensures Pair(l, Name(fp, e, l.Private()), now) == if now > e then {Name(fp, e, l.Private()), Name(fp, e, l.public)} else {}
    ensures Pair(l, Name(fp, e, l.public), now) == {}
  {
    PrivateNameParses(l, fp, e);
    PublicNameIsNoPrivate(l, fp, e);
  }

  lemma KindsDiffer(l: Layout, fp: string, e: nat, fp': string, e': nat)
    requires GoodLayout(l) && ValidFingerprint(fp)
    ensures Name(fp, e, l.public) != Name(fp', e', l.Private())
  {
    PublicNameIsNoPrivate(l, fp, e);
    NameContains(fp', e', l.Private(), Infix(l));
  }

  /** A printed name goes exactly when it belongs to an expired pair whose private file is there. */
  lemma {:induction false} PairTakes(l: Layout, name: string, now: int, fp: string, e: nat)
    requires GoodLayout(l) && IsPrinted(l, name) && ValidFingerprint(fp) && e <= MAX_INT64
    ensures Name(fp, e, l.Private()) in Pair(l, name, now) <==> name == Name(fp, e, l.Private()) && now > e
    ensures Name(fp, e, l.public) in Pair(l, name, now) <==> name == Name(fp, e, l.Private()) && now > e
  {
    var fp', e', kind :| Prints(l, fp', e', kind, name);
    PairOfPrinted(l, fp', e', now);
    KindsDiffer(l, fp, e, fp', e');
    KindsDiffer(l, fp', e', fp, e);
    if Name(fp, e, l.Private()) == Name(fp', e', l.Private()) { NameIsInjective(fp, e, fp', e', l.Private()); }
    if Name(fp, e, l.public) == Name(fp', e', l.public) { NameIsInjective(fp, e, fp', e', l.public); }
  }

  /** In a directory of archived pairs, pruning removes exactly the expired pairs: a private
      file stays while `now` is not past its expiry, and its public file goes with it. */
  lemma PruneIsExact(l: Layout, a: Archive, now: int, fp: string, e: nat)
    requires GoodLayout(l) && (forall n | n in a :: IsPrinted(l, n)) && ValidFingerprint(fp) && e <= MAX_INT64
    ensures Name(fp, e, l.Private()) in Pruned(l, a, now) <==> Name(fp, e, l.Private()) in a && now <= e
    ensures Name(fp, e, l.public) in Pruned(l, a, now) <==>
            Name(fp, e, l.public) in a && (now <= e || Name(fp, e, l.Private()) !in a)
  {
    var names, pair := SortedKeys(a.Keys), PairAt(l, now);
    var x, y := Name(fp, e, l.Private()), Name(fp, e, l.public);
    UnionHolds(names, pair, x);
    UnionHolds(names, pair, y);
    forall n | n in names ensures (x in pair(n) <==> n == x && now > e) && (y in pair(n) <==> n == x && now > e) {
      assert n in a;
      PairTakes(l, n, now, fp, e);
    }
  }

  // --- Loading ---

  /** The pattern `filepath.Glob` is given: fingerprint, anything, private suffix. */
  predicate Globs(l: Layout, fp: string, name: string) {
    HasPrefix(name, fp + ['.']) && HasSuffix(name, Infix(l)) && |name| >= |fp| + 1 + |Infix(l)|
  }

  function Candidates(l: Layout, a: Archive, fp: string): set<string> {
    set n | n in a && Globs(l, fp, n)
  }

  /** Authenticated decryption: the sealed text under the secret it was sealed with, nothing otherwise. */
  function Decrypt(secret: nat, b: Blob): Option<string> {
    if b.Sealed? && b.secret == secret then Some(b.armor) else None
  }

  /** `LoadArchivedPrivateArmor`: the first match in name order. */
  function LoadArchived(l: Layout, a: Archive, fp: string, secret: nat): Option<string> {
    if !ValidFingerprint(fp) || Candidates(l, a, fp) == {} then None
    else Decrypt(secret, a[Least(Candidates(l, a, fp))])
  }

  // --- Rotations ---

  datatype Key = Key(fp: string, armor: string, public: string)

  /** The secret in force, the key on disk with its record, and the archive. */
  datatype State = State(secret: nat, record: Option<string>, public: Blob, private: Blob, archive: Archive)

  /** 30 days of grace, in seconds. */
  const GRACE := 30 * 24 * 3600

  datatype Event =
    | RotateKey(key: Key, now: nat, pruneNow: nat)
    | RotateSecret(secret: nat, now: nat)

  /** `ArchiveCurrentKeypair`: prune, then file the active pair under the record's fingerprint. */
  function Archived(l: Layout, s: State, fp: string, expires: nat, pruneNow: nat): Archive {
    Pruned(l, s.archive, pruneNow)[Name(fp, expires, l.public) := s.public][Name(fp, expires, l.Private()) := s.private]
  }

  function Resealed(a: Archive, l: Layout, before: nat, after: nat): Archive {
    map n | n in a :: if HasSuffix(n, Infix(l)) then Reseal(a[n], before, after) else a[n]
  }

  function Reseal(b: Blob, before: nat, after: nat): Blob {
    match Decrypt(before, b)
    case Some(armor) => Sealed(after, armor)
    case None => b
  }

  predicate OpensIfPrivate(suffix: string, n: string, b: Blob, secret: nat) {
    HasSuffix(n, suffix) ==> Decrypt(secret, b).Some?
  }

  /** The archive once the private files among `names` have been sealed again. */
  function ResealedAmong(a: Archive, suffix: string, names: seq<string>, before: nat, after: nat): Archive {
    map n | n in a :: if n in names && HasSuffix(n, suffix) then Reseal(a[n], before, after) else a[n]
  }

  predicate Opens(a: Archive, suffix: string, n: string, secret: nat) {
    n in a && OpensIfPrivate(suffix, n, a[n], secret)
  }

  lemma ResealNext(a: Archive, suffix: string, names: seq<string>, i: nat, before: nat, after: nat)
    requires Ascending(names) && i < |names| && Opens(a, suffix, names[i], before)
    ensures var n, r := names[i], ResealedAmong(a, suffix, names[..i], before, after);
            && r[n] == a[n]
            && ResealedAmong(a, suffix, names[..i + 1], before, after) ==
               if HasSuffix(n, suffix) then r[n := Sealed(after, Decrypt(before, a[n]).value)] else r
  {
    KeysDiffer(names, i);
    assert names[..i + 1] == names[..i] + [names[i]];
  }

  lemma ResealAll(l: Layout, a: Archive, before: nat, after: nat)
    ensures ResealedAmong(a, Infix(l), SortedKeys(a.Keys), before, after) == Resealed(a, l, before, after)
  {
    var suffix := Infix(l);
    var r, t := ResealedAmong(a, suffix, SortedKeys(a.Keys), before, after), Resealed(a, l, before, after);
    forall n | n in a ensures r[n] == t[n] { assert n in SortedKeys(a.Keys); }
    assert r == t;
  }

  /** `ReencryptArchivedPrivateKeys`: one file after the other in the order of their names, stopping
      at the first that does not open. What comes before it stays sealed under the new secret, and
      the rest under the old one. */
  method ReencryptArchived(l: Layout, a: Archive, before: nat, after: nat) returns (r: Archive, ok: bool, done: nat)
    ensures ok <==> forall n | n in a :: Opens(a, Infix(l), n, before)
    ensures ok ==> r == Resealed(a, l, before, after)
    ensures var names := SortedKeys(a.Keys);
            && done <= |names| && r == ResealedAmong(a, Infix(l), names[..done], before, after)
            && (forall i | 0 <= i < done :: Opens(a, Infix(l), names[i], before))
            && (!ok ==> done < |names| && !Opens(a, Infix(l), names[done], before))
  {
    r, ok, done := ResealInOrder(Infix(l), a, SortedKeys(a.Keys), before, after);
    if ok {
      assert SortedKeys(a.Keys)[..done] == SortedKeys(a.Keys);
      ResealAll(l, a, before, after);
      forall n | n in a ensures Opens(a, Infix(l), n, before) {
        assert n in SortedKeys(a.Keys);
      }
    } else {
      assert SortedKeys(a.Keys)[done] in SortedKeys(a.Keys);
    }
  }

  method ResealInOrder(suffix: string, a: Archive, names: seq<string>, before: nat, after: nat)
    returns (r: Archive, ok: bool, done: nat)
    requires Ascending(names) && forall n | n in names :: n in a
    ensures done <= |names| && r == ResealedAmong(a, suffix, names[..done], before, after)
    ensures forall i | 0 <= i < done :: Opens(a, suffix, names[i], before)
    ensures ok <==> done == |names|
    ensures !ok ==> !Opens(a, suffix, names[done], before)
  {
    r, ok, done := a, true, 0;
    assert r == ResealedAmong(a, suffix, names[..0], before, after);
    while done < |names|
      invariant done <= |names| && r == ResealedAmong(a, suffix, names[..done], before, after)
      invariant forall i | 0 <= i < done :: Opens(a, suffix, names[i], before)
    {
      var n := names[done];
      assert n in names && n !in names[..done] by { KeysDiffer(names, done); }
      if HasSuffix(n, suffix) {
        match Decrypt(before, r[n])
        case None => return r, false, done;
        case Some(armor) =>
          ResealNext(a, suffix, names, done, before, after);
          r := r[n := Sealed(after, armor)];
      } else {
        ResealNext(a, suffix, names, done, before, after);
      }
      done := done + 1;
    }
  }

  /** A completed `pgpRotate`, or a completed `rotateInstallationSecret`. */
  function Step(l: Layout, s: State, e: Event): State {
    match e
    case RotateKey(key, now, pruneNow) =>
      State(s.secret, Some(key.fp), Public(key.public), Sealed(s.secret, key.armor),
            if s.record.Some? then Archived(l, s, s.record.value, now + GRACE, pruneNow) else s.archive)
    case RotateSecret(secret, now) =>
      s.(secret := secret, archive := Resealed(s.archive, l, s.secret, secret),
         private := Reseal(s.private, s.secret, secret))
  }

  function Run(l: Layout, secret: nat, events: seq<Event>): State {
    if events == [] then State(secret, None, Public(""), Public(""), map[])
    else Step(l, Run(l, secret, events[..|events| - 1]), events[|events| - 1])
  }

  /** The keys a run has generated, by fingerprint. */
  function Keys(events: seq<Event>): map<string, string> {
    if events == [] then map[]
    else
      var e := events[|events| - 1];
      var before := Keys(events[..|events| - 1]);
      if e.RotateKey? then before[e.key.fp := e.key.armor] else before
  }

  /** The fingerprints a run has rotated out, each with the time. */
  function Retired(l: Layout, secret: nat, events: seq<Event>): set<(string, nat)> {
    if events == [] then {}
    else
      var before, e := events[..|events| - 1], events[|events| - 1];
      var s := Run(l, secret, before);
      Retired(l, secret, before) + if e.RotateKey? && s.record.Some? then {(s.record.value, e.now)} else {}
  }

  /** Fingerprints are well formed and identify keys, and no event is later than `end`. */
  predicate IsRun(events: seq<Event>, end: nat) {
    events == [] ||
    var before, e := events[..|events| - 1], events[|events| - 1];
    && IsRun(before, end) && e.now <= end && e.now + GRACE <= MAX_INT64
    && (e.RotateKey? ==>
          && e.pruneNow <= end && ValidFingerprint(e.key.fp)
          && (e.key.fp in Keys(before) ==> Keys(before)[e.key.fp] == e.key.armor))
  }

  function FirstPart(name: string): string {
    Split(name, '.')[0]
  }

  lemma FirstPartIs(fp: string, rest: string)
    requires '.' !in fp
    ensures FirstPart(fp + ['.'] + rest) == fp
  {
    SplitFirst(fp, rest, '.');
  }

  lemma GlobbedIsNamed(l: Layout, fp: string, name: string)
    requires ValidFingerprint(fp) && HasPrefix(name, fp + ['.'])
    ensures FirstPart(name) == fp
  {
    NoDots(fp);
    FirstPartIs(fp, name[|fp| + 1..]);
    assert name == fp + ['.'] + name[|fp| + 1..];
  }

  lemma PrivateNameIsGlobbed(l: Layout, fp: string, e: nat)
    ensures Globs(l, fp, Name(fp, e, l.Private()))
  {
    var name := Name(fp, e, l.Private());
    assert name[..|fp| + 1] == fp + ['.'];
    assert name == fp + ['.'] + Decimal(e) + Infix(l);
  }

  lemma PublicNameHasNoPrivateSuffix(l: Layout, fp: string, e: nat)
    requires GoodLayout(l) && ValidFingerprint(fp)
    ensures !HasSuffix(Name(fp, e, l.public), Infix(l))
  {
    PublicNameIsNoPrivate(l, fp, e);
    var name := Name(fp, e, l.public);
    if HasSuffix(name, Infix(l)) { assert OccursAt(name, Infix(l), |name| - |Infix(l)|); }
  }

  ghost predicate Sound(l: Layout, a: Archive, secret: nat, keys: map<string, string>) {
    forall n | n in a ::
      IsPrinted(l, n) && (HasSuffix(n, Infix(l)) ==> FirstPart(n) in keys && a[n] == Sealed(secret, keys[FirstPart(n)]))
  }

  lemma ArchivedIsSound(l: Layout, a: Archive, secret: nat, keys: map<string, string>, fp: string, e: nat, public: Blob, private: Blob)
    requires GoodLayout(l) && Sound(l, a, secret, keys) && ValidFingerprint(fp) && e <= MAX_INT64
    requires fp in keys && private == Sealed(secret, keys[fp])
    ensures Sound(l, a[Name(fp, e, l.public) := public][Name(fp, e, l.Private()) := private], secret, keys)
  {
    var x, y := Name(fp, e, l.public), Name(fp, e, l.Private());
    assert Prints(l, fp, e, l.public, x) && Prints(l, fp, e, l.Private(), y);
    NoDots(fp);
    FirstPartIs(fp, Decimal(e) + ['.'] + l.Private());
    PublicNameHasNoPrivateSuffix(l, fp, e);
  }

  lemma ResealedIsSound(l: Layout, a: Archive, before: nat, after: nat, keys: map<string, string>)
    requires Sound(l, a, before, keys)
    ensures Sound(l, Resealed(a, l, before, after), after, keys)
  {}

  lemma MoreKeysAreSound(l: Layout, a: Archive, secret: nat, keys: map<string, string>, fp: string, armor: string)
    requires Sound(l, a, secret, keys) && (fp in keys ==> keys[fp] == armor)
    ensures Sound(l, a, secret, keys[fp := armor])
  {}

  /** Every private file, archived or active, opens under the secret in force to the key it is named after. */
  ghost predicate IsSound(l: Layout, s: State, keys: map<string, string>) {
    && Sound(l, s.archive, s.secret, keys)
    && (s.record.Some? ==>
          && ValidFingerprint(s.record.value) && s.record.value in keys
          && s.private == Sealed(s.secret, keys[s.record.value]))
  }

  lemma {:induction false} RunIsSound(l: Layout, secret: nat, events: seq<Event>, end: nat)
    requires GoodLayout(l) && IsRun(events, end)
    ensures IsSound(l, Run(l, secret, events), Keys(events))
  {
    if events != [] {
      var before, e := events[..|events| - 1], events[|events| - 1];
      var s, keys := Run(l, secret, before), Keys(before);
      RunIsSound(l, secret, before, end);
      match e
      case RotateKey(key, now, pruneNow) =>
        if s.record.Some? {
          ArchivedIsSound(l, Pruned(l, s.archive, pruneNow), s.secret, keys, s.record.value, now + GRACE, s.public, s.private);
        }
        MoreKeysAreSound(l, Run(l, secret, events).archive, s.secret, keys, key.fp, key.armor);
      case RotateSecret(after, now) =>
        ResealedIsSound(l, s.archive, s.secret, after, keys);
    }
  }

  lemma RetiredStaysFiled(l: Layout, s: State, keys: map<string, string>, e: Event, fp: string, expires: nat)
    requires GoodLayout(l) && IsSound(l, s, keys) && ValidFingerprint(fp) && expires <= MAX_INT64
    requires Name(fp, expires, l.Private()) in s.archive && (e.RotateKey? ==> e.pruneNow <= expires)
    ensures Name(fp, expires, l.Private()) in Step(l, s, e).archive
  {
    if e.RotateKey? { PruneIsExact(l, s.archive, e.pruneNow, fp, expires); }
  }

  lemma {:induction false} RetiredIsFiled(l: Layout, secret: nat, events: seq<Event>, fp: string, t: nat, end: nat)
    requires GoodLayout(l) && IsRun(events, end) && (fp, t) in Retired(l, secret, events) && end <= t + GRACE
    ensures ValidFingerprint(fp) && t + GRACE <= MAX_INT64
    ensures Name(fp, t + GRACE, l.Private()) in Run(l, secret, events).archive
  {
    var before, e := events[..|events| - 1], events[|events| - 1];
    var s := Run(l, secret, before);
    RunIsSound(l, secret, before, end);
    if (fp, t) in Retired(l, secret, before) {
      RetiredIsFiled(l, secret, before, fp, t, end);
      RetiredStaysFiled(l, s, Keys(before), e, fp, t + GRACE);
    }
  }

  lemma LoadsWhatIsFiled(l: Layout, s: State, keys: map<string, string>, fp: string, e: nat)
    requires IsSound(l, s, keys) && ValidFingerprint(fp) && Name(fp, e, l.Private()) in s.archive
    ensures fp in keys && LoadArchived(l, s.archive, fp, s.secret) == Some(keys[fp])
  {
    PrivateNameIsGlobbed(l, fp, e);
    assert Name(fp, e, l.Private()) in Candidates(l, s.archive, fp);
    var n := Least(Candidates(l, s.archive, fp));
    GlobbedIsNamed(l, fp, n);
  }

  /** Over every run of completed key and secret rotations, a key rotated out at `t` can be
      loaded by its fingerprint, under whatever secret is then in force, at every time up to
      30 days after `t`. */
  lemma RetiredKeyLoadsThroughGrace(secret: nat, events: seq<Event>, fp: string, t: nat, now: nat)
    requires IsRun(events, now) && (fp, t) in Retired(LAYOUT, secret, events) && now <= t + 30 * 24 * 3600
    ensures fp in Keys(events)
    ensures var s := Run(LAYOUT, secret, events);
            LoadArchived(LAYOUT, s.archive, fp, s.secret) == Some(Keys(events)[fp])
  {
    LayoutIsGood();
    AnyRetiredKeyLoads(LAYOUT, secret, events, fp, t, now);
  }

  lemma AnyRetiredKeyLoads(l: Layout, secret: nat, events: seq<Event>, fp: string, t: nat, now: nat)
    requires GoodLayout(l) && IsRun(events, now) && (fp, t) in Retired(l, secret, events) && now <= t + GRACE
    ensures fp in Keys(events)
    ensures var s := Run(l, secret, events); LoadArchived(l, s.archive, fp, s.secret) == Some(Keys(events)[fp])
  {
    RunIsSound(l, secret, events, now);
    RetiredIsFiled(l, secret, events, fp, t, now);
    LoadsWhatIsFiled(l, Run(l, secret, events), Keys(events), fp, t + GRACE);
  }

  // --- Nothing outlives its grace ---

  /** The private file of a rotation among the files a rotation leaves: it was filed just now, or
      was there and not expired. */
  lemma RotationLeaves(l: Layout, s: State, keys: map<string, string>, e: Event, fp: string, expires: nat)
    requires GoodLayout(l) && IsSound(l, s, keys) && ValidFingerprint(fp) && expires <= MAX_INT64 && e.RotateKey? && s.record.Some?
    requires Name(fp, expires, l.Private()) in Step(l, s, e).archive
    ensures || (fp == s.record.value && expires == e.now + 30 * 24 * 3600)
            || (Name(fp, expires, l.Private()) in s.archive && e.pruneNow <= expires)
  {
    var rec, x := s.record.value, e.now + GRACE;
    PruneIsExact(l, s.archive, e.pruneNow, fp, expires);
    PrivateIsNotPublic(l, fp, expires, rec, x);
    InTwoMore(Pruned(l, s.archive, e.pruneNow), Name(rec, x, l.public), s.public, Name(rec, x, l.Private()), s.private, Name(fp, expires, l.Private()));
    if Name(fp, expires, l.Private()) == Name(rec, x, l.Private()) { NameIsInjective(fp, expires, rec, x, l.Private()); }
  }

  lemma InTwoMore(a: Archive, x: string, b: Blob, y: string, c: Blob, n: string)
    ensures n in a[x := b][y := c] <==> n in a || n == x || n == y
  {}

  lemma PrivateIsNotPublic(l: Layout, fp: string, e: nat, fp': string, e': nat)
    requires GoodLayout(l) && ValidFingerprint(fp')
    ensures Name(fp, e, l.Private()) != Name(fp', e', l.public)
  {
    PrivateNameIsGlobbed(l, fp, e);
    PublicNameHasNoPrivateSuffix(l, fp', e');
  }

  /** Every archived private key was rotated out 30 days before the expiry in its name. */
  lemma {:induction false} FiledIsRetired(l: Layout, secret: nat, events: seq<Event>, fp: string, expires: nat, end: nat) returns (t: nat)
    requires GoodLayout(l) && IsRun(events, end) && ValidFingerprint(fp) && expires <= MAX_INT64
    requires Name(fp, expires, l.Private()) in Run(l, secret, events).archive
    ensures (fp, t) in Retired(l, secret, events) && expires == t + 30 * 24 * 3600
  {
    var before, e := events[..|events| - 1], events[|events| - 1];
    var s := Run(l, secret, before);
    RunIsSound(l, secret, before, end);
    if e.RotateKey? && s.record.Some? { RotationLeaves(l, s, Keys(before), e, fp, expires); }
    if Name(fp, expires, l.Private()) in s.archive {
      t := FiledIsRetired(l, secret, before, fp, expires, end);
    } else {
      t := e.now;
    }
  }

  lemma CandidateIsPrivate(l: Layout, a: Archive, fp: string, name: string) returns (e: nat)
    requires GoodLayout(l) && ValidFingerprint(fp) && name in Candidates(l, a, fp) && IsPrinted(l, name)
    ensures e <= MAX_INT64 && name == Name(fp, e, l.Private())
  {
    var fp', e', kind :| Prints(l, fp', e', kind, name);
    e := e';
    PublicNameHasNoPrivateSuffix(l, fp', e');
    GlobbedIsNamed(l, fp, name);
    NoDots(fp');
    FirstPartIs(fp', Decimal(e') + ['.'] + kind);
  }

  /** Over every run, a key all of whose retirements are more than 30 days before the latest
      pruning rotation can no longer be loaded after it. */
  lemma RetiredKeyGoneAfterGrace(secret: nat, events: seq<Event>, fp: string, end: nat)
    requires IsRun(events, end) && events != [] && events[|events| - 1].RotateKey?
    requires Run(LAYOUT, secret, events[..|events| - 1]).record.Some?
    requires forall t | (fp, t) in Retired(LAYOUT, secret, events) :: t + 30 * 24 * 3600 < events[|events| - 1].pruneNow
    requires Run(LAYOUT, secret, events[..|events| - 1]).record.value != fp
    ensures var s := Run(LAYOUT, secret, events); LoadArchived(LAYOUT, s.archive, fp, s.secret) == None
  {
    LayoutIsGood();
    NoCandidates(LAYOUT, secret, events, fp, end);
  }

  lemma NoCandidates(l: Layout, secret: nat, events: seq<Event>, fp: string, end: nat)
    requires GoodLayout(l) && IsRun(events, end) && events != [] && events[|events| - 1].RotateKey?
    requires Run(l, secret, events[..|events| - 1]).record.Some? && Run(l, secret, events[..|events| - 1]).record.value != fp
    requires forall t | (fp, t) in Retired(l, secret, events) :: t + 30 * 24 * 3600 < events[|events| - 1].pruneNow
    ensures ValidFingerprint(fp) ==> Candidates(l, Run(l, secret, events).archive, fp) == {}
  {
    var before, e := events[..|events| - 1], events[|events| - 1];
    var a := Run(l, secret, events).archive;
    RunIsSound(l, secret, events, end);
    RunIsSound(l, secret, before, end);
    if ValidFingerprint(fp) && Candidates(l, a, fp) != {} {
      var name :| name in Candidates(l, a, fp);
      var x := CandidateIsPrivate(l, a, fp, name);
      RotationLeaves(l, Run(l, secret, before), Keys(before), e, fp, x);
      var t := FiledIsRetired(l, secret, events, fp, x, end);
    }
  }

  /** Fingerprints of 40 and of 64 hexadecimal digits are in use: one key of each kind, the second in
      place of the first, is a run, and the first is then retired. */
  lemma BothKindsRotate(secret: nat, first: string, second: string, armor: string, public: string, now: nat)
    requires |first| == 40 && |second| == 64 && now + 30 * 24 * 3600 <= MAX_INT64
    requires forall c | c in first || c in second :: '0' <= c <= '9' || 'a' <= c <= 'f' || 'A' <= c <= 'F'
    ensures var events := [RotateKey(Key(first, armor, public), now, now), RotateKey(Key(second, armor, public), now, now)];
            IsRun(events, now) && (first, now) in Retired(LAYOUT, secret, events)
  {
    var one := [RotateKey(Key(first, armor, public), now, now)];
    var events := [RotateKey(Key(first, armor, public), now, now), RotateKey(Key(second, armor, public), now, now)];
    var none: seq<Event> := [];
    assert one[..|one| - 1] == none && events[..|events| - 1] == one;
    assert ValidFingerprint(first) && ValidFingerprint(second) by {
      forall i | 0 <= i < |first| ensures IsHex(first[i]) { assert first[i] in first; }
      forall i | 0 <= i < |second| ensures IsHex(second[i]) { assert second[i] in second; }
    }
    assert IsRun(none, now) && IsRun(one, now);
    assert Run(LAYOUT, secret, one) == Step(LAYOUT, Run(LAYOUT, secret, none), one[0]);
    assert first != second && Keys(one) == Keys(none)[first := armor];
    assert IsRun(events, now);
  }
}
