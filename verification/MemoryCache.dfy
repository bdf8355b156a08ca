/** The in-process cache backend (`src/cache/cache.go`): a map with expiry behind a
    lock, read and evicted in separate critical sections by concurrent callers, and
    swept by a janitor. */
module MemoryCache {
  import opened Options

  datatype Entry = Entry(value: seq<bv8>, expires: int)

  /** A Get between its critical sections: it has copied the entry out, or has found it
      expired and is about to delete the key. */
  datatype Pending = Holding(key: string, entry: Entry) | Dropping(key: string, entry: Entry)

  /** The atomic steps. `Read`, `Check` and `Drop` are the three parts of a Get. */
  datatype Action =
    | Read(thread: nat, key: string)
    | Check(thread: nat)
    | Drop(thread: nat, key: string)
    | Set(key: string, value: seq<bv8>, ttl: int)
    | Delete(key: string)
    | Flush
    | Sweep

  /** A step and the clock while it runs. */
  datatype Step = Step(action: Action, now: int)

  datatype State = State(entries: map<string, Entry>, pending: map<nat, Pending>)

  predicate Enabled(s: State, a: Action) {
    match a
    case Read(t, k) => t !in s.pending
    case Check(t) => t in s.pending && s.pending[t].Holding?
    case Drop(t, k) => t in s.pending && s.pending[t].Dropping? && s.pending[t].key == k
    case _ => true
  }

  predicate Expired(e: Entry, now: int) {
    now > e.expires
  }

  function Stored(defaultTtl: int, value: seq<bv8>, ttl: int, now: int): Entry {
    Entry(value, now + if ttl <= 0 then defaultTtl else ttl)
  }

  function Swept(entries: map<string, Entry>, now: int): map<string, Entry> {
    map k | k in entries && !Expired(entries[k], now) :: entries[k]
  }

  function Apply(defaultTtl: int, s: State, step: Step): State
    requires Enabled(s, step.action)
  {
    var now := step.now;
    match step.action
    case Read(t, k) => if k in s.entries then s.(pending := s.pending[t := Holding(k, s.entries[k])]) else s
    case Check(t) =>
      var g := s.pending[t];
      if Expired(g.entry, now) then s.(pending := s.pending[t := Dropping(g.key, g.entry)])
      else s.(pending := s.pending - {t})
    case Drop(t, k) => State(s.entries - {k}, s.pending - {t})
    case Set(k, v, ttl) => s.(entries := s.entries[k := Stored(defaultTtl, v, ttl, now)])
    case Delete(k) => s.(entries := s.entries - {k})
    case Flush => s.(entries := map[])
    case Sweep => s.(entries := Swept(s.entries, now))
  }

  datatype Reply = Hit(key: string, value: seq<bv8>) | Miss(key: string)

  /** What a step makes its caller return. */
  function Answer(s: State, step: Step): Option<Reply>
    requires Enabled(s, step.action)
  {
    match step.action
    case Read(t, k) => if k in s.entries then None else Some(Miss(k))
    case Check(t) =>
      var g := s.pending[t];
      if Expired(g.entry, step.now) then None else Some(Hit(g.key, g.entry.value))
    case Drop(t, k) => Some(Miss(k))
    case _ => None
  }

  /** An interleaving: every step is enabled where it happens, and the clock does not run backwards. */
  ghost predicate IsRun(defaultTtl: int, steps: seq<Step>)
    decreases |steps|, 0
  {
    steps == [] ||
    var before, last := steps[..|steps| - 1], steps[|steps| - 1];
    && IsRun(defaultTtl, before)
    && Enabled(Run(defaultTtl, before), last.action)
    && (before != [] ==> before[|before| - 1].now <= last.now)
  }

  ghost function Run(defaultTtl: int, steps: seq<Step>): State
    requires IsRun(defaultTtl, steps)
    decreases |steps|, 1
  {
    if steps == [] then State(map[], map[])
    else Apply(defaultTtl, Run(defaultTtl, steps[..|steps| - 1]), steps[|steps| - 1])
  }

  // --- What the callers did ---

  /** The latest Set of the key that no Delete or Flush has undone. Expiry plays no part. */
  function Latest(defaultTtl: int, steps: seq<Step>, k: string): Option<Entry> {
    if steps == [] then None
    else
      var before, last := steps[..|steps| - 1], steps[|steps| - 1];
      match last.action
      case Set(k', v, ttl) =>
        if k' == k then Some(Entry(v, last.now + if ttl > 0 then ttl else defaultTtl)) else Latest(defaultTtl, before, k)
      case Delete(k') => if k' == k then None else Latest(defaultTtl, before, k)
      case Flush => None
      case _ => Latest(defaultTtl, before, k)
  }

  /** Whether a Get has dropped the key since it was last set, deleted or flushed. */
  function Dropped(steps: seq<Step>, k: string): bool {
    steps != [] &&
    var before, last := steps[..|steps| - 1], steps[|steps| - 1];
    match last.action
    case Set(k', v, ttl) => k' != k && Dropped(before, k)
    case Delete(k') => k' != k && Dropped(before, k)
    case Flush => false
    case Drop(t, k') => k' == k || Dropped(before, k)
    case _ => Dropped(before, k)
  }

  function Clock(steps: seq<Step>): int
    requires steps != []
  {
    steps[|steps| - 1].now
  }

  /** The map never holds anything but the latest Set. */
  lemma {:induction false} EntriesAreLatest(defaultTtl: int, steps: seq<Step>, k: string)
    requires IsRun(defaultTtl, steps) && k in Run(defaultTtl, steps).entries
    ensures Latest(defaultTtl, steps, k) == Some(Run(defaultTtl, steps).entries[k])
  {
    if steps != [] {
      var before := steps[..|steps| - 1];
      if k in Run(defaultTtl, before).entries { EntriesAreLatest(defaultTtl, before, k); }
    }
  }

  /** Where a Get in flight read its entry. */
  ghost predicate ReadFrom(defaultTtl: int, steps: seq<Step>, r: nat, t: nat, k: string, e: Entry) {
    && r < |steps| && steps[r].action == Read(t, k)
    && Latest(defaultTtl, steps[..r], k) == Some(e)
    && forall i | r < i < |steps| :: !(steps[i].action.Read? && steps[i].action.thread == t)
  }

  lemma {:induction false} PendingWasRead(defaultTtl: int, steps: seq<Step>, t: nat) returns (r: nat)
    requires IsRun(defaultTtl, steps) && t in Run(defaultTtl, steps).pending
    ensures var g := Run(defaultTtl, steps).pending[t]; ReadFrom(defaultTtl, steps, r, t, g.key, g.entry)
  {
    var before, last := steps[..|steps| - 1], steps[|steps| - 1];
    if last.action.Read? && last.action.thread == t {
      r := |before|;
      EntriesAreLatest(defaultTtl, before, last.action.key);
    } else {
      r := PendingWasRead(defaultTtl, before, t);
      assert steps[..r] == before[..r];
    }
  }

  /** Every value any Get returns, in any interleaving, is the one most recently Set for
      that key when the Get read it, with no Delete or Flush in between, and it had not
      expired when the Get checked. */
  lemma HitIsLatestUnexpired(defaultTtl: int, steps: seq<Step>, t: nat, now: int) returns (r: nat, e: Entry)
    requires IsRun(defaultTtl, steps) && Enabled(Run(defaultTtl, steps), Check(t))
    requires Answer(Run(defaultTtl, steps), Step(Check(t), now)).Some?
    ensures var hit := Answer(Run(defaultTtl, steps), Step(Check(t), now)).value;
            hit.Hit? && hit.value == e.value && now <= e.expires && ReadFrom(defaultTtl, steps, r, t, hit.key, e)
  {
    e := Run(defaultTtl, steps).pending[t].entry;
    r := PendingWasRead(defaultTtl, steps, t);
  }

  // --- Misses ---

  /** A dropped key stays out of the map until it is set again. */
  lemma {:induction false} DroppedIsAbsent(defaultTtl: int, steps: seq<Step>, k: string)
    requires IsRun(defaultTtl, steps) && Dropped(steps, k)
    ensures k !in Run(defaultTtl, steps).entries
  {
    var before := steps[..|steps| - 1];
    if Dropped(before, k) { DroppedIsAbsent(defaultTtl, before, k); }
  }

  /** A live Set is in the map unless a Get has dropped the key after it; the janitor never takes it. */
  lemma {:induction false} LiveIsPresent(defaultTtl: int, steps: seq<Step>, k: string)
    requires IsRun(defaultTtl, steps) && steps != []
    requires Latest(defaultTtl, steps, k).Some? && Clock(steps) <= Latest(defaultTtl, steps, k).value.expires
    requires !Dropped(steps, k)
    ensures k in Run(defaultTtl, steps).entries
  {
    var before, last := steps[..|steps| - 1], steps[|steps| - 1];
    if !(last.action.Set? && last.action.key == k) {
      LiveIsPresent(defaultTtl, before, k);
      EntriesAreLatest(defaultTtl, before, k);
    }
  }

  /** In any interleaving, a key whose latest Set is still live is present exactly when
      no Get has dropped it since that Set. */
  lemma LivePresentIffNotDropped(defaultTtl: int, steps: seq<Step>, k: string)
    requires IsRun(defaultTtl, steps) && steps != []
    requires Latest(defaultTtl, steps, k).Some? && Clock(steps) <= Latest(defaultTtl, steps, k).value.expires
    ensures k in Run(defaultTtl, steps).entries <==> !Dropped(steps, k)
  {
    if Dropped(steps, k) { DroppedIsAbsent(defaultTtl, steps, k); } else { LiveIsPresent(defaultTtl, steps, k); }
  }

  /** A Get answers when it reads exactly if the key is not in the map, and then with a miss; a live
      value is missed only if another Get has dropped it. */
  lemma MissIsHonest(defaultTtl: int, steps: seq<Step>, t: nat, k: string, now: int)
    requires IsRun(defaultTtl, steps) && Enabled(Run(defaultTtl, steps), Read(t, k))
    ensures var answer := Answer(Run(defaultTtl, steps), Step(Read(t, k), now));
            && (answer.Some? <==> k !in Run(defaultTtl, steps).entries) && (answer.Some? ==> answer == Some(Miss(k)))
            && (answer.Some? && Latest(defaultTtl, steps, k).Some? && Clock(steps) <= Latest(defaultTtl, steps, k).value.expires ==>
                  Dropped(steps, k))
  {
    if steps != [] && Latest(defaultTtl, steps, k).Some? && Clock(steps) <= Latest(defaultTtl, steps, k).value.expires {
      LivePresentIffNotDropped(defaultTtl, steps, k);
    }
  }

  /** After a pass of the janitor the map holds exactly the entries that were there and have not expired. */
  lemma SweepLeavesLive(defaultTtl: int, steps: seq<Step>, now: int, k: string)
    requires IsRun(defaultTtl, steps + [Step(Sweep, now)]) && IsRun(defaultTtl, steps)
    ensures k in Run(defaultTtl, steps + [Step(Sweep, now)]).entries <==>
            k in Run(defaultTtl, steps).entries && now <= Run(defaultTtl, steps).entries[k].expires
  {
    assert (steps + [Step(Sweep, now)])[..|steps|] == steps;
  }

  // --- Which Gets take a live value away ---

  predicate Touches(a: Action, k: string) {
    (a.Set? && a.key == k) || (a.Delete? && a.key == k) || a.Flush?
  }

  /** The Set that `Latest` speaks of. */
  predicate IsLatestSet(steps: seq<Step>, s: nat, k: string) {
    && s < |steps| && steps[s].action.Set? && steps[s].action.key == k
    && forall i | s < i < |steps| :: !Touches(steps[i].action, k)
  }

  /** One Get of thread `t`: it reads the key in step `r` and deletes it in step `d`. */
  predicate SameGet(steps: seq<Step>, r: nat, d: nat, t: nat, k: string) {
    && r < d < |steps| && steps[r].action == Read(t, k) && steps[d].action == Drop(t, k)
    && forall i | r < i < d :: !(steps[i].action.Read? && steps[i].action.thread == t)
  }

  /** A Get that read the key before step `s` deletes it after that step. */
  ghost predicate OverlappedAt(steps: seq<Step>, s: nat, k: string) {
    exists r: nat, d: nat, t: nat :: SameGet(steps, r, d, t, k) && r < s < d
  }

  lemma {:induction false} RunPrefix(defaultTtl: int, steps: seq<Step>, i: nat)
    requires IsRun(defaultTtl, steps) && i <= |steps|
    ensures IsRun(defaultTtl, steps[..i])
    ensures 0 < i ==> Clock(steps[..i]) <= Clock(steps)
    decreases |steps|
  {
    if i == |steps| {
      assert steps[..i] == steps;
    } else {
      RunPrefix(defaultTtl, steps[..|steps| - 1], i);
      assert steps[..|steps| - 1][..i] == steps[..i];
    }
  }

  lemma {:induction false} LatestIsThatSet(defaultTtl: int, steps: seq<Step>, s: nat, k: string)
    requires IsLatestSet(steps, s, k)
    ensures var a := steps[s].action;
            Latest(defaultTtl, steps, k) == Some(Entry(a.value, steps[s].now + if a.ttl > 0 then a.ttl else defaultTtl))
    decreases |steps|
  {
    if s < |steps| - 1 { LatestIsThatSet(defaultTtl, steps[..|steps| - 1], s, k); }
  }

  /** A Get deletes only what it saw expired. */
  lemma {:induction false} DroppingIsExpired(defaultTtl: int, steps: seq<Step>, t: nat)
    requires IsRun(defaultTtl, steps) && t in Run(defaultTtl, steps).pending && Run(defaultTtl, steps).pending[t].Dropping?
    ensures steps != [] && Expired(Run(defaultTtl, steps).pending[t].entry, Clock(steps))
  {
    var before, last := steps[..|steps| - 1], steps[|steps| - 1];
    if !(last.action.Check? && last.action.thread == t) { DroppingIsExpired(defaultTtl, before, t); }
  }

  /** A Get in flight was in flight ever since it read. */
  lemma {:induction false} InFlightSinceRead(defaultTtl: int, steps: seq<Step>, t: nat, i: nat)
    requires IsRun(defaultTtl, steps) && t in Run(defaultTtl, steps).pending && i <= |steps|
    requires forall j | i <= j < |steps| :: !(steps[j].action.Read? && steps[j].action.thread == t)
    ensures IsRun(defaultTtl, steps[..i]) && t in Run(defaultTtl, steps[..i]).pending
    ensures Run(defaultTtl, steps[..i]).pending[t].key == Run(defaultTtl, steps).pending[t].key
    decreases |steps|
  {
    if i == |steps| {
      assert steps[..i] == steps;
    } else {
      InFlightSinceRead(defaultTtl, steps[..|steps| - 1], t, i);
      assert steps[..|steps| - 1][..i] == steps[..i];
    }
  }

  lemma {:induction false} DropOf(steps: seq<Step>, s: nat, k: string) returns (d: nat)
    requires IsLatestSet(steps, s, k) && Dropped(steps, k)
    ensures s < d < |steps| && steps[d].action.Drop? && steps[d].action.key == k
    decreases |steps|
  {
    var last := steps[|steps| - 1];
    if last.action.Drop? && last.action.key == k {
      d := |steps| - 1;
    } else {
      d := DropOf(steps[..|steps| - 1], s, k);
    }
  }

  lemma {:induction false} DropCounts(steps: seq<Step>, d: nat, k: string)
    requires d < |steps| && steps[d].action.Drop? && steps[d].action.key == k
    requires forall i | d < i < |steps| :: !Touches(steps[i].action, k)
    ensures Dropped(steps, k)
    decreases |steps|
  {
    if d < |steps| - 1 { DropCounts(steps[..|steps| - 1], d, k); }
  }

  /** The Get behind a Drop that follows a still live Set had read the key before that Set. */
  lemma DropReadBeforeSet(defaultTtl: int, steps: seq<Step>, s: nat, d: nat, k: string) returns (r: nat)
    requires IsRun(defaultTtl, steps) && IsLatestSet(steps, s, k) && s < d < |steps|
    requires Latest(defaultTtl, steps, k).Some? && Clock(steps) <= Latest(defaultTtl, steps, k).value.expires
    requires steps[d].action.Drop? && steps[d].action.key == k
    ensures r < s && SameGet(steps, r, d, steps[d].action.thread, k)
  {
    var t := steps[d].action.thread;
    var upTo := steps[..d];
    RunPrefix(defaultTtl, steps, d + 1);
    assert steps[..d + 1][..d] == upTo;
    RunPrefix(defaultTtl, steps, d);
    r := PendingWasRead(defaultTtl, upTo, t);
    DroppingIsExpired(defaultTtl, upTo, t);
    LatestIsThatSet(defaultTtl, steps, s, k);
    if s < r {
      assert IsLatestSet(upTo[..r], s, k);
      LatestIsThatSet(defaultTtl, upTo[..r], s, k);
    }
    assert r != s;
  }

  /** In any interleaving, a key whose latest Set is still live is missing exactly when one Get
      read the key before that Set and deleted it after. */
  lemma LiveAbsentIffOverlapped(defaultTtl: int, steps: seq<Step>, s: nat, k: string)
    requires IsRun(defaultTtl, steps) && IsLatestSet(steps, s, k)
    requires Latest(defaultTtl, steps, k).Some? && Clock(steps) <= Latest(defaultTtl, steps, k).value.expires
    ensures k !in Run(defaultTtl, steps).entries <==> OverlappedAt(steps, s, k)
  {
    LivePresentIffNotDropped(defaultTtl, steps, k);
    if k !in Run(defaultTtl, steps).entries {
      var d := DropOf(steps, s, k);
      var r := DropReadBeforeSet(defaultTtl, steps, s, d, k);
      assert SameGet(steps, r, d, steps[d].action.thread, k);
    }
    if OverlappedAt(steps, s, k) {
      var r: nat, d: nat, t: nat :| SameGet(steps, r, d, t, k) && r < s < d;
      DropCounts(steps, d, k);
    }
  }

  lemma OverlapIsInFlight(defaultTtl: int, steps: seq<Step>, s: nat, k: string) returns (t: nat)
    requires IsRun(defaultTtl, steps) && OverlappedAt(steps, s, k)
    ensures s <= |steps| && IsRun(defaultTtl, steps[..s])
    ensures t in Run(defaultTtl, steps[..s]).pending && Run(defaultTtl, steps[..s]).pending[t].key == k
  {
    var r: nat, d: nat, t': nat :| SameGet(steps, r, d, t', k) && r < s < d;
    t := t';
    RunPrefix(defaultTtl, steps, d + 1);
    assert steps[..d + 1][..d] == steps[..d];
    InFlightSinceRead(defaultTtl, steps[..d], t, s);
    assert steps[..d][..s] == steps[..s];
  }

  /** If no Get of the key is under way when it is set, the value stays until it expires or is
      deleted, flushed or set again, whatever the other callers and the janitor do. */
  lemma UndisturbedSetStays(defaultTtl: int, steps: seq<Step>, s: nat, k: string)
    requires IsRun(defaultTtl, steps) && IsLatestSet(steps, s, k) && IsRun(defaultTtl, steps[..s])
    requires forall t | t in Run(defaultTtl, steps[..s]).pending :: Run(defaultTtl, steps[..s]).pending[t].key != k
    requires Latest(defaultTtl, steps, k).Some? && Clock(steps) <= Latest(defaultTtl, steps, k).value.expires
    ensures k in Run(defaultTtl, steps).entries && Run(defaultTtl, steps).entries[k].value == steps[s].action.value
  {
    assert k in Run(defaultTtl, steps).entries by {
      LiveAbsentIffOverlapped(defaultTtl, steps, s, k);
      if OverlappedAt(steps, s, k) { var t := OverlapIsInFlight(defaultTtl, steps, s, k); }
    }
    EntriesAreLatest(defaultTtl, steps, k);
    LatestIsThatSet(defaultTtl, steps, s, k);
  }

  lemma RunStep(defaultTtl: int, steps: seq<Step>, step: Step)
    requires IsRun(defaultTtl, steps) && Enabled(Run(defaultTtl, steps), step.action)
    requires steps != [] ==> Clock(steps) <= step.now
    ensures IsRun(defaultTtl, steps + [step])
    ensures Run(defaultTtl, steps + [step]) == Apply(defaultTtl, Run(defaultTtl, steps), step)
    ensures steps + [step] != [] && Clock(steps + [step]) == step.now
  {
    assert (steps + [step])[..|steps|] == steps;
  }

  /** A Set that falls between the expiry check of a Get and its delete is thrown away:
      the key is absent although its latest Set is live. */
  lemma FreshSetCanBeDropped(k: string, v: seq<bv8>, ttl: int) returns (steps: seq<Step>)
    requires ttl > 1
    ensures IsRun(ttl, steps) && steps != [] && k !in Run(ttl, steps).entries
    ensures Latest(ttl, steps, k).Some? && Clock(steps) <= Latest(ttl, steps, k).value.expires
  {
    steps := [];
    RunStep(ttl, steps, Step(Set(k, v, 1), 0));
    steps := steps + [Step(Set(k, v, 1), 0)];
    RunStep(ttl, steps, Step(Read(0, k), 2));
    steps := steps + [Step(Read(0, k), 2)];
    RunStep(ttl, steps, Step(Check(0), 2));
    steps := steps + [Step(Check(0), 2)];
    RunStep(ttl, steps, Step(Set(k, v, ttl), 3));
    var before := steps;
    steps := steps + [Step(Set(k, v, ttl), 3)];
    RunStep(ttl, steps, Step(Drop(0, k), 4));
    assert steps[..|steps| - 1] == before;
    assert Latest(ttl, steps, k) == Some(Entry(v, 3 + ttl));
    assert (steps + [Step(Drop(0, k), 4)])[..|steps|] == steps;
    steps := steps + [Step(Drop(0, k), 4)];
  }

  // --- One caller at a time ---

  datatype Call = CallGet(key: string) | CallSet(key: string, value: seq<bv8>, ttl: int) | CallDelete(key: string) | CallFlush | CallSweep

  datatype TimedCall = TimedCall(call: Call, now: int)

  /** A whole Get: the three steps with nothing between them. */
  function AfterGet(entries: map<string, Entry>, k: string, now: int): map<string, Entry> {
    if k in entries && Expired(entries[k], now) then entries - {k} else entries
  }

  function Got(entries: map<string, Entry>, k: string, now: int): Option<seq<bv8>> {
    if k in entries && !Expired(entries[k], now) then Some(entries[k].value) else None
  }

  /** `AfterGet` and `Got` are what the steps of one Get do when nothing comes between them. */
  lemma GetIsItsSteps(defaultTtl: int, s: State, t: nat, k: string, now: int)
    requires t !in s.pending
    ensures var read := Apply(defaultTtl, s, Step(Read(t, k), now));
            if k !in s.entries then read == s && AfterGet(s.entries, k, now) == s.entries && Got(s.entries, k, now) == None
            else
              var checked := Apply(defaultTtl, read, Step(Check(t), now));
              if Expired(s.entries[k], now) then
                && Apply(defaultTtl, checked, Step(Drop(t, k), now)) == State(AfterGet(s.entries, k, now), s.pending)
                && Got(s.entries, k, now) == None
              else
                && checked == State(AfterGet(s.entries, k, now), s.pending)
                && Got(s.entries, k, now).Some?
                && Answer(read, Step(Check(t), now)) == Some(Hit(k, Got(s.entries, k, now).value))
  {}

  function AfterCall(defaultTtl: int, entries: map<string, Entry>, c: TimedCall): map<string, Entry> {
    match c.call
    case CallGet(k) => AfterGet(entries, k, c.now)
    case CallSet(k, v, ttl) => entries[k := Stored(defaultTtl, v, ttl, c.now)]
    case CallDelete(k) => entries - {k}
    case CallFlush => map[]
    case CallSweep => Swept(entries, c.now)
  }

  function AfterCalls(defaultTtl: int, calls: seq<TimedCall>): map<string, Entry> {
    if calls == [] then map[] else AfterCall(defaultTtl, AfterCalls(defaultTtl, calls[..|calls| - 1]), calls[|calls| - 1])
  }

  predicate Ordered(calls: seq<TimedCall>) {
    forall i, j | 0 <= i < j < |calls| :: calls[i].now <= calls[j].now
  }

  /** The same calls on a map that forgets nothing: no eviction, no sweep. */
  function Ideal(defaultTtl: int, calls: seq<TimedCall>, k: string): Option<Entry> {
    if calls == [] then None
    else
      var before, c := calls[..|calls| - 1], calls[|calls| - 1];
      match c.call
      case CallSet(k', v, ttl) =>
        if k' == k then Some(Entry(v, c.now + if ttl > 0 then ttl else defaultTtl)) else Ideal(defaultTtl, before, k)
      case CallDelete(k') => if k' == k then None else Ideal(defaultTtl, before, k)
      case CallFlush => None
      case _ => Ideal(defaultTtl, before, k)
  }

  function IdealGot(e: Option<Entry>, now: int): Option<seq<bv8>> {
    if e.Some? && now <= e.value.expires then Some(e.value.value) else None
  }

  /** Without interleaving, a Get returns exactly what the ideal map holds and has not
      expired: lazy deletion and the janitor cannot be observed. */
  lemma {:induction false} SequentialGetIsExact(defaultTtl: int, calls: seq<TimedCall>, k: string, now: int)
    requires Ordered(calls) && (calls != [] ==> calls[|calls| - 1].now <= now)
    ensures Got(AfterCalls(defaultTtl, calls), k, now) == IdealGot(Ideal(defaultTtl, calls, k), now)
  {
    if calls != [] { SequentialGetIsExact(defaultTtl, calls[..|calls| - 1], k, now); }
  }

  // --- The object ---

  datatype Slot = Slot(buf: array<bv8>, expires: int)

  class Cache {
    const prefix: string
    const defaultTtl: int
    var entries: map<string, Slot>

    ghost function Buffers(): set<object>
      reads this
    {
      set k | k in entries :: entries[k].buf
    }

    ghost function Value(): map<string, Entry>
      reads this, Buffers()
    {
      map k | k in entries :: Entry(entries[k].buf[..], entries[k].expires)
    }

    constructor (prefix: string, defaultTtl: int)
      ensures this.prefix == prefix && this.defaultTtl == defaultTtl && Value() == map[] && Buffers() == {}
    {
      this.prefix, this.defaultTtl, entries := prefix, defaultTtl, map[];
    }

    /** `Get`: the caller gets a buffer of its own. */
    method Get(key: string, now: int) returns (found: bool, out: array<bv8>)
      modifies this
      ensures Value() == AfterGet(old(Value()), prefix + key, now) && Buffers() <= old(Buffers())
      ensures found == Got(old(Value()), prefix + key, now).Some?
      ensures fresh(out) && (found ==> out[..] == Got(old(Value()), prefix + key, now).value)
    {
      var k := prefix + key;
      out := new bv8[0];
      if k !in entries { return false, out; }
      var e := entries[k];
      if now > e.expires {
        entries := entries - {k};
        return false, out;
      }
      found := true;
      out := Copy(e.buf);
    }

    /** `Set`: the caller keeps its buffer. */
    method Set(key: string, value: array<bv8>, ttl: int, now: int)
      modifies this
      ensures Value() == old(Value())[prefix + key := Stored(defaultTtl, value[..], ttl, now)]
      ensures fresh(Buffers() - old(Buffers()))
    {
      var buf := Copy(value);
      entries := entries[prefix + key := Slot(buf, now + if ttl <= 0 then defaultTtl else ttl)];
    }

    method Delete(key: string)
      modifies this
      ensures Value() == old(Value()) - {prefix + key} && Buffers() <= old(Buffers())
    {
      entries := entries - {prefix + key};
    }

    method Flush()
      modifies this
      ensures Value() == map[]
    {
      entries := map[];
    }

    /** One pass of the janitor, in whatever order Go visits the keys. */
    method SweepOnce(now: int)
      modifies this
      ensures Value() == Swept(old(Value()), now) && Buffers() <= old(Buffers())
    {
      var todo, all := entries.Keys, entries;
      while todo != {}
        invariant todo <= all.Keys
        invariant entries == map k | k in all && (k in todo || now <= all[k].expires) :: all[k]
      {
        var k :| k in todo;
        if now > all[k].expires { entries := entries - {k}; }
        todo := todo - {k};
      }
    }
  }

  method Copy(a: array<bv8>) returns (b: array<bv8>)
    ensures fresh(b) && b[..] == a[..]
  {
    b := new bv8[a.Length];
    forall i | 0 <= i < a.Length { b[i] := a[i]; }
  }
}
