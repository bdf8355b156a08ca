/** The bounded cache of lookup responses (`src/server/cache.go`): a hash map into a
    linked list that is kept oldest first. */
module ServerCache {
  import opened Options

  datatype Response = Response(ip: seq<bv8>, body: string)

  /** A list element: its identity and the response it holds for good. */
  datatype Element = Element(id: nat, resp: Response)

  /** The hash of an address, FNV-1a in the source; everything here holds for any hash. */
  type Hash = seq<bv8> -> nat

  datatype State = State(entries: map<nat, Element>, values: seq<Element>, capacity: nat, evictions: nat, next: nat)

  function Empty(capacity: int): State {
    State(map[], [], if capacity < 0 then 0 else capacity, 0, 0)
  }

  // --- The operations on map and list ---

  /** One turn of the eviction loop: the front element goes, with the map entry its own address hashes to. */
  function EvictOne(hash: Hash, s: State): State
    requires s.values != []
  {
    s.(entries := s.entries - {hash(s.values[0].resp.ip)}, values := s.values[1..], evictions := s.evictions + 1)
  }

  function Evict(hash: Hash, s: State, n: nat): State
    decreases n
  {
    if n == 0 || s.values == [] then s
    else Evict(hash, EvictOne(hash, s), n - 1)
  }

  /** `list.Remove`: no effect on an element that is not in the list. */
  function RemoveElement(values: seq<Element>, id: nat): seq<Element> {
    if values == [] then []
    else (if values[0].id == id then [] else [values[0]]) + RemoveElement(values[1..], id)
  }

  function Push(s: State, k: nat, resp: Response): State {
    var values := if k in s.entries then RemoveElement(s.values, s.entries[k].id) else s.values;
    var e := Element(s.next, resp);
    s.(entries := s.entries[k := e], values := values + [e], next := s.next + 1)
  }

  function Excess(size: nat, capacity: nat): nat {
    if size + 1 > capacity then size + 1 - capacity else 0
  }

  /** `Set`. */
  function Stored(hash: Hash, s: State, ip: seq<bv8>, resp: Response): State {
    if s.capacity == 0 then s else Push(Evict(hash, s, Excess(|s.entries|, s.capacity)), hash(ip), resp)
  }

  /** `Get`. */
  function Found(hash: Hash, s: State, ip: seq<bv8>): Option<Response> {
    if hash(ip) in s.entries then Some(s.entries[hash(ip)].resp) else None
  }

  /** `Resize`: no eviction happens until the next Set. */
  function Resized(s: State, capacity: int): State {
    if capacity < 0 then s else s.(capacity := capacity, evictions := 0)
  }

  // --- One-to-one correspondence ---

  predicate DistinctBelow(values: seq<Element>, next: nat) {
    && (forall i | 0 <= i < |values| :: values[i].id < next)
    && (forall i, j | 0 <= i < j < |values| :: values[i].id != values[j].id)
  }

  ghost predicate ListInMap(hash: Hash, entries: map<nat, Element>, values: seq<Element>) {
    forall i | 0 <= i < |values| :: hash(values[i].resp.ip) in entries && entries[hash(values[i].resp.ip)] == values[i]
  }

  ghost predicate MapInList(hash: Hash, entries: map<nat, Element>, values: seq<Element>) {
    forall k | k in entries :: hash(entries[k].resp.ip) == k && entries[k] in values
  }

  /** Map and list hold the same elements, each under the hash of its own address. */
  ghost predicate Linked(hash: Hash, s: State) {
    DistinctBelow(s.values, s.next) && ListInMap(hash, s.entries, s.values) && MapInList(hash, s.entries, s.values)
  }

  lemma TailStaysInMap(hash: Hash, entries: map<nat, Element>, values: seq<Element>, next: nat)
    requires values != [] && ListInMap(hash, entries, values) && DistinctBelow(values, next)
    ensures ListInMap(hash, entries - {hash(values[0].resp.ip)}, values[1..]) && DistinctBelow(values[1..], next)
  {}

  lemma MapStaysInTail(hash: Hash, entries: map<nat, Element>, values: seq<Element>)
    requires values != [] && MapInList(hash, entries, values) && ListInMap(hash, entries, values)
    ensures MapInList(hash, entries - {hash(values[0].resp.ip)}, values[1..])
  {
    assert values == [values[0]] + values[1..];
  }

  lemma EvictOneKeepsLinked(hash: Hash, s: State)
    requires Linked(hash, s) && s.values != []
    ensures Linked(hash, EvictOne(hash, s)) && |EvictOne(hash, s).entries| == |s.entries| - 1
  {
    TailStaysInMap(hash, s.entries, s.values, s.next);
    MapStaysInTail(hash, s.entries, s.values);
    var k := hash(s.values[0].resp.ip);
    assert (s.entries - {k}).Keys == s.entries.Keys - {k};
  }

  lemma {:induction false} EvictKeepsLinked(hash: Hash, s: State, n: nat)
    requires Linked(hash, s)
    ensures Linked(hash, Evict(hash, s, n))
    decreases n
  {
    if n == 0 || s.values == [] {
      assert Evict(hash, s, n) == s;
    } else {
      var one := EvictOne(hash, s);
      assert Linked(hash, one) by { EvictOneKeepsLinked(hash, s); }
      assert Linked(hash, Evict(hash, one, n - 1)) by { EvictKeepsLinked(hash, one, n - 1); }
      assert Evict(hash, s, n) == Evict(hash, one, n - 1);
    }
  }

  lemma {:induction false} EvictTakesFront(hash: Hash, s: State, n: nat)
    ensures var r, m := Evict(hash, s, n), if n < |s.values| then n else |s.values|;
            r.values == s.values[m..] && r.evictions == s.evictions + m && r.capacity == s.capacity && r.next == s.next
    decreases n
  {
    if n > 0 && s.values != [] {
      EvictTakesFront(hash, EvictOne(hash, s), n - 1);
    }
  }

  /** One-to-one, so of one size. */
  lemma {:induction false} LinkedSameSize(hash: Hash, s: State)
    requires Linked(hash, s)
    ensures |s.entries| == |s.values|
    decreases |s.values|
  {
    if s.values == [] {
      assert s.entries.Keys == {};
    } else {
      EvictOneKeepsLinked(hash, s);
      LinkedSameSize(hash, EvictOne(hash, s));
    }
  }

  // --- The queue the cache stands for ---

  function Queue(values: seq<Element>): seq<Response> {
    if values == [] then [] else [values[0].resp] + Queue(values[1..])
  }

  /** The queue without the response of a key. */
  function Without(hash: Hash, q: seq<Response>, k: nat): seq<Response> {
    if q == [] then [] else (if hash(q[0].ip) == k then [] else [q[0]]) + Without(hash, q[1..], k)
  }

  /** A bounded queue of responses: make room from the old end, replace, append at the new end. */
  function Enqueue(hash: Hash, capacity: nat, q: seq<Response>, resp: Response): seq<Response> {
    if capacity == 0 then q
    else
      var n := if |q| < capacity then 0 else |q| + 1 - capacity;
      Without(hash, q[if n < |q| then n else |q|..], hash(resp.ip)) + [resp]
  }

  lemma {:induction false} QueueAt(values: seq<Element>, n: nat)
    requires n <= |values|
    ensures |Queue(values)| == |values| && Queue(values[n..]) == Queue(values)[n..]
    ensures n < |values| ==> Queue(values)[n] == values[n].resp
  {
    if values != [] {
      if n > 0 {
        QueueAt(values[1..], n - 1);
        assert values[n..] == values[1..][n - 1..];
      } else {
        QueueAt(values[1..], 0);
      }
    }
  }

  lemma {:induction false} QueueConcat(a: seq<Element>, b: seq<Element>)
    ensures Queue(a + b) == Queue(a) + Queue(b)
  {
    if a == [] {
      assert a + b == b;
    } else {
      QueueConcat(a[1..], b);
      assert (a + b)[1..] == a[1..] + b;
    }
  }

  /** Removing by identity is removing by key, when identity and key correspond. */
  lemma {:induction false} RemoveIsWithout(hash: Hash, values: seq<Element>, id: nat, k: nat)
    requires forall i | 0 <= i < |values| :: values[i].id == id <==> hash(values[i].resp.ip) == k
    ensures Queue(RemoveElement(values, id)) == Without(hash, Queue(values), k)
  {
    if values != [] {
      RemoveIsWithout(hash, values[1..], id, k);
      QueueConcat([values[0]], RemoveElement(values[1..], id));
      assert Queue(values)[1..] == Queue(values[1..]) && Queue([values[0]]) == [values[0].resp];
      assert [] + RemoveElement(values[1..], id) == RemoveElement(values[1..], id);
    }
  }

  lemma {:induction false} NothingWithout(hash: Hash, q: seq<Response>, k: nat)
    requires forall i | 0 <= i < |q| :: hash(q[i].ip) != k
    ensures Without(hash, q, k) == q
  {
    if q != [] { NothingWithout(hash, q[1..], k); }
  }

  lemma {:induction false} RemoveElementHolds(values: seq<Element>, id: nat, e: Element)
    ensures e in RemoveElement(values, id) <==> e in values && e.id != id
  {
    if values != [] {
      RemoveElementHolds(values[1..], id, e);
      assert values == [values[0]] + values[1..];
    }
  }

  lemma {:induction false} RemoveElementDistinct(values: seq<Element>, id: nat, next: nat)
    requires DistinctBelow(values, next)
    ensures DistinctBelow(RemoveElement(values, id), next)
  {
    if values != [] {
      RemoveElementDistinct(values[1..], id, next);
      var rest := RemoveElement(values[1..], id);
      forall i | 0 <= i < |rest| ensures rest[i].id != values[0].id {
        RemoveElementHolds(values[1..], id, rest[i]);
        var j :| 0 <= j < |values[1..]| && values[1..][j] == rest[i];
        assert values[j + 1] == rest[i];
      }
    }
  }

  function Survivors(s: State, k: nat): seq<Element> {
    if k in s.entries then RemoveElement(s.values, s.entries[k].id) else s.values
  }

  lemma SurvivorsAre(hash: Hash, s: State, k: nat)
    requires Linked(hash, s)
    ensures DistinctBelow(Survivors(s, k), s.next)
    ensures forall e :: e in Survivors(s, k) <==> e in s.values && hash(e.resp.ip) != k
    ensures Queue(Survivors(s, k)) == Without(hash, Queue(s.values), k)
  {
    forall i | 0 <= i < |s.values| ensures k in s.entries ==> (s.values[i].id == s.entries[k].id <==> hash(s.values[i].resp.ip) == k) {
      if k in s.entries {
        var j :| 0 <= j < |s.values| && s.values[j] == s.entries[k];
      }
    }
    if k in s.entries {
      RemoveElementDistinct(s.values, s.entries[k].id, s.next);
      RemoveIsWithout(hash, s.values, s.entries[k].id, k);
      forall e ensures e in Survivors(s, k) <==> e in s.values && hash(e.resp.ip) != k {
        RemoveElementHolds(s.values, s.entries[k].id, e);
      }
    } else {
      forall i | 0 <= i < |Queue(s.values)| ensures hash(Queue(s.values)[i].ip) != k { QueueAt(s.values, 0); QueueAt(s.values, i); }
      NothingWithout(hash, Queue(s.values), k);
    }
  }

  lemma PushedList(hash: Hash, entries: map<nat, Element>, values: seq<Element>, kept: seq<Element>, k: nat, e: Element)
    requires ListInMap(hash, entries, values) && hash(e.resp.ip) == k
    requires forall x :: x in kept <==> x in values && hash(x.resp.ip) != k
    ensures ListInMap(hash, entries[k := e], kept + [e])
  {
    forall i | 0 <= i < |kept| ensures hash(kept[i].resp.ip) in entries && hash(kept[i].resp.ip) != k && entries[hash(kept[i].resp.ip)] == kept[i] {
      assert kept[i] in kept;
    }
  }

  lemma PushedMap(hash: Hash, entries: map<nat, Element>, values: seq<Element>, kept: seq<Element>, k: nat, e: Element)
    requires MapInList(hash, entries, values) && hash(e.resp.ip) == k
    requires forall x :: x in kept <==> x in values && hash(x.resp.ip) != k
    ensures MapInList(hash, entries[k := e], kept + [e])
  {
    forall k' | k' in entries && k' != k ensures hash(entries[k'].resp.ip) == k' && entries[k'] in kept + [e] {
      assert entries[k'] in kept;
    }
  }

  lemma PushKeepsLinked(hash: Hash, s: State, resp: Response)
    requires Linked(hash, s)
    ensures Linked(hash, Push(s, hash(resp.ip), resp))
    ensures Queue(Push(s, hash(resp.ip), resp).values) == Without(hash, Queue(s.values), hash(resp.ip)) + [resp]
  {
    var k := hash(resp.ip);
    SurvivorsAre(hash, s, k);
    PushedQueue(Survivors(s, k), Element(s.next, resp));
    PushedList(hash, s.entries, s.values, Survivors(s, k), k, Element(s.next, resp));
    PushedMap(hash, s.entries, s.values, Survivors(s, k), k, Element(s.next, resp));
    PushedDistinct(Survivors(s, k), s.next, resp);
  }

  lemma PushedQueue(kept: seq<Element>, e: Element)
    ensures Queue(kept + [e]) == Queue(kept) + [e.resp]
  {
    QueueConcat(kept, [e]);
    assert Queue([e]) == [e.resp];
  }

  lemma PushedDistinct(kept: seq<Element>, next: nat, resp: Response)
    requires DistinctBelow(kept, next)
    ensures DistinctBelow(kept + [Element(next, resp)], next + 1)
  {}

  /** `Set` keeps the correspondence and is the bounded queue, as long as the response's
      own address hashes to the key it is stored under. */
  lemma SetIsEnqueue(hash: Hash, s: State, ip: seq<bv8>, resp: Response)
    requires Linked(hash, s) && hash(resp.ip) == hash(ip)
    ensures Linked(hash, Stored(hash, s, ip, resp))
    ensures Queue(Stored(hash, s, ip, resp).values) == Enqueue(hash, s.capacity, Queue(s.values), resp)
  {
    LinkedSameSize(hash, s);
    QueueAt(s.values, 0);
    if s.capacity > 0 {
      var n := Excess(|s.entries|, s.capacity);
      EvictTakesFront(hash, s, n);
      EvictKeepsLinked(hash, s, n);
      QueueAt(s.values, if n < |s.values| then n else |s.values|);
      PushKeepsLinked(hash, Evict(hash, s, n), resp);
    }
  }

  // --- Runs ---

  datatype Op = SetOp(ip: seq<bv8>, resp: Response) | ResizeOp(capacity: int)

  function Apply(hash: Hash, s: State, op: Op): State {
    match op
    case SetOp(ip, resp) => Stored(hash, s, ip, resp)
    case ResizeOp(capacity) => Resized(s, capacity)
  }

  function Run(hash: Hash, capacity: int, ops: seq<Op>): State {
    if ops == [] then Empty(capacity) else Apply(hash, Run(hash, capacity, ops[..|ops| - 1]), ops[|ops| - 1])
  }

  /** The operation takes effect as a resize to `c`. */
  predicate ResizesTo(op: Op, c: nat) {
    op == ResizeOp(c)
  }

  predicate NoResize(ops: seq<Op>, from: nat) {
    forall j | from <= j < |ops| :: ops[j].SetOp? || ops[j].capacity < 0
  }

  /** Over every run the capacity is that of the last Resize to one that is not negative, or the
      initial one, clamped at zero. */
  lemma {:induction false} CapacityIsLast(hash: Hash, capacity: int, ops: seq<Op>)
    ensures forall i: nat, c: nat | i < |ops| && ResizesTo(ops[i], c) && NoResize(ops, i + 1) :: Run(hash, capacity, ops).capacity == c
    ensures NoResize(ops, 0) ==> Run(hash, capacity, ops).capacity == if capacity < 0 then 0 else capacity
  {
    if ops != [] {
      var n := |ops| - 1;
      var before, op := ops[..n], ops[n];
      CapacityIsLast(hash, capacity, before);
      if op.SetOp? || op.capacity < 0 { SetKeepsCapacity(hash, Run(hash, capacity, before), op); }
      forall i: nat, c: nat | i < |ops| && ResizesTo(ops[i], c) && NoResize(ops, i + 1)
        ensures Run(hash, capacity, ops).capacity == c
      {
        if i < n { assert ResizesTo(before[i], c) && NoResize(before, i + 1) && (op.SetOp? || op.capacity < 0); }
      }
      if NoResize(ops, 0) { assert NoResize(before, 0) && (op.SetOp? || op.capacity < 0); }
    }
  }

  lemma {:induction false} EvictKeepsCapacity(hash: Hash, s: State, n: nat)
    ensures Evict(hash, s, n).capacity == s.capacity
    decreases n
  {
    if n > 0 && s.values != [] { EvictKeepsCapacity(hash, EvictOne(hash, s), n - 1); }
  }

  lemma SetKeepsCapacity(hash: Hash, s: State, op: Op)
    requires op.SetOp? || op.capacity < 0
    ensures Apply(hash, s, op).capacity == s.capacity
  {
    if op.SetOp? { EvictKeepsCapacity(hash, s, Excess(|s.entries|, s.capacity)); }
  }

  /** A Resize evicts nothing, and starts the count of evictions anew. */
  lemma ResizeEvictsNothing(hash: Hash, capacity: int, ops: seq<Op>, c: nat)
    ensures var s, r := Run(hash, capacity, ops), Run(hash, capacity, ops + [ResizeOp(c)]);
            r.entries == s.entries && r.values == s.values && r.evictions == 0
  {
    assert (ops + [ResizeOp(c)])[..|ops|] == ops;
  }

  /** Each response's own address hashes to the key it is stored under. */
  ghost predicate Matching(hash: Hash, ops: seq<Op>) {
    forall i | 0 <= i < |ops| && ops[i].SetOp? :: hash(ops[i].resp.ip) == hash(ops[i].ip)
  }

  /** The responses by their latest Set, oldest first, with nothing evicted. */
  function Order(hash: Hash, capacity: int, ops: seq<Op>): seq<Response> {
    if ops == [] then []
    else
      var before, op := ops[..|ops| - 1], ops[|ops| - 1];
      var q := Order(hash, capacity, before);
      if op.SetOp? && Run(hash, capacity, before).capacity > 0 then Without(hash, q, hash(op.resp.ip)) + [op.resp] else q
  }

  /** The latest Set of a key while the cache was enabled. */
  function Latest(hash: Hash, capacity: int, ops: seq<Op>, k: nat): Option<Response> {
    if ops == [] then None
    else
      var before, op := ops[..|ops| - 1], ops[|ops| - 1];
      if op.SetOp? && hash(op.ip) == k && Run(hash, capacity, before).capacity > 0 then Some(op.resp)
      else Latest(hash, capacity, before, k)
  }

  predicate IsSuffix(q: seq<Response>, all: seq<Response>) {
    |q| <= |all| && all[|all| - |q|..] == q
  }

  lemma {:induction false} WithoutConcat(hash: Hash, a: seq<Response>, b: seq<Response>, k: nat)
    ensures Without(hash, a + b, k) == Without(hash, a, k) + Without(hash, b, k)
  {
    if a == [] {
      assert a + b == b;
    } else {
      var head := if hash(a[0].ip) == k then [] else [a[0]];
      var x, y := Without(hash, a[1..], k), Without(hash, b, k);
      assert (a + b)[1..] == a[1..] + b;
      assert Without(hash, a[1..] + b, k) == x + y by { WithoutConcat(hash, a[1..], b, k); }
      assert head + (x + y) == (head + x) + y;
    }
  }

  lemma {:induction false} WithoutHolds(hash: Hash, q: seq<Response>, k: nat, r: Response)
    ensures r in Without(hash, q, k) <==> r in q && hash(r.ip) != k
    ensures |Without(hash, q, k)| <= |q|
  {
    if q != [] {
      WithoutHolds(hash, q[1..], k, r);
      assert q == [q[0]] + q[1..];
    }
  }

  lemma SuffixOfParts(x: seq<Response>, y: seq<Response>, r: Response)
    ensures IsSuffix(y + [r], x + y + [r])
  {}

  lemma EnqueueKeepsSuffix(hash: Hash, capacity: nat, q: seq<Response>, all: seq<Response>, resp: Response)
    requires IsSuffix(q, all) && capacity > 0
    ensures IsSuffix(Enqueue(hash, capacity, q, resp), Without(hash, all, hash(resp.ip)) + [resp])
    ensures |Enqueue(hash, capacity, q, resp)| <= capacity
  {
    var n, k := Excess(|q|, capacity), hash(resp.ip);
    var m := if n < |q| then n else |q|;
    var gone, kept := all[..|all| - |q|] + q[..m], q[m..];
    assert gone + kept == all;
    assert Without(hash, all, k) == Without(hash, gone, k) + Without(hash, kept, k) by { WithoutConcat(hash, gone, kept, k); }
    SuffixOfParts(Without(hash, gone, k), Without(hash, kept, k), resp);
    WithoutHolds(hash, kept, k, resp);
  }

  /** Over every run of Set and Resize: map and list correspond one to one, and the cache
      holds the newest part of the latest Sets, so eviction is oldest first. */
  lemma {:induction false} RunIsNewestPart(hash: Hash, capacity: int, ops: seq<Op>)
    requires Matching(hash, ops)
    ensures var s := Run(hash, capacity, ops);
            Linked(hash, s) && IsSuffix(Queue(s.values), Order(hash, capacity, ops))
  {
    if ops != [] {
      var before, op := ops[..|ops| - 1], ops[|ops| - 1];
      RunIsNewestPart(hash, capacity, before);
      var s := Run(hash, capacity, before);
      if op.SetOp? && s.capacity > 0 {
        SetIsEnqueue(hash, s, op.ip, op.resp);
        EnqueueKeepsSuffix(hash, s.capacity, Queue(s.values), Order(hash, capacity, before), op.resp);
      }
    }
  }

  /** After a Set at positive capacity the cache is within capacity, even right after a shrinking Resize. */
  lemma SizeWithinCapacity(hash: Hash, capacity: int, ops: seq<Op>, ip: seq<bv8>, resp: Response)
    requires Matching(hash, ops) && hash(resp.ip) == hash(ip) && Run(hash, capacity, ops).capacity > 0
    ensures var s := Stored(hash, Run(hash, capacity, ops), ip, resp);
            |s.entries| == |s.values| <= s.capacity
  {
    var s := Run(hash, capacity, ops);
    RunIsNewestPart(hash, capacity, ops);
    SetIsEnqueue(hash, s, ip, resp);
    EnqueueKeepsSuffix(hash, s.capacity, Queue(s.values), Order(hash, capacity, ops), resp);
    var r := Stored(hash, s, ip, resp);
    QueueAt(r.values, 0);
    LinkedSameSize(hash, r);
    EvictTakesFront(hash, s, Excess(|s.entries|, s.capacity));
  }

  lemma {:induction false} OrderIsLatest(hash: Hash, capacity: int, ops: seq<Op>, r: Response)
    requires Matching(hash, ops)
    ensures r in Order(hash, capacity, ops) <==> Latest(hash, capacity, ops, hash(r.ip)) == Some(r)
  {
    if ops != [] {
      var before, op := ops[..|ops| - 1], ops[|ops| - 1];
      OrderIsLatest(hash, capacity, before, r);
      if op.SetOp? { WithoutHolds(hash, Order(hash, capacity, before), hash(op.resp.ip), r); }
    }
  }

  lemma {:induction false} LatestIsOfKey(hash: Hash, capacity: int, ops: seq<Op>, k: nat)
    requires Matching(hash, ops)
    ensures var r := Latest(hash, capacity, ops, k); r.Some? ==> hash(r.value.ip) == k
  {
    if ops != [] { LatestIsOfKey(hash, capacity, ops[..|ops| - 1], k); }
  }

  lemma LinkedGet(hash: Hash, s: State, ip: seq<bv8>, r: Response)
    requires Linked(hash, s)
    ensures Found(hash, s, ip) == Some(r) <==> r in Queue(s.values) && hash(r.ip) == hash(ip)
  {
    QueueAt(s.values, 0);
    if Found(hash, s, ip) == Some(r) {
      var i :| 0 <= i < |s.values| && s.values[i] == s.entries[hash(ip)];
      QueueAt(s.values, i);
    }
    if r in Queue(s.values) && hash(r.ip) == hash(ip) {
      var i :| 0 <= i < |Queue(s.values)| && Queue(s.values)[i] == r;
      QueueAt(s.values, i);
    }
  }

  /** Get returns the latest Set of the address, unless that Set is in the part of the
      order that has been evicted; it never returns anything else. */
  lemma GetIsLatestOrEvicted(hash: Hash, capacity: int, ops: seq<Op>, ip: seq<bv8>, r: Response)
    requires Matching(hash, ops)
    ensures var s, all := Run(hash, capacity, ops), Order(hash, capacity, ops);
            && |s.values| <= |all|
            && (Found(hash, s, ip) == Some(r) ==> Latest(hash, capacity, ops, hash(ip)) == Some(r))
            && (Latest(hash, capacity, ops, hash(ip)) == Some(r) ==>
                r in all && (Found(hash, s, ip) == Some(r) <==> r in all[|all| - |s.values|..]))
  {
    var s, all := Run(hash, capacity, ops), Order(hash, capacity, ops);
    RunIsNewestPart(hash, capacity, ops);
    QueueAt(s.values, 0);
    LinkedGet(hash, s, ip, r);
    OrderIsLatest(hash, capacity, ops, r);
    LatestIsOfKey(hash, capacity, ops, hash(ip));
  }

  lemma PushIsAccounted(hash: Hash, s: State, resp: Response)
    requires Linked(hash, s)
    ensures |Push(s, hash(resp.ip), resp).values| + (if hash(resp.ip) in s.entries then 1 else 0) == |s.values| + 1
  {
    var r := Push(s, hash(resp.ip), resp);
    assert |s.entries| == |s.values| by { LinkedSameSize(hash, s); }
    assert |r.entries| == |r.values| by {
      PushKeepsLinked(hash, s, resp);
      LinkedSameSize(hash, r);
    }
    assert r.entries.Keys == s.entries.Keys + {hash(resp.ip)};
  }

  /** Every Set adds one response and every removal is an eviction that is counted or a replacement. */
  lemma SetIsAccounted(hash: Hash, s: State, ip: seq<bv8>, resp: Response, mid: State)
    requires Linked(hash, s) && hash(resp.ip) == hash(ip) && s.capacity > 0
    requires mid == Evict(hash, s, Excess(|s.entries|, s.capacity))
    ensures var r := Stored(hash, s, ip, resp);
            |r.values| + r.evictions + (if hash(ip) in mid.entries then 1 else 0) == |s.values| + s.evictions + 1
  {
    EvictTakesFront(hash, s, Excess(|s.entries|, s.capacity));
    EvictKeepsLinked(hash, s, Excess(|s.entries|, s.capacity));
    PushIsAccounted(hash, mid, resp);
  }

  /** At positive capacity, exactly the Sets under the response's own hash keep the correspondence. */
  lemma SetKeepsLinkedIff(hash: Hash, s: State, ip: seq<bv8>, resp: Response)
    requires Linked(hash, s) && s.capacity > 0
    ensures Linked(hash, Stored(hash, s, ip, resp)) <==> hash(resp.ip) == hash(ip)
  {
    if hash(resp.ip) == hash(ip) {
      SetIsEnqueue(hash, s, ip, resp);
    } else {
      assert Stored(hash, s, ip, resp).entries[hash(ip)].resp == resp;
    }
  }

  /** Stored under an address whose hash is not its own, a response outlives its list
      element in the map, and the cache outgrows its capacity. */
  lemma MismatchedKeyBreaksCorrespondence(hash: Hash, a: seq<bv8>, b: seq<bv8>, c: seq<bv8>, r: Response, q: Response)
    requires hash(a) != hash(b) && hash(c) != hash(a) && hash(c) != hash(b) && r.ip == b && q.ip == c
    ensures var s := Stored(hash, Stored(hash, Empty(1), a, r), c, q);
            |s.entries| == 2 && |s.values| == 1 && s.capacity == 1 && !Linked(hash, s)
  {
    var one := Stored(hash, Empty(1), a, r);
    assert one.values == [Element(0, r)] && one.entries == map[hash(a) := Element(0, r)];
    assert |one.entries| == 1;
    assert Evict(hash, one, 1).entries == one.entries;
    var s := Stored(hash, one, c, q);
    assert s.values == [Element(1, q)];
    assert s.entries == map[hash(a) := Element(0, r), hash(c) := Element(1, q)];
    assert s.entries[hash(a)] == Element(0, r);
  }

  // --- The object ---

  class Cache {
    const hash: Hash
    var entries: map<nat, Element>
    var values: seq<Element>
    var capacity: nat
    var evictions: nat
    var next: nat

    function Value(): State
      reads this
    {
      State(entries, values, capacity, evictions, next)
    }

    constructor (hash: Hash, capacity: int)
      ensures this.hash == hash && Value() == Empty(capacity)
    {
      this.hash, this.capacity := hash, if capacity < 0 then 0 else capacity;
      entries, values, evictions, next := map[], [], 0, 0;
    }

    method EvictOldest(minEvictions: nat)
      modifies this
      ensures Value() == Evict(hash, old(Value()), minEvictions)
    {
      var evicted := 0;
      while values != [] && evicted < minEvictions
        invariant 0 <= evicted <= minEvictions
        invariant Evict(hash, Value().(evictions := evictions + evicted), minEvictions - evicted) == Evict(hash, old(Value()), minEvictions)
        decreases minEvictions - evicted
      {
        entries := entries - {hash(values[0].resp.ip)};
        values := values[1..];
        evicted := evicted + 1;
      }
      evictions := evictions + evicted;
    }

    method Set(ip: seq<bv8>, resp: Response)
      modifies this
      ensures Value() == Stored(hash, old(Value()), ip, resp)
    {
      if capacity == 0 { return; }
      var k := hash(ip);
      var minEvictions := |entries| - capacity + 1;
      if minEvictions > 0 { EvictOldest(minEvictions); }
      ghost var mid := Value();
      assert mid == Evict(hash, old(Value()), Excess(|old(entries)|, old(capacity)));
      if k in entries { values := RemoveElement(values, entries[k].id); }
      var e := Element(next, resp);
      entries, values, next := entries[k := e], values + [e], next + 1;
    }

    method Get(ip: seq<bv8>) returns (resp: Option<Response>)
      ensures resp == Found(hash, Value(), ip)
    {
      var k := hash(ip);
      if k !in entries { return None; }
      resp := Some(entries[k].resp);
    }

    method Resize(size: int) returns (ok: bool)
      modifies this
      ensures ok == (size >= 0) && Value() == Resized(old(Value()), size)
    {
      if size < 0 { return false; }
      capacity, evictions, ok := size, 0, true;
    }
  }
}
