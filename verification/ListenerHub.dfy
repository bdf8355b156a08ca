/** `src/netutil/listener_hub.go`: one accept loop hands connections to
    successive server generations while other goroutines switch and close.
    Every critical section and channel operation is one atomic step; a run is
    any interleaving of enabled steps. */
module ListenerHub {
  import opened Options

  type Conn = nat
  /** Generations are numbered in the order they become current. */
  type Generation = nat

  /** Where the accept loop is. */
  datatype Loop =
    | Accepting
    | Holding(conn: Conn)
    | Offering(conn: Conn, generation: Generation)
    | Returned

  /** How far the one `Close` that runs its body has come. */
  datatype Closing = NotClosed | CurrentTaken(generation: Option<Generation>) | GenerationClosed | Closed

  datatype Event =
    | Switched(generation: Generation)
    | Accepted(conn: Conn)
    | Delivered(conn: Conn, generation: Generation)
    | Dropped(conn: Conn)

  /** The hub. `retiring` holds the generations replaced by a Switch that has not yet closed
      them; `panicked` says that a Switch after Close dereferenced a nil generation. */
  datatype Hub = Hub(
    current: Option<Generation>,
    nextGeneration: Generation,
    done: set<Generation>,
    retiring: set<Generation>,
    closing: Closing,
    listening: bool,
    loop: Loop,
    nextConn: Conn,
    panicked: bool,
    log: seq<Event>)

  datatype Action =
    | AcceptConnection
    | AcceptFails
    | ReadCurrent
    | Deliver
    | Retry
    | SwitchCurrent
    | SwitchCloses(generation: Generation)
    | ListenerCloses(generation: Generation)
    | CloseTakesCurrent
    | CloseClosesGeneration
    | CloseClosesListener

  function Init(): Hub {
    Hub(Some(0), 1, {}, {}, NotClosed, true, Accepting, 0, false, [])
  }

  predicate Enabled(h: Hub, a: Action) {
    !h.panicked &&
    match a
    case AcceptConnection => h.loop.Accepting? && h.listening
    case AcceptFails => h.loop.Accepting?
    case ReadCurrent => h.loop.Holding?
    case Deliver => h.loop.Offering?
    case Retry => h.loop.Offering? && h.loop.generation in h.done
    case SwitchCurrent => true
    case SwitchCloses(g) => g in h.retiring
    case ListenerCloses(g) => g < h.nextGeneration
    case CloseTakesCurrent => h.closing.NotClosed?
    case CloseClosesGeneration => h.closing.CurrentTaken?
    case CloseClosesListener => h.closing.GenerationClosed?
  }

  function Apply(h: Hub, a: Action): Hub
    requires Enabled(h, a)
  {
    match a
    case AcceptConnection =>
      h.(loop := Holding(h.nextConn), nextConn := h.nextConn + 1, log := h.log + [Accepted(h.nextConn)])
    case AcceptFails => h.(loop := Returned)
    case ReadCurrent =>
      if h.current.None? then h.(loop := Accepting, log := h.log + [Dropped(h.loop.conn)])
      else h.(loop := Offering(h.loop.conn, h.current.value))
    case Deliver =>
      h.(loop := Accepting, log := h.log + [Delivered(h.loop.conn, h.loop.generation)])
    case Retry => h.(loop := Holding(h.loop.conn))
    case SwitchCurrent =>
      var n := h.(current := Some(h.nextGeneration), nextGeneration := h.nextGeneration + 1,
                  log := h.log + [Switched(h.nextGeneration)]);
      if h.current.None? then n.(panicked := true)
      else n.(retiring := h.retiring + {h.current.value})
    case SwitchCloses(g) => h.(done := h.done + {g}, retiring := h.retiring - {g})
    case ListenerCloses(g) => h.(done := h.done + {g})
    case CloseTakesCurrent => h.(current := None, closing := CurrentTaken(h.current))
    case CloseClosesGeneration =>
      var g := h.closing.generation;
      h.(done := if g.Some? then h.done + {g.value} else h.done, closing := GenerationClosed)
    case CloseClosesListener => h.(listening := false, closing := Closed)
  }

  /** The hub after a run, if every step of it was enabled in turn. */
  function Run(actions: seq<Action>): Option<Hub> {
    if actions == [] then Some(Init())
    else
      var before := Run(actions[..|actions| - 1]);
      var a := actions[|actions| - 1];
      if before.Some? && Enabled(before.value, a) then Some(Apply(before.value, a)) else None
  }

  // --- Every connection has exactly one fate ---

  predicate IsFate(e: Event, c: Conn) {
    (e.Delivered? || e.Dropped?) && e.conn == c
  }

  /** How often connection `c` was delivered or closed. */
  function Fates(log: seq<Event>, c: Conn): nat {
    if log == [] then 0
    else Fates(log[..|log| - 1], c) + if IsFate(log[|log| - 1], c) then 1 else 0
  }

  function HeldBy(l: Loop, c: Conn): nat {
    if (l.Holding? || l.Offering?) && l.conn == c then 1 else 0
  }

  ghost predicate OneFate(h: Hub) {
    forall c: Conn :: Fates(h.log, c) + HeldBy(h.loop, c) == if c < h.nextConn then 1 else 0
  }

  lemma FatesAppend(log: seq<Event>, e: Event, c: Conn)
    ensures Fates(log + [e], c) == Fates(log, c) + if IsFate(e, c) then 1 else 0
  {
    assert (log + [e])[..|log|] == log;
  }

  /** The events a step records. */
  function Emitted(h: Hub, a: Action): seq<Event>
    requires Enabled(h, a)
  {
    match a
    case AcceptConnection => [Accepted(h.nextConn)]
    case ReadCurrent => if h.current.None? then [Dropped(h.loop.conn)] else []
    case Deliver => [Delivered(h.loop.conn, h.loop.generation)]
    case SwitchCurrent => [Switched(h.nextGeneration)]
    case _ => []
  }

  lemma LogGrows(h: Hub, a: Action)
    requires Enabled(h, a)
    ensures Apply(h, a).log == h.log + Emitted(h, a)
  {}

  lemma OneFateKept(h: Hub, a: Action)
    requires Enabled(h, a) && OneFate(h)
    ensures OneFate(Apply(h, a))
  {
    var n := Apply(h, a);
    LogGrows(h, a);
    forall c: Conn ensures Fates(n.log, c) + HeldBy(n.loop, c) == if c < n.nextConn then 1 else 0 {
      assert Fates(h.log, c) + HeldBy(h.loop, c) == if c < h.nextConn then 1 else 0;
      var es := Emitted(h, a);
      NextConn(h, a);
      if es != [] {
        assert es == [es[0]];
        FatesAppend(h.log, es[0], c);
        ConnStep(h, a, c);
      } else {
        SilentStep(h, a);
      }
    }
  }

  lemma NextConn(h: Hub, a: Action)
    requires Enabled(h, a)
    ensures Apply(h, a).nextConn == h.nextConn + (if a.AcceptConnection? then 1 else 0)
  {}

  lemma SilentStep(h: Hub, a: Action)
    requires Enabled(h, a) && Emitted(h, a) == []
    ensures Apply(h, a).log == h.log && !a.AcceptConnection? && forall c: Conn :: HeldBy(Apply(h, a).loop, c) == HeldBy(h.loop, c)
  {}

  lemma ConnStep(h: Hub, a: Action, c: Conn)
    requires Enabled(h, a) && Emitted(h, a) != []
    ensures (if IsFate(Emitted(h, a)[0], c) then 1 else 0) + HeldBy(Apply(h, a).loop, c)
         == HeldBy(h.loop, c) + if a.AcceptConnection? && c == h.nextConn then 1 else 0
  {}

  /** In every interleaving each accepted connection is held by the accept loop,
      delivered to one generation or closed, and exactly one of these, once; when the
      loop has returned, none is left behind. */
  lemma {:induction false} EveryConnectionHasOneFate(actions: seq<Action>)
    requires Run(actions).Some?
    ensures OneFate(Run(actions).value)
    ensures Run(actions).value.loop.Returned? ==>
              forall c: Conn | c < Run(actions).value.nextConn :: Fates(Run(actions).value.log, c) == 1
  {
    if actions != [] {
      var n := |actions| - 1;
      EveryConnectionHasOneFate(actions[..n]);
      OneFateKept(Run(actions[..n]).value, actions[n]);
    }
  }

  // --- Connections move forward through the generations only ---

  /** The generation before which a connection accepted at position `j` of the log must not land. */
  ghost predicate ForwardOnly(log: seq<Event>) {
    forall i, j, k | 0 <= i < j < k < |log| && log[i].Switched? && log[j].Accepted? && log[k].Delivered? &&
                     log[j].conn == log[k].conn :: log[i].generation <= log[k].generation
  }

  /** Handing `c` to `g` respects every Switch before the acceptance of `c`. */
  ghost predicate Respects(log: seq<Event>, c: Conn, g: Generation) {
    forall i, j | 0 <= i < j < |log| && log[i].Switched? && log[j] == Accepted(c) :: log[i].generation <= g
  }

  ghost predicate LogBounded(log: seq<Event>, generations: Generation, conns: Conn) {
    && (forall i | 0 <= i < |log| && log[i].Switched? :: log[i].generation < generations)
    && (forall i | 0 <= i < |log| && log[i].Accepted? :: log[i].conn < conns)
  }

  ghost predicate Ordered(h: Hub) {
    && (h.current.Some? ==> h.current.value == h.nextGeneration - 1)
    && LogBounded(h.log, h.nextGeneration, h.nextConn)
    && ((h.loop.Holding? || h.loop.Offering?) ==> h.loop.conn < h.nextConn)
    && (h.loop.Offering? ==> Respects(h.log, h.loop.conn, h.loop.generation))
    && ForwardOnly(h.log)
  }

  lemma ForwardOnlyAppend(log: seq<Event>, e: Event)
    requires ForwardOnly(log) && (e.Delivered? ==> Respects(log, e.conn, e.generation))
    ensures ForwardOnly(log + [e])
  {
    var n := log + [e];
    forall i, j, k | 0 <= i < j < k < |n| && n[i].Switched? && n[j].Accepted? && n[k].Delivered? && n[j].conn == n[k].conn
      ensures n[i].generation <= n[k].generation
    {
      if k == |log| { assert log[i].Switched? && log[j] == Accepted(e.conn); }
    }
  }

  lemma NewestRespects(log: seq<Event>, generations: Generation, conns: Conn, c: Conn)
    requires LogBounded(log, generations, conns) && generations > 0
    ensures Respects(log, c, generations - 1)
  {}

  lemma RespectsAppend(log: seq<Event>, e: Event, c: Conn, g: Generation)
    requires Respects(log, c, g) && !e.Accepted?
    ensures Respects(log + [e], c, g)
  {}

  lemma OrderedKept(h: Hub, a: Action)
    requires Enabled(h, a) && Ordered(h)
    ensures Ordered(Apply(h, a))
  {
    LogGrows(h, a);
    var es := Emitted(h, a);
    if es != [] {
      LoudStepKeepsOrder(h, a);
    } else {
      assert h.log + es == h.log;
      if a.ReadCurrent? { NewestRespects(h.log, h.nextGeneration, h.nextConn, h.loop.conn); }
    }
  }

  lemma LoudStepKeepsOrder(h: Hub, a: Action)
    requires Enabled(h, a) && Ordered(h) && Emitted(h, a) != []
    ensures Ordered(Apply(h, a))
  {
    LogGrows(h, a);
    var e := Emitted(h, a)[0];
    assert Emitted(h, a) == [e];
    ForwardOnlyAppend(h.log, e);
    if h.loop.Offering? && !e.Accepted? { RespectsAppend(h.log, e, h.loop.conn, h.loop.generation); }
  }

  /** A connection accepted after a Switch took effect never reaches an older generation. */
  lemma {:induction false} AcceptedAfterSwitchGoesForward(actions: seq<Action>)
    requires Run(actions).Some?
    ensures Ordered(Run(actions).value) && ForwardOnly(Run(actions).value.log)
  {
    if actions != [] {
      var n := |actions| - 1;
      AcceptedAfterSwitchGoesForward(actions[..n]);
      OrderedKept(Run(actions[..n]).value, actions[n]);
    }
  }

  // --- The accept loop ends after Close ---

  /** Every generation that is no longer current is closed, or some call is about to close it. */
  ghost predicate OldGenerationsClose(h: Hub) {
    && (h.closing.CurrentTaken? && h.closing.generation.Some? ==> h.closing.generation.value < h.nextGeneration)
    && (h.loop.Offering? ==> h.loop.generation < h.nextGeneration)
    && forall g: Generation | g < h.nextGeneration && h.current != Some(g) ::
         g in h.done || g in h.retiring || h.closing == CurrentTaken(Some(g))
  }

  lemma OldGenerationsCloseKept(h: Hub, a: Action)
    requires Enabled(h, a) && OldGenerationsClose(h) && Ordered(h) && !Apply(h, a).panicked
    ensures OldGenerationsClose(Apply(h, a))
  {}

  lemma {:induction false} RunKeepsOldGenerationsClosing(actions: seq<Action>)
    requires Run(actions).Some? && !Run(actions).value.panicked
    ensures OldGenerationsClose(Run(actions).value)
  {
    if actions != [] {
      var n := |actions| - 1;
      RunKeepsOldGenerationsClosing(actions[..n]);
      AcceptedAfterSwitchGoesForward(actions[..n]);
      OldGenerationsCloseKept(Run(actions[..n]).value, actions[n]);
    }
  }

  predicate IsLoopAction(a: Action) {
    a.AcceptConnection? || a.AcceptFails? || a.ReadCurrent? || a.Deliver? || a.Retry?
  }

  /** Steps the accept loop still has to take once the hub is closed. */
  function Remaining(l: Loop): nat {
    match l
    case Offering(_, _) => 3
    case Holding(_) => 2
    case Accepting => 1
    case Returned => 0
  }

  /** The hub is shut down for good: Close is through, every Switch has returned. */
  predicate ShutDown(h: Hub) {
    h.current.None? && h.closing.Closed? && !h.listening && h.retiring == {} && !h.panicked
  }

  /** After shutdown the accept loop never blocks, and each of its steps brings
      it closer to its return, so it returns after at most three. */
  lemma LoopEndsAfterShutdown(actions: seq<Action>)
    requires Run(actions).Some? && ShutDown(Run(actions).value)
    ensures var h := Run(actions).value;
            && (!h.loop.Returned? ==> exists a :: IsLoopAction(a) && Enabled(h, a))
            && (forall a | IsLoopAction(a) && Enabled(h, a) ::
                  Remaining(Apply(h, a).loop) < Remaining(h.loop) && ShutDown(Apply(h, a)))
  {
    var h := Run(actions).value;
    RunKeepsOldGenerationsClosing(actions);
    match h.loop {
      case Offering(c, g) => assert Enabled(h, Retry) && IsLoopAction(Retry);
      case Holding(c) => assert Enabled(h, ReadCurrent) && IsLoopAction(ReadCurrent);
      case Accepting => assert Enabled(h, AcceptFails) && IsLoopAction(AcceptFails);
      case Returned =>
    }
  }

  // --- When a held connection moves on ---

  /** The hub after steps of the accept loop alone, with nobody receiving from a closed generation. */
  function LoopRun(h: Hub, actions: seq<Action>): Option<Hub> {
    if actions == [] then Some(h)
    else
      var before, a := LoopRun(h, actions[..|actions| - 1]), actions[|actions| - 1];
      if before.None? || !IsLoopAction(a) || !Enabled(before.value, a) then None
      else if a.Deliver? && before.value.loop.generation in before.value.done then None
      else Some(Apply(before.value, a))
  }

  /** There is an open generation to hand the connection to, or none to wait for. */
  predicate CanAdvance(h: Hub) {
    h.current.None? || h.current.value !in h.done || (h.loop.Offering? && h.loop.generation !in h.done)
  }

  predicate Holds(h: Hub, c: Conn) {
    h.loop == Holding(c) || (h.loop.Offering? && h.loop.conn == c)
  }

  ghost predicate Advances(h: Hub, c: Conn) {
    exists actions: seq<Action> :: LoopRun(h, actions).Some? && !Holds(LoopRun(h, actions).value, c)
  }

  /** Otherwise the loop keeps the connection and goes round: it is never blocked, and nothing changes. */
  lemma {:induction false} StuckLoopSpins(h: Hub, c: Conn, actions: seq<Action>)
    requires !h.panicked && Holds(h, c) && !CanAdvance(h) && LoopRun(h, actions).Some?
    ensures var r := LoopRun(h, actions).value;
            && Holds(r, c) && r == h.(loop := r.loop) && !CanAdvance(r)
            && (Enabled(r, ReadCurrent) || Enabled(r, Retry))
  {
    if actions != [] { StuckLoopSpins(h, c, actions[..|actions| - 1]); }
  }

  /** A held connection is delivered or dropped by the loop's own steps exactly when the current
      generation is gone or open, or the generation it is being offered to is still open. */
  lemma HeldAdvancesIff(h: Hub, c: Conn)
    requires !h.panicked && Holds(h, c)
    ensures Advances(h, c) <==> CanAdvance(h)
  {
    if CanAdvance(h) {
      var actions := Release(h, c);
    } else {
      forall actions: seq<Action> | LoopRun(h, actions).Some? ensures Holds(LoopRun(h, actions).value, c) {
        StuckLoopSpins(h, c, actions);
      }
    }
  }

  lemma LoopRunStep(h: Hub, actions: seq<Action>, a: Action)
    requires LoopRun(h, actions).Some? && IsLoopAction(a) && Enabled(LoopRun(h, actions).value, a)
    requires a.Deliver? ==> LoopRun(h, actions).value.loop.generation !in LoopRun(h, actions).value.done
    ensures LoopRun(h, actions + [a]) == Some(Apply(LoopRun(h, actions).value, a))
  {
    assert (actions + [a])[..|actions|] == actions;
  }

  lemma Release(h: Hub, c: Conn) returns (actions: seq<Action>)
    requires !h.panicked && Holds(h, c) && CanAdvance(h)
    ensures LoopRun(h, actions).Some? && !Holds(LoopRun(h, actions).value, c)
  {
    actions := [];
    if h.loop.Offering? && h.loop.generation !in h.done {
      LoopRunStep(h, actions, Deliver);
      actions := actions + [Deliver];
      return;
    }
    if h.loop.Offering? {
      LoopRunStep(h, actions, Retry);
      actions := actions + [Retry];
    }
    LoopRunStep(h, actions, ReadCurrent);
    actions := actions + [ReadCurrent];
    if h.current.Some? {
      LoopRunStep(h, actions, Deliver);
      actions := actions + [Deliver];
    }
  }

  /** A connection on offer to an open generation waits for it: the loop can do nothing but deliver it. */
  lemma WaitsForOpenGeneration(h: Hub, a: Action)
    requires h.loop.Offering? && h.loop.generation !in h.done && IsLoopAction(a) && Enabled(h, a)
    ensures a.Deliver? && Apply(h, a).log == h.log + [Delivered(h.loop.conn, h.loop.generation)]
  {}

  /** Only generations that exist are current, retiring or closed. */
  ghost predicate Numbered(h: Hub) {
    && (h.current.Some? ==> h.current.value < h.nextGeneration)
    && (h.closing.CurrentTaken? && h.closing.generation.Some? ==> h.closing.generation.value < h.nextGeneration)
    && forall g | g in h.done || g in h.retiring :: g < h.nextGeneration
  }

  lemma NumberedKept(h: Hub, a: Action)
    requires Enabled(h, a) && Numbered(h)
    ensures Numbered(Apply(h, a))
  {}

  lemma {:induction false} RunIsNumbered(actions: seq<Action>)
    requires Run(actions).Some?
    ensures Numbered(Run(actions).value)
  {
    if actions != [] {
      var n := |actions| - 1;
      RunIsNumbered(actions[..n]);
      NumberedKept(Run(actions[..n]).value, actions[n]);
    }
  }

  /** In every run, a connection that is stuck is freed by a Switch or by the hub's Close, and by nothing else. */
  lemma OnlySwitchOrCloseFrees(actions: seq<Action>, c: Conn, a: Action)
    requires Run(actions).Some? && Holds(Run(actions).value, c) && !CanAdvance(Run(actions).value)
    requires Enabled(Run(actions).value, a) && !(a.Deliver? && Run(actions).value.loop.generation in Run(actions).value.done)
    ensures CanAdvance(Apply(Run(actions).value, a)) <==> a.SwitchCurrent? || a.CloseTakesCurrent?
  {
    RunIsNumbered(actions);
  }

  /** A server that shuts down closes its generation while it is still the current one: until the
      hub itself is closed, the loop spins on a connection accepted before. */
  lemma ShutdownBeforeCloseSpins()
    ensures var h := Run([AcceptConnection, ListenerCloses(0)]);
            h.Some? && Holds(h.value, 0) && !h.value.panicked && !Advances(h.value, 0)
  {
    var actions := [AcceptConnection, ListenerCloses(0)];
    assert actions[..1] == [AcceptConnection] && [AcceptConnection][..0] == [];
    assert Run([AcceptConnection]) == Some(Apply(Init(), AcceptConnection));
    var h := Run(actions).value;
    HeldAdvancesIff(h, 0);
  }

  /** As long as nothing has panicked, the hub has no current generation exactly when Close has
      taken it: no other step takes it away, and no Switch can bring it back. */
  lemma {:induction false} CurrentGoneIffClosed(actions: seq<Action>)
    requires Run(actions).Some? && !Run(actions).value.panicked
    ensures Run(actions).value.current.None? <==> CloseTakesCurrent in actions
    ensures Run(actions).value.closing.NotClosed? <==> CloseTakesCurrent !in actions
  {
    if actions != [] {
      var before, a := actions[..|actions| - 1], actions[|actions| - 1];
      assert actions == before + [a];
      CurrentGoneIffClosed(before);
    }
  }

  predicate SwitchAfterClose(actions: seq<Action>) {
    exists i, j | 0 <= i < j < |actions| :: actions[i] == CloseTakesCurrent && actions[j] == SwitchCurrent
  }

  /** A run ends in a nil dereference exactly when some Switch in it comes after the Close. */
  lemma PanicsIffSwitchAfterClose(actions: seq<Action>)
    requires Run(actions).Some?
    ensures Run(actions).value.panicked <==> SwitchAfterClose(actions)
  {
    if actions != [] {
      var before, a := actions[..|actions| - 1], actions[|actions| - 1];
      PanicsIffSwitchAfterClose(before);
      CurrentGoneIffClosed(before);
      if a == SwitchCurrent && CloseTakesCurrent in before {
        var i :| 0 <= i < |before| && before[i] == CloseTakesCurrent;
        assert actions[i] == CloseTakesCurrent && actions[|before|] == SwitchCurrent;
      }
      assert SwitchAfterClose(actions) ==> SwitchAfterClose(before) || (a == SwitchCurrent && CloseTakesCurrent in before) by {
        if SwitchAfterClose(actions) {
          var i, j :| 0 <= i < j < |actions| && actions[i] == CloseTakesCurrent && actions[j] == SwitchCurrent;
          assert before[i] == CloseTakesCurrent;
          assert j < |before| ==> before[j] == SwitchCurrent;
        }
      }
    }
  }

  // --- The hub keeps serving ---

  lemma LastIn(actions: seq<Action>, a: Action)
    requires actions != []
    ensures var n := |actions| - 1; a in actions <==> a in actions[..n] || a == actions[n]
  {
    assert actions == actions[..|actions| - 1] + [actions[|actions| - 1]];
  }

  /** The accept loop has returned exactly when an Accept has failed, and the socket is open
      exactly until Close closes it. */
  lemma {:induction false} LoopReturnsIffAcceptFails(actions: seq<Action>)
    requires Run(actions).Some?
    ensures Run(actions).value.loop.Returned? <==> AcceptFails in actions
    ensures Run(actions).value.listening <==> CloseClosesListener !in actions
  {
    if actions != [] {
      LoopReturnsIffAcceptFails(actions[..|actions| - 1]);
      LastIn(actions, AcceptFails);
      LastIn(actions, CloseClosesListener);
    }
  }

  /** How often an action occurs in a run. */
  function Times(actions: seq<Action>, a: Action): nat {
    multiset(actions)[a]
  }

  lemma TimesLast(actions: seq<Action>, a: Action)
    requires actions != []
    ensures var n := |actions| - 1; Times(actions, a) == Times(actions[..n], a) + if actions[n] == a then 1 else 0
  {
    assert actions == actions[..|actions| - 1] + [actions[|actions| - 1]];
  }

  /** Every accepted connection has been delivered or closed. */
  ghost predicate AllSettled(h: Hub) {
    forall c: Conn | c < h.nextConn :: Fates(h.log, c) == 1
  }

  lemma HeldConnIsKnown(h: Hub)
    requires Ordered(h) && OneFate(h)
    ensures AllSettled(h) <==> h.loop.Accepting? || h.loop.Returned?
  {
    if h.loop.Holding? || h.loop.Offering? {
      var c := h.loop.conn;
      assert Fates(h.log, c) + HeldBy(h.loop, c) == 1;
    } else {
      forall c: Conn | c < h.nextConn ensures Fates(h.log, c) == 1 { assert HeldBy(h.loop, c) == 0; }
    }
  }

  /** In every run the hub can accept the next connection exactly when the earlier ones are all
      delivered or closed, the socket is open, no Accept has failed and nothing has panicked; and
      it has accepted as many connections as there were such steps. */
  lemma {:induction false} AcceptsAgainIff(actions: seq<Action>)
    requires Run(actions).Some?
    ensures var h := Run(actions).value;
            && (Enabled(h, AcceptConnection) <==>
                AllSettled(h) && CloseClosesListener !in actions && AcceptFails !in actions && !SwitchAfterClose(actions))
            && h.nextConn == Times(actions, AcceptConnection)
  {
    var h := Run(actions).value;
    EveryConnectionHasOneFate(actions);
    AcceptedAfterSwitchGoesForward(actions);
    HeldConnIsKnown(h);
    LoopReturnsIffAcceptFails(actions);
    PanicsIffSwitchAfterClose(actions);
    ConnectionsAreCounted(actions);
  }

  lemma {:induction false} ConnectionsAreCounted(actions: seq<Action>)
    requires Run(actions).Some?
    ensures Run(actions).value.nextConn == Times(actions, AcceptConnection)
    ensures Run(actions).value.nextGeneration == 1 + Times(actions, SwitchCurrent)
  {
    if actions != [] {
      ConnectionsAreCounted(actions[..|actions| - 1]);
      TimesLast(actions, AcceptConnection);
      TimesLast(actions, SwitchCurrent);
    }
  }

  // --- What is delivered, what is dropped, what is closed ---

  /** The generation is the first one, or a Switch has made it current. */
  predicate Known(log: seq<Event>, g: Generation) {
    g == 0 || Switched(g) in log
  }

  /** Every delivery at its time went to a generation that existed, of a connection that had been accepted. */
  ghost predicate DeliveriesKnown(log: seq<Event>) {
    forall k | 0 <= k < |log| && log[k].Delivered? :: Known(log[..k], log[k].generation) && Accepted(log[k].conn) in log[..k]
  }

  ghost predicate Knows(h: Hub) {
    && (forall g: Generation | g < h.nextGeneration :: Known(h.log, g))
    && (forall c: Conn | c < h.nextConn :: Accepted(c) in h.log)
    && DeliveriesKnown(h.log)
  }

  lemma DeliveriesKnownAppend(log: seq<Event>, e: Event)
    requires DeliveriesKnown(log)
    requires e.Delivered? ==> Known(log, e.generation) && Accepted(e.conn) in log
    ensures DeliveriesKnown(log + [e])
  {
    var more := log + [e];
    forall k | 0 <= k < |more| && more[k].Delivered?
      ensures Known(more[..k], more[k].generation) && Accepted(more[k].conn) in more[..k]
    {
      if k < |log| { assert more[..k] == log[..k]; } else { assert more[..k] == log; }
    }
  }

  lemma KnowsKept(h: Hub, a: Action)
    requires Enabled(h, a) && Knows(h) && Ordered(h) && (h.loop.Offering? ==> h.loop.generation < h.nextGeneration)
    ensures Knows(Apply(h, a))
    ensures Apply(h, a).loop.Offering? ==> Apply(h, a).loop.generation < Apply(h, a).nextGeneration
  {
    LogGrows(h, a);
    var es := Emitted(h, a);
    if es != [] {
      assert es == [es[0]];
      DeliveriesKnownAppend(h.log, es[0]);
      var n := Apply(h, a);
      assert es[0] in n.log by { assert n.log[|h.log|] == es[0]; }
      forall g: Generation | g < n.nextGeneration ensures Known(n.log, g) {
        if g < h.nextGeneration { assert Known(h.log, g); }
      }
    } else {
      assert h.log + es == h.log;
    }
  }

  /** A connection is delivered only after it was accepted, and only to the first generation or to
      one that an earlier Switch has made current. */
  lemma {:induction false} DeliveredToKnownGeneration(actions: seq<Action>)
    requires Run(actions).Some?
    ensures var h := Run(actions).value; Knows(h) && (h.loop.Offering? ==> h.loop.generation < h.nextGeneration)
  {
    if actions != [] {
      var n := |actions| - 1;
      DeliveredToKnownGeneration(actions[..n]);
      AcceptedAfterSwitchGoesForward(actions[..n]);
      KnowsKept(Run(actions[..n]).value, actions[n]);
    }
  }

  /** No connection is closed unserved before the hub itself is closed. */
  lemma {:induction false} DroppedOnlyAfterClose(actions: seq<Action>, c: Conn)
    requires Run(actions).Some? && Dropped(c) in Run(actions).value.log
    ensures CloseTakesCurrent in actions
  {
    var before, a := actions[..|actions| - 1], actions[|actions| - 1];
    var h := Run(before).value;
    LogGrows(h, a);
    LastIn(actions, CloseTakesCurrent);
    if Dropped(c) in h.log {
      DroppedOnlyAfterClose(before, c);
    } else {
      assert Dropped(c) in Emitted(h, a);
      CurrentGoneIffClosed(before);
    }
  }

  /** The current generation is not about to be closed by anyone. */
  ghost predicate CurrentIsOpen(h: Hub, actions: seq<Action>) {
    h.current.Some? ==>
      && h.current.value !in h.retiring
      && (h.current.value in h.done ==> ListenerCloses(h.current.value) in actions)
  }

  /** In every run without a panic, the current generation is closed only if its own server closed its listener. */
  lemma {:induction false} CurrentClosedOnlyByItsServer(actions: seq<Action>)
    requires Run(actions).Some? && !Run(actions).value.panicked
    ensures CurrentIsOpen(Run(actions).value, actions)
  {
    if actions != [] {
      var before, a := actions[..|actions| - 1], actions[|actions| - 1];
      CurrentClosedOnlyByItsServer(before);
      RunIsNumbered(before);
      AcceptedAfterSwitchGoesForward(before);
      CurrentGoneIffClosed(before);
      var h := Run(before).value;
      if h.current.Some? { LastIn(actions, ListenerCloses(h.current.value)); }
    }
  }

  // --- The server's own use of the hub ---

  /** The config watcher's goroutine, the only caller of Switch. */
  datatype Watcher = Polling | InSwitch(previous: Generation) | Stopped

  /** The main goroutine: it asks the watcher to stop, waits for it, then closes the hub. */
  datatype MainRoutine = Serving | StopRequested | WatcherStopped

  datatype Server = Server(hub: Hub, watcher: Watcher, main: MainRoutine)

  /** `Other` is a step of the accept loop, or a server closing its own listener. */
  datatype ServerAction =
    | WatcherSwitches
    | WatcherFinishesSwitch
    | WatcherStops
    | MainRequestsStop
    | MainSeesWatcherStopped
    | MainCloses(a: Action)
    | Other(a: Action)

  predicate IsCloseAction(a: Action) {
    a.CloseTakesCurrent? || a.CloseClosesGeneration? || a.CloseClosesListener?
  }

  predicate ServerEnabled(s: Server, a: ServerAction) {
    match a
    case WatcherSwitches => s.watcher.Polling? && Enabled(s.hub, SwitchCurrent)
    case WatcherFinishesSwitch => s.watcher.InSwitch? && Enabled(s.hub, SwitchCloses(s.watcher.previous))
    case WatcherStops => s.watcher.Polling? && !s.main.Serving?
    case MainRequestsStop => s.main.Serving?
    case MainSeesWatcherStopped => s.main.StopRequested? && s.watcher.Stopped?
    case MainCloses(b) => s.main.WatcherStopped? && IsCloseAction(b) && Enabled(s.hub, b)
    case Other(b) => (IsLoopAction(b) || b.ListenerCloses?) && Enabled(s.hub, b)
  }

  function ServerApply(s: Server, a: ServerAction): Server
    requires ServerEnabled(s, a)
  {
    match a
    case WatcherSwitches =>
      s.(hub := Apply(s.hub, SwitchCurrent), watcher := InSwitch(if s.hub.current.Some? then s.hub.current.value else 0))
    case WatcherFinishesSwitch => s.(hub := Apply(s.hub, SwitchCloses(s.watcher.previous)), watcher := Polling)
    case WatcherStops => s.(watcher := Stopped)
    case MainRequestsStop => s.(main := StopRequested)
    case MainSeesWatcherStopped => s.(main := WatcherStopped)
    case MainCloses(b) => s.(hub := Apply(s.hub, b))
    case Other(b) => s.(hub := Apply(s.hub, b))
  }

  function ServerRun(actions: seq<ServerAction>): Option<Server> {
    if actions == [] then Some(Server(Init(), Polling, Serving))
    else
      var before := ServerRun(actions[..|actions| - 1]);
      var a := actions[|actions| - 1];
      if before.Some? && ServerEnabled(before.value, a) then Some(ServerApply(before.value, a)) else None
  }

  ghost predicate ShutdownOrder(s: Server) {
    && !s.hub.panicked
    && (s.hub.current.None? ==> s.main.WatcherStopped?)
    && (s.main.WatcherStopped? ==> s.watcher.Stopped?)
    && (s.hub.closing.NotClosed? <==> s.hub.current.Some?)
    && (s.hub.listening <==> !s.hub.closing.Closed?)
    && s.hub.retiring == (if s.watcher.InSwitch? then {s.watcher.previous} else {})
  }

  lemma ShutdownOrderKept(s: Server, a: ServerAction)
    requires ServerEnabled(s, a) && ShutdownOrder(s)
    ensures ShutdownOrder(ServerApply(s, a))
  {}

  /** A step of the server is a step of the hub, or leaves it alone. */
  lemma ServerStepIsHubStep(s: Server, a: ServerAction)
    requires ServerEnabled(s, a) && ShutdownOrder(s)
    ensures var b := HubAction(s, a);
            if b.Some? then Enabled(s.hub, b.value) && ServerApply(s, a).hub == Apply(s.hub, b.value) else ServerApply(s, a).hub == s.hub
  {}

  /** The server's shutdown order keeps every Switch before Close, so the hub
      never panics, and its run is one of the hub's runs: all results above apply to it. */
  lemma {:induction false} ShutdownOrderPreventsPanic(actions: seq<ServerAction>) returns (hubActions: seq<Action>)
    requires ServerRun(actions).Some?
    ensures ShutdownOrder(ServerRun(actions).value)
    ensures Run(hubActions) == Some(ServerRun(actions).value.hub)
  {
    hubActions := [];
    if actions != [] {
      var n := |actions| - 1;
      hubActions := ShutdownOrderPreventsPanic(actions[..n]);
      var s := ServerRun(actions[..n]).value;
      ShutdownOrderKept(s, actions[n]);
      ServerStepIsHubStep(s, actions[n]);
      var b := HubAction(s, actions[n]);
      if b.Some? {
        assert (hubActions + [b.value])[..|hubActions|] == hubActions;
        hubActions := hubActions + [b.value];
      }
    }
  }

  function HubAction(s: Server, a: ServerAction): Option<Action> {
    match a
    case WatcherSwitches => Some(SwitchCurrent)
    case WatcherFinishesSwitch => if s.watcher.InSwitch? then Some(SwitchCloses(s.watcher.previous)) else None
    case MainCloses(b) => Some(b)
    case Other(b) => Some(b)
    case _ => None
  }

  /** How far the server is from a closed hub. */
  function Distance(s: Server): nat {
    (match s.main case Serving => 4 case StopRequested => 2 case WatcherStopped => 0) +
    (match s.watcher case InSwitch(_) => 2 case Polling => 1 case Stopped => 0) +
    (match s.hub.closing case NotClosed => 3 case CurrentTaken(_) => 2 case GenerationClosed => 1 case Closed => 0)
  }

  /** The next step towards it, once main has begun to shut down. */
  function TowardsClose(s: Server): ServerAction {
    if s.main.Serving? then MainRequestsStop
    else if s.watcher.InSwitch? then WatcherFinishesSwitch
    else if s.watcher.Polling? then WatcherStops
    else if s.main.StopRequested? then MainSeesWatcherStopped
    else MainCloses(if s.hub.closing.NotClosed? then CloseTakesCurrent
                    else if s.hub.closing.CurrentTaken? then CloseClosesGeneration else CloseClosesListener)
  }

  /** The shutdown cannot get stuck: in every run, until the hub is closed some step of main or of
      the watcher is enabled and brings the server closer to that. */
  lemma ShutdownCanProceed(actions: seq<ServerAction>)
    requires ServerRun(actions).Some? && !ServerRun(actions).value.hub.closing.Closed?
    ensures var s := ServerRun(actions).value;
            && ServerEnabled(s, TowardsClose(s)) && Distance(ServerApply(s, TowardsClose(s))) < Distance(s)
            && ServerRun(actions + [TowardsClose(s)]) == Some(ServerApply(s, TowardsClose(s)))
  {
    var hubActions := ShutdownOrderPreventsPanic(actions);
    var s := ServerRun(actions).value;
    assert (actions + [TowardsClose(s)])[..|actions|] == actions;
  }

  /** Once main has closed the hub, the shutdown is complete in the sense above. */
  lemma ClosedServerIsShutDown(actions: seq<ServerAction>)
    requires ServerRun(actions).Some? && ServerRun(actions).value.hub.closing.Closed?
    ensures ShutDown(ServerRun(actions).value.hub)
  {
    var hubActions := ShutdownOrderPreventsPanic(actions);
  }
}
