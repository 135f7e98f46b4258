/** The WebSocket client's connection life: connect, authenticate, back off, reconnect, disconnect. */
module Reconnect {
  import opened Basics

  const BASE_DELAY_MS := 1000
  const MAX_DELAY_MS := 30000

  // ----- the backoff

  function BaseDelay(attempt: nat): nat {
    if BASE_DELAY_MS * Pow2(attempt) < MAX_DELAY_MS then BASE_DELAY_MS * Pow2(attempt) else MAX_DELAY_MS
  }

  /** The nearest integer, halves upwards. */
  function Round(x: real): int {
    (x + 0.5).Floor
  }

  /** The delay for an attempt, with `random` the value of `Math.random()`. */
  function Delay(attempt: nat, random: real): int {
    var base := BaseDelay(attempt) as real;
    var jittered := base + base * 0.2 * (random * 2.0 - 1.0);
    Round(if jittered < MAX_DELAY_MS as real then jittered else MAX_DELAY_MS as real)
  }

  lemma {:induction false} Pow2Grows(m: nat, n: nat)
    requires m <= n
    ensures 1 <= Pow2(m) <= Pow2(n)
    decreases n
  {
    if m < n {
      Pow2Grows(m, n - 1);
    } else if n > 0 {
      Pow2Grows(n - 1, n - 1);
    }
  }

  lemma BaseDelayInTens(n: nat)
    ensures BaseDelay(n) % 10 == 0
  {
    assert (BASE_DELAY_MS * Pow2(n)) % 10 == 0 by {
      assert BASE_DELAY_MS * Pow2(n) == 10 * (100 * Pow2(n));
    }
  }

  /** The base never decreases, and it has reached the cap from attempt five on, not before. */
  lemma BaseDelayGrows(attempt: nat)
    ensures BASE_DELAY_MS <= BaseDelay(attempt) <= BaseDelay(attempt + 1)
    ensures attempt >= 5 ==> BaseDelay(attempt) == MAX_DELAY_MS
    ensures attempt < 5 ==> BaseDelay(attempt) == BASE_DELAY_MS * Pow2(attempt) < MAX_DELAY_MS
  {
    Pow2Grows(attempt, attempt + 1);
    assert Pow2(5) == 32 && Pow2(4) == 16;
    if attempt >= 5 {
      Pow2Grows(5, attempt);
    } else {
      Pow2Grows(attempt, 4);
    }
  }

  lemma JitterBounds(base: real, random: real)
    requires base >= 0.0 && 0.0 <= random < 1.0
    ensures 0.8 * base <= base + base * 0.2 * (random * 2.0 - 1.0) <= 1.2 * base
  {
    Scaled(base * 0.2, random * 2.0 - 1.0);
  }

  /** For every attempt and every random draw: a fifth either side of the base, and never above the cap. */
  lemma DelayBounds(attempt: nat, random: real)
    requires 0.0 <= random < 1.0
    ensures 4 * BaseDelay(attempt) <= 5 * Delay(attempt, random) <= 6 * BaseDelay(attempt)
    ensures 0 < Delay(attempt, random) <= MAX_DELAY_MS
  {
    BaseDelayGrows(attempt);
    BaseDelayInTens(attempt);
    var base := BaseDelay(attempt);
    JitterBounds(base as real, random);
    var fifth := base / 5;
    assert base == 5 * fifth && 0.8 * base as real == (4 * fifth) as real && 1.2 * base as real == (6 * fifth) as real;
    var jittered := base as real + base as real * 0.2 * (random * 2.0 - 1.0);
  }

  lemma Fifths(n: nat)
    requires n % 10 == 0
    ensures n == 5 * (n / 5)
  {
  }

  /** The jitter: the lowest draw takes a fifth off, the middle one nothing, and a higher draw never waits less. */
  lemma DelaySpreads(attempt: nat, low: real, high: real)
    requires 0.0 <= low <= high < 1.0
    ensures 5 * Delay(attempt, 0.0) == 4 * BaseDelay(attempt)
    ensures Delay(attempt, 0.5) == BaseDelay(attempt)
    ensures Delay(attempt, low) <= Delay(attempt, high)
  {
    BaseDelayGrows(attempt);
    BaseDelayInTens(attempt);
    Fifths(BaseDelay(attempt));
    var base, fifth := BaseDelay(attempt) as real, BaseDelay(attempt) / 5;
    assert base == 5.0 * fifth as real;
    assert base + base * 0.2 * (0.0 * 2.0 - 1.0) == (4 * fifth) as real;
    assert base * 0.2 * (0.5 * 2.0 - 1.0) == 0.0;
    Scales(base * 0.2, low * 2.0 - 1.0, high * 2.0 - 1.0);
  }

  lemma Scales(k: real, a: real, b: real)
    requires k >= 0.0 && a <= b
    ensures k * a <= k * b
  {
    assert k * (b - a) >= 0.0;
  }

  lemma Scaled(k: real, t: real)
    requires k >= 0.0 && -1.0 <= t <= 1.0
    ensures -k <= k * t <= k
  {
    assert k * (t + 1.0) >= 0.0 && k * (1.0 - t) >= 0.0;
  }

  // ----- the client and the browser around it

  datatype SocketPhase = Connecting | Open | Closed

  /** A socket the browser made; `detached` once its close handler was removed, `acked` once it has authenticated. */
  datatype Socket = Socket(phase: SocketPhase, detached: bool, acked: bool)

  /** The client's fields, then the browser's sockets and pending timers with their delays, then the reconnect
      callbacks invoked so far. */
  datatype World = World(ws: Option<nat>, reconnectTimer: Option<nat>, reconnectAttempt: nat, hasConnectedBefore: bool,
                         callbacks: set<nat>,
                         sockets: map<nat, Socket>, pending: map<nat, int>, next: nat,
                         calls: multiset<nat>)
  {
    function Connected(): World {
      World(Some(next), reconnectTimer, reconnectAttempt, hasConnectedBefore, callbacks,
            sockets[next := Socket(Connecting, false, false)], pending, next + 1, calls)
    }

    function Authenticated(): World {
      World(ws, reconnectTimer, 0, true, callbacks, sockets, pending, next,
            if hasConnectedBefore then calls + multiset(callbacks) else calls)
    }

    function Scheduled(random: real): World {
      World(ws, Some(next), reconnectAttempt + 1, hasConnectedBefore, callbacks, sockets,
            pending[next := Delay(reconnectAttempt, random)], next + 1, calls)
    }

    function Disconnected(): World {
      World(None, None, 0, false, {},
            if ws.Some? && ws.value in sockets
            then sockets[ws.value := sockets[ws.value].(phase := Closed, detached := true)] else sockets,
            if reconnectTimer.Some? then pending - {reconnectTimer.value} else pending,
            next, calls)
    }

    function WithSocket(s: nat, v: Socket): World {
      this.(sockets := sockets[s := v])
    }
  }

  datatype Event =
    | Connect
    | SocketOpens(s: nat, firstMessageAuth: bool)
    | AuthAck(s: nat)
    | SocketCloses(s: nat, random: real)
    | TimerFires(t: nat)
    | Disconnect
    | Subscribe(callback: nat)
    | Unsubscribe(callback: nat)

  predicate LiveSocket(w: World, s: nat) {
    s in w.sockets && w.sockets[s].phase != Closed
  }

  ghost predicate NothingPending(w: World) {
    (forall s :: !LiveSocket(w, s)) && w.pending == map[]
  }

  /** What the browser can deliver. An outside `connect` is modelled separately. */
  ghost predicate Enabled(w: World, e: Event) {
    match e
    case Connect => NothingPending(w)
    case SocketOpens(s, _) => s in w.sockets && w.sockets[s].phase == Connecting
    case AuthAck(s) => s in w.sockets && w.sockets[s].phase == Open && !w.sockets[s].acked
    case SocketCloses(s, random) => LiveSocket(w, s) && 0.0 <= random < 1.0
    case TimerFires(t) => t in w.pending
    case _ => true
  }

  ghost function Next(w: World, e: Event): World
    requires Enabled(w, e)
  {
    match e
    case Connect => w.Connected()
    case SocketOpens(s, firstMessageAuth) =>
      if firstMessageAuth then w.WithSocket(s, w.sockets[s].(phase := Open))
      else w.WithSocket(s, w.sockets[s].(phase := Open, acked := true)).Authenticated()
    case AuthAck(s) => w.WithSocket(s, w.sockets[s].(acked := true)).Authenticated()
    case SocketCloses(s, random) =>
      var closed := w.WithSocket(s, w.sockets[s].(phase := Closed));
      if w.sockets[s].detached then closed else closed.Scheduled(random)
    case TimerFires(t) => w.(pending := w.pending - {t}).Connected()
    case Disconnect => w.Disconnected()
    case Subscribe(c) => w.(callbacks := w.callbacks + {c})
    case Unsubscribe(c) => w.(callbacks := w.callbacks - {c})
  }

  class Client {
    var ws: Option<nat>
    var reconnectTimer: Option<nat>
    var reconnectAttempt: nat
    var hasConnectedBefore: bool
    var callbacks: set<nat>
    var sockets: map<nat, Socket>
    var pending: map<nat, int>
    var next: nat
    var calls: multiset<nat>

    ghost function State(): World
      reads this
    {
      World(ws, reconnectTimer, reconnectAttempt, hasConnectedBefore, callbacks, sockets, pending, next,
            calls)
    }

    constructor ()
      ensures State() == World(None, None, 0, false, {}, map[], map[], 0, multiset{})
    {
      ws, reconnectTimer, reconnectAttempt, hasConnectedBefore := None, None, 0, false;
      callbacks, sockets, pending, next := {}, map[], map[], 0;
      calls := multiset{};
    }

    method Connect()
      modifies this
      ensures State() == old(State()).Connected()
    {
      ws := Some(next);
      sockets := sockets[next := Socket(Connecting, false, false)];
      next := next + 1;
    }

    method ScheduleReconnect(random: real)
      modifies this
      ensures State() == old(State()).Scheduled(random)
    {
      var delay := Delay(reconnectAttempt, random);
      reconnectAttempt := reconnectAttempt + 1;
      reconnectTimer := Some(next);
      pending := pending[next := delay];
      next := next + 1;
    }

    /** Every callback once, in some order; one that throws does not stop the others. */
    static method RunCallbacks(callbacks: set<nat>) returns (invoked: multiset<nat>)
      ensures invoked == multiset(callbacks)
    {
      invoked := multiset{};
      var rest := callbacks;
      while rest != {}
        invariant rest <= callbacks
        invariant invoked == multiset(callbacks - rest)
      {
        var cb :| cb in rest;
        assert callbacks - (rest - {cb}) == (callbacks - rest) + {cb};
        invoked := invoked + multiset{cb};
        rest := rest - {cb};
      }
      assert callbacks - rest == callbacks;
    }

    method OnAuthenticated()
      modifies this
      ensures State() == old(State()).Authenticated()
    {
      reconnectAttempt := 0;
      if hasConnectedBefore {
        var invoked := RunCallbacks(callbacks);
        calls := calls + invoked;
      }
      hasConnectedBefore := true;
    }

    method Disconnect()
      modifies this
      ensures State() == old(State()).Disconnected()
    {
      if reconnectTimer.Some? {
        pending := pending - {reconnectTimer.value};
        reconnectTimer := None;
      }
      if ws.Some? {
        if ws.value in sockets {
          sockets := sockets[ws.value := sockets[ws.value].(phase := Closed, detached := true)];
        }
        ws := None;
      }
      hasConnectedBefore := false;
      reconnectAttempt := 0;
      callbacks := {};
    }

    method OnOpen(s: nat, firstMessageAuth: bool)
      requires Enabled(State(), SocketOpens(s, firstMessageAuth))
      modifies this
      ensures State() == Next(old(State()), SocketOpens(s, firstMessageAuth))
    {
      if firstMessageAuth {
        sockets := sockets[s := sockets[s].(phase := Open)];
        return;
      }
      sockets := sockets[s := sockets[s].(phase := Open, acked := true)];
      OnAuthenticated();
    }

    method OnAuthAck(s: nat)
      requires Enabled(State(), AuthAck(s))
      modifies this
      ensures State() == Next(old(State()), AuthAck(s))
    {
      sockets := sockets[s := sockets[s].(acked := true)];
      OnAuthenticated();
    }

    method OnClose(s: nat, random: real)
      requires Enabled(State(), SocketCloses(s, random))
      modifies this
      ensures State() == Next(old(State()), SocketCloses(s, random))
    {
      var detached := sockets[s].detached;
      sockets := sockets[s := sockets[s].(phase := Closed)];
      if !detached {
        ScheduleReconnect(random);
      }
    }

    method OnTimer(t: nat)
      requires Enabled(State(), TimerFires(t))
      modifies this
      ensures State() == Next(old(State()), TimerFires(t))
    {
      pending := pending - {t};
      Connect();
    }
  }

  // ----- invariant

  /** At most one socket or pending timer, and the client holds its handle. */
  ghost predicate AtMostOne(w: World) {
    && (forall s :: LiveSocket(w, s) ==> w.ws == Some(s) && w.pending == map[] && !w.sockets[s].detached)
    && (forall t :: t in w.pending ==> w.reconnectTimer == Some(t))
  }

  ghost predicate Inv(w: World) {
    && AtMostOne(w)
    && forall s :: s in w.sockets ==> s < w.next
  }

  lemma NextKeepsInv(w: World, e: Event)
    requires Inv(w) && Enabled(w, e)
    ensures Inv(Next(w, e))
  {
    var v := Next(w, e);
    if e.SocketOpens? || e.AuthAck? || e.SocketCloses? {
      assert LiveSocket(w, e.s);
      assert forall s :: LiveSocket(v, s) ==> LiveSocket(w, s);
    } else if e.TimerFires? {
      assert forall s :: LiveSocket(v, s) ==> s == w.next || LiveSocket(w, s);
      assert v.pending == map[];
    } else if e.Connect? {
      assert forall s :: LiveSocket(v, s) ==> s == w.next || LiveSocket(w, s);
    } else {
      assert forall s :: LiveSocket(v, s) ==> LiveSocket(w, s);
    }
  }

  ghost predicate EnabledRun(w: World, events: seq<Event>)
    decreases |events|
  {
    events == [] || (Enabled(w, events[0]) && EnabledRun(Next(w, events[0]), events[1..]))
  }

  ghost function Run(w: World, events: seq<Event>): World
    requires EnabledRun(w, events)
    decreases |events|
  {
    if events == [] then w else Run(Next(w, events[0]), events[1..])
  }

  /** Over every run: at most one socket or pending timer. */
  lemma {:induction false} RunKeepsInv(w: World, events: seq<Event>)
    requires Inv(w) && EnabledRun(w, events)
    ensures Inv(Run(w, events))
    decreases |events|
  {
    if events != [] {
      NextKeepsInv(w, events[0]);
      RunKeepsInv(Next(w, events[0]), events[1..]);
    }
  }

  const FRESH: World := World(None, None, 0, false, {}, map[], map[], 0, multiset{})

  lemma FreshClient()
    ensures Inv(FRESH) && NothingPending(FRESH)
  {
  }

  lemma DisconnectLeavesNothing(w: World)
    requires Inv(w)
    ensures var v := Next(w, Disconnect);
            NothingPending(v) && v.ws == None && v.reconnectTimer == None && !v.hasConnectedBefore && v.callbacks == {}
  {
    var v := Next(w, Disconnect);
    assert forall s :: LiveSocket(v, s) ==> LiveSocket(w, s);
    assert v.pending == map[];
  }

  lemma NextStaysQuiet(w: World, e: Event)
    requires NothingPending(w) && Enabled(w, e) && !e.Connect?
    ensures NothingPending(Next(w, e))
  {
    assert forall s :: LiveSocket(Next(w, e), s) ==> LiveSocket(w, s);
  }

  lemma {:induction false} RunStaysQuiet(w: World, events: seq<Event>)
    requires NothingPending(w) && EnabledRun(w, events) && forall e :: e in events ==> !e.Connect?
    ensures NothingPending(Run(w, events)) && Run(w, events).calls == w.calls
    decreases |events|
  {
    if events != [] {
      assert events[0] in events;
      NextStaysQuiet(w, events[0]);
      var about := events[0].SocketOpens? || events[0].AuthAck? || events[0].SocketCloses?;
      assert !LiveSocket(w, if about then events[0].s else 0);
      RunStaysQuiet(Next(w, events[0]), events[1..]);
    }
  }

  /** After a disconnect nothing is live or pending, and no callback runs, over every run until someone connects. */
  lemma QuietAfterDisconnect(w: World, events: seq<Event>)
    requires Inv(w) && EnabledRun(Next(w, Disconnect), events) && forall e :: e in events ==> !e.Connect?
    ensures var v := Run(Next(w, Disconnect), events); NothingPending(v) && v.calls == w.calls
  {
    DisconnectLeavesNothing(w);
    RunStaysQuiet(Next(w, Disconnect), events);
  }

  predicate Authenticates(e: Event) {
    e.AuthAck? || (e.SocketOpens? && !e.firstMessageAuth)
  }

  /** How often a callback is owed an invocation, read off the events alone: once on every authentication after the
      first since the last disconnect, while it is subscribed. */
  function Owed(events: seq<Event>, callback: nat, auths: nat, subscribed: bool): nat {
    if events == [] then 0
    else if Authenticates(events[0]) then
      (if auths > 0 && subscribed then 1 else 0) + Owed(events[1..], callback, auths + 1, subscribed)
    else if events[0].Disconnect? then Owed(events[1..], callback, 0, false)
    else if events[0] == Subscribe(callback) then Owed(events[1..], callback, auths, true)
    else if events[0] == Unsubscribe(callback) then Owed(events[1..], callback, auths, false)
    else Owed(events[1..], callback, auths, subscribed)
  }

  /** Over every run, the callbacks fire exactly as owed; no invariant is needed for it. */
  lemma {:induction false} CallbacksFireExactly(w: World, events: seq<Event>, callback: nat, auths: nat)
    requires EnabledRun(w, events) && (w.hasConnectedBefore <==> auths > 0)
    ensures Run(w, events).calls[callback]
         == w.calls[callback] + Owed(events, callback, auths, callback in w.callbacks)
    decreases |events|
  {
    if events != [] {
      var e := events[0];
      CallbacksFireExactly(Next(w, e), events[1..], callback,
                           if Authenticates(e) then auths + 1 else if e.Disconnect? then 0 else auths);
    }
  }

  /** An outside connect keeps the bound exactly when nothing is live or pending. */
  lemma ConnectIsSafeExactly(w: World)
    requires Inv(w)
    ensures AtMostOne(w.Connected()) <==> NothingPending(w)
  {
    var v := w.Connected();
    assert LiveSocket(v, w.next);
    if !NothingPending(w) && w.pending == map[] {
      var s :| LiveSocket(w, s);
      assert LiveSocket(v, s);
    }
    if NothingPending(w) {
      assert forall s :: LiveSocket(v, s) ==> s == w.next || LiveSocket(w, s);
    }
  }

  // ----- it does reconnect

  /** Whether somebody has connected and not disconnected since, read off the events. */
  function Wanted(events: seq<Event>): bool {
    if events == [] then false
    else
      var e := events[|events| - 1];
      e.Connect? || (!e.Disconnect? && Wanted(events[..|events| - 1]))
  }

  /** The closes since the last authentication or disconnect. */
  function Failures(events: seq<Event>): nat {
    if events == [] then 0
    else
      var e := events[|events| - 1];
      if Authenticates(e) || e.Disconnect? then 0
      else Failures(events[..|events| - 1]) + if e.SocketCloses? then 1 else 0
  }

  function LiveSockets(w: World): set<nat> {
    set s | s in w.sockets && w.sockets[s].phase != Closed
  }

  /** One socket is live, or one timer is pending, but not both. */
  ghost predicate OneTry(w: World) {
    |LiveSockets(w)| + |w.pending| == 1
  }

  lemma OneSocket(w: World, s: nat)
    requires AtMostOne(w) && LiveSocket(w, s)
    ensures OneTry(w)
  {
    forall x | x in LiveSockets(w) ensures x == s {
      assert LiveSocket(w, x);
    }
    assert LiveSockets(w) == {s};
  }

  lemma OneTimer(w: World, t: nat)
    requires AtMostOne(w) && t in w.pending
    ensures OneTry(w)
  {
    forall x | x in LiveSockets(w) ensures false {
      assert LiveSocket(w, x);
    }
    assert LiveSockets(w) == {};
    assert forall x :: x in w.pending ==> x == t;
    assert w.pending.Keys == {t};
  }

  /** A client that is trying has a socket or a timer to show. */
  lemma TryingHas(w: World)
    requires OneTry(w)
    ensures w.pending == map[] ==> exists s :: LiveSocket(w, s)
  {
    if w.pending == map[] {
      assert LiveSockets(w) != {};
      var s :| s in LiveSockets(w);
      assert LiveSocket(w, s);
    }
  }

  lemma ConnectTries(w: World)
    requires Inv(w) && Enabled(w, Connect)
    ensures OneTry(Next(w, Connect))
  {
    NextKeepsInv(w, Connect);
    assert LiveSocket(Next(w, Connect), w.next);
    OneSocket(Next(w, Connect), w.next);
  }

  /** A close is answered by a timer, a timer by a socket. */
  lemma SocketKeepsTrying(w: World, e: Event)
    requires Inv(w) && Enabled(w, e) && (e.SocketOpens? || e.AuthAck? || e.SocketCloses?)
    ensures OneTry(Next(w, e))
  {
    NextKeepsInv(w, e);
    assert LiveSocket(w, e.s);
    if e.SocketCloses? {
      assert w.next in Next(w, e).pending;
      OneTimer(Next(w, e), w.next);
    } else {
      assert LiveSocket(Next(w, e), e.s);
      OneSocket(Next(w, e), e.s);
    }
  }

  lemma TimerKeepsTrying(w: World, t: nat)
    requires Inv(w) && Enabled(w, TimerFires(t))
    ensures OneTry(Next(w, TimerFires(t)))
  {
    NextKeepsInv(w, TimerFires(t));
    assert LiveSocket(Next(w, TimerFires(t)), w.next);
    OneSocket(Next(w, TimerFires(t)), w.next);
  }

  lemma NextKeepsTrying(w: World, e: Event)
    requires Inv(w) && OneTry(w) && Enabled(w, e) && !e.Disconnect?
    ensures OneTry(Next(w, e))
  {
    if e.Connect? {
      ConnectTries(w);
    } else if e.TimerFires? {
      TimerKeepsTrying(w, e.t);
    } else if e.Subscribe? || e.Unsubscribe? {
      assert LiveSockets(Next(w, e)) == LiveSockets(w);
    } else {
      SocketKeepsTrying(w, e);
    }
  }

  lemma EnabledPrefix(w: World, events: seq<Event>, e: Event)
    requires EnabledRun(w, events + [e])
    ensures EnabledRun(w, events) && Enabled(Run(w, events), e)
    ensures Run(w, events + [e]) == Next(Run(w, events), e)
    decreases |events|
  {
    var all := events + [e];
    if events == [] {
      assert all == [e] && [e][1..] == [];
    } else {
      assert all[0] == events[0] && all[1..] == events[1..] + [e];
      EnabledPrefix(Next(w, events[0]), events[1..], e);
    }
  }

  /** Over every run of a fresh client: after a connect with no later disconnect there is exactly one live socket or
      pending timer, so it is connected or about to try again; otherwise there is none. */
  lemma {:induction false} TriesExactlyWhileWanted(events: seq<Event>)
    requires EnabledRun(FRESH, events)
    ensures Wanted(events) ==> OneTry(Run(FRESH, events))
    ensures !Wanted(events) ==> NothingPending(Run(FRESH, events))
    decreases |events|
  {
    if events != [] {
      var init, e := events[..|events| - 1], events[|events| - 1];
      assert events == init + [e];
      EnabledPrefix(FRESH, init, e);
      TriesExactlyWhileWanted(init);
      RunKeepsInv(FRESH, init);
      var w := Run(FRESH, init);
      if e.Disconnect? {
        DisconnectLeavesNothing(w);
      } else if e.Connect? {
        ConnectTries(w);
      } else if Wanted(init) {
        NextKeepsTrying(w, e);
      } else {
        NextStaysQuiet(w, e);
      }
    }
  }

  /** Over every run of a fresh client the attempt counter is the number of failures since it was last connected. */
  lemma {:induction false} AttemptsAreFailures(events: seq<Event>)
    requires EnabledRun(FRESH, events)
    ensures Run(FRESH, events).reconnectAttempt == Failures(events)
    decreases |events|
  {
    if events != [] {
      var init, e := events[..|events| - 1], events[|events| - 1];
      assert events == init + [e];
      EnabledPrefix(FRESH, init, e);
      AttemptsAreFailures(init);
      RunKeepsInv(FRESH, init);
      if e.SocketCloses? {
        assert LiveSocket(Run(FRESH, init), e.s);
      }
    }
  }

  /** A timer waits as long as the failures it follows ask for. */
  ghost predicate Backs(w: World, failures: nat) {
    forall t :: t in w.pending ==>
      failures > 0
      && 4 * BaseDelay(failures - 1) <= 5 * w.pending[t] <= 6 * BaseDelay(failures - 1)
      && 0 < w.pending[t] <= MAX_DELAY_MS
  }

  lemma CloseBacks(w: World, e: Event)
    requires Inv(w) && Enabled(w, e) && e.SocketCloses?
    ensures Backs(Next(w, e), w.reconnectAttempt + 1)
  {
    assert LiveSocket(w, e.s);
    DelayBounds(w.reconnectAttempt, e.random);
    assert Next(w, e).pending == map[w.next := Delay(w.reconnectAttempt, e.random)];
  }

  lemma DeadSocketIsSilent(w: World, e: Event)
    requires Inv(w) && Enabled(w, e) && w.pending != map[]
    ensures !e.SocketOpens? && !e.AuthAck? && !e.SocketCloses?
  {
    if e.SocketOpens? || e.AuthAck? || e.SocketCloses? {
      assert LiveSocket(w, e.s);
    }
  }

  /** Over every run of a fresh client a pending timer waits a fifth either side of a second doubled once for every
      earlier failure in a row, and never longer than half a minute. */
  lemma {:induction false} TimersBackOff(events: seq<Event>)
    requires EnabledRun(FRESH, events)
    ensures Backs(Run(FRESH, events), Failures(events))
    decreases |events|
  {
    if events != [] {
      var init, e := events[..|events| - 1], events[|events| - 1];
      assert events == init + [e];
      EnabledPrefix(FRESH, init, e);
      TimersBackOff(init);
      RunKeepsInv(FRESH, init);
      AttemptsAreFailures(init);
      var w := Run(FRESH, init);
      if e.SocketCloses? {
        CloseBacks(w, e);
      } else if w.pending != map[] {
        DeadSocketIsSilent(w, e);
      }
    }
  }
}
