// The WebSocket client of packages/core/api/ws-client.ts as a state machine over every call,
// timer and socket event.
module WsMachine {
  import opened Options
  import opened ReconnectBackoff

  // The variables a connect() call closes over.
  datatype Socket = Socket(
    generation: nat, token: Option<string>, slug: string, authenticated: bool, closed: bool)

  datatype Timer = Timer(generation: nat, delay: int, armed: bool)

  datatype Client = Client(
    cookieAuth: bool, token: Option<string>, slug: string,
    ws: Option<nat>, generation: nat, reconnectTimer: Option<nat>, reconnectAttempt: nat,
    hasConnectedBefore: bool, badFrameLogged: bool,
    // registered message listeners and recovery callbacks
    handlers: set<nat>, recoveryCallbacks: set<nat>,
    sockets: seq<Socket>, timers: seq<Timer>,
    // observable effects: auth frames, dispatched messages, rounds of recovery callbacks,
    // frames reported to the log, calls of onAuthenticated that have not returned
    authFrames: seq<(nat, string)>, deliveries: seq<nat>, recoveries: seq<nat>, badFrames: nat, inCallbacks: nat)

  datatype Frame = Unparseable | Invalid | Unknown | AuthAck

  // Listeners may call back into the client: a recovery callback runs between the two halves
  // of onAuthenticated, and each delivery to a listener is an event of its own.
  datatype Event =
    | SetAuth(token: Option<string>, slug: string)
    | Listen(recovery: bool, id: nat)
    | Unlisten(recovery: bool, id: nat)
    | Connect
    | Disconnect
    | Opened(k: nat)
    | Received(k: nat, frame: Frame)
    | Deliver(k: nat)                  // one listener invocation for a parsed message
    | Closed(k: nat, random: real)
    | TimerFires(t: nat)
    | CallbacksReturn                  // the rest of onAuthenticated

  // ---------------------------------------------------------------- specification

  function Init(cookieAuth: bool): Client {
    Client(cookieAuth, None, "", None, 0, None, 0, false, false, {}, {}, [], [], [], [], [], 0, 0)
  }

  predicate WellFormed(c: Client) {
    && (c.ws.Some? ==> c.ws.value < |c.sockets|)
    && (c.reconnectTimer.Some? ==> c.reconnectTimer.value < |c.timers|)
  }

  predicate Enabled(c: Client, event: Event) {
    match event
    case Opened(k) => k < |c.sockets|
    case Received(k, _) => k < |c.sockets|
    case Deliver(k) => k < |c.sockets|
    case Closed(k, random) => k < |c.sockets| && 0.0 <= random < 1.0
    case TimerFires(t) => t < |c.timers| && c.timers[t].armed
    case CallbacksReturn => c.inCallbacks > 0
    case _ => true
  }

  predicate IsCurrent(c: Client, k: nat)
    requires k < |c.sockets|
  {
    c.ws == Some(k) && c.generation == c.sockets[k].generation
  }

  function ClearTimer(c: Client): Client
    requires WellFormed(c)
  {
    if c.reconnectTimer.None? then c
    else
      var t := c.reconnectTimer.value;
      c.(reconnectTimer := None, timers := c.timers[t := c.timers[t].(armed := false)])
  }

  function CloseHeld(c: Client): Client
    requires WellFormed(c)
  {
    if c.ws.None? then c
    else c.(ws := None, sockets := c.sockets[c.ws.value := c.sockets[c.ws.value].(closed := true)])
  }

  function Disconnected(c: Client): Client
    requires WellFormed(c)
  {
    CloseHeld(ClearTimer(c)).(
      generation := c.generation + 1, hasConnectedBefore := false, reconnectAttempt := 0,
      handlers := {}, recoveryCallbacks := {})
  }

  function Connected(c: Client): Client
    requires WellFormed(c)
  {
    var quiet := CloseHeld(ClearTimer(c));
    var generation := c.generation + 1;
    quiet.(generation := generation, badFrameLogged := false, ws := Some(|c.sockets|),
           sockets := quiet.sockets + [Socket(generation, c.token, c.slug, false, false)])
  }

  // authenticate(); when recovery callbacks have to run it stops before them, and
  // CallbacksReturn is the rest of onAuthenticated.
  function Authenticated(c: Client, k: nat): Client
    requires k < |c.sockets|
  {
    if !IsCurrent(c, k) || c.sockets[k].authenticated then c
    else
      var next := c.(sockets := c.sockets[k := c.sockets[k].(authenticated := true)], reconnectAttempt := 0);
      if c.hasConnectedBefore || c.reconnectAttempt > 0 then
        next.(recoveries := c.recoveries + [k], inCallbacks := c.inCallbacks + 1)
      else next.(hasConnectedBefore := true)
  }

  function SendsToken(c: Client, k: nat): bool
    requires k < |c.sockets|
  {
    !c.cookieAuth && c.sockets[k].token.Some? && c.sockets[k].token.value != ""
  }

  function Step(c: Client, event: Event): Client
    requires WellFormed(c) && Enabled(c, event)
  {
    match event
    case SetAuth(token, slug) => c.(token := token, slug := slug)
    case Listen(recovery, id) =>
      if recovery then c.(recoveryCallbacks := c.recoveryCallbacks + {id}) else c.(handlers := c.handlers + {id})
    case Unlisten(recovery, id) =>
      if recovery then c.(recoveryCallbacks := c.recoveryCallbacks - {id}) else c.(handlers := c.handlers - {id})
    case Connect => Connected(c)
    case Disconnect => Disconnected(c)
    case Opened(k) =>
      if !IsCurrent(c, k) then c
      else if SendsToken(c, k) then c.(authFrames := c.authFrames + [(k, c.sockets[k].token.value)])
      else Authenticated(c, k)
    case Received(k, frame) =>
      if !IsCurrent(c, k) then c
      else
        (match frame
         case Unparseable => c.(badFrames := c.badFrames + 1)
         case Invalid => if c.badFrameLogged then c else c.(badFrameLogged := true, badFrames := c.badFrames + 1)
         case Unknown => c
         case AuthAck => Authenticated(c, k))
    case Deliver(k) => if IsCurrent(c, k) then c.(deliveries := c.deliveries + [k]) else c
    case Closed(k, random) =>
      if !IsCurrent(c, k) then c
      else
        c.(ws := None, generation := c.generation + 1, reconnectAttempt := c.reconnectAttempt + 1,
           reconnectTimer := Some(|c.timers|),
           timers := c.timers + [Timer(c.generation + 1, Delay(c.reconnectAttempt, random), true)],
           sockets := c.sockets[k := c.sockets[k].(closed := true)])
    case TimerFires(t) =>
      var fired := c.(timers := c.timers[t := c.timers[t].(armed := false)]);
      if c.generation == c.timers[t].generation then Connected(fired) else fired
    case CallbacksReturn => c.(hasConnectedBefore := true, inCallbacks := c.inCallbacks - 1)
  }

  // ---------------------------------------------------------------- invariant

  ghost predicate SocketOk(c: Client, k: nat)
    requires k < |c.sockets|
  {
    var socket := c.sockets[k];
    // the held socket belongs to the current generation, and no other is left open
    && (c.ws == Some(k) ==> socket.generation == c.generation && !socket.closed)
    && (c.ws != Some(k) ==> socket.closed && socket.generation < c.generation)
  }

  ghost predicate TimerOk(c: Client, t: nat)
    requires t < |c.timers|
  {
    // an armed timer is the one the client holds, is of the current generation, and
    // excludes a held socket
    c.timers[t].armed ==>
      c.reconnectTimer == Some(t) && c.timers[t].generation == c.generation && c.ws.None?
  }

  ghost predicate Inv(c: Client) {
    && WellFormed(c)
    && (forall k :: 0 <= k < |c.sockets| ==> SocketOk(c, k))
    && (forall t :: 0 <= t < |c.timers| ==> TimerOk(c, t))
    && (forall j, k :: 0 <= j < k < |c.sockets| ==> c.sockets[j].generation < c.sockets[k].generation)
    && (forall i :: 0 <= i < |c.authFrames| ==>
          c.authFrames[i].0 < |c.sockets| && c.sockets[c.authFrames[i].0].token == Some(c.authFrames[i].1))
    // a recovery round belongs to a socket that authenticated, and no socket has two
    && (forall i :: 0 <= i < |c.recoveries| ==>
          c.recoveries[i] < |c.sockets| && c.sockets[c.recoveries[i]].authenticated)
    && (forall i, j :: 0 <= i < j < |c.recoveries| ==> c.recoveries[i] < c.recoveries[j])
  }

  ghost predicate HasPendingTimer(c: Client) {
    exists t :: 0 <= t < |c.timers| && c.timers[t].armed
  }

  lemma ClearTimerOk(c: Client)
    requires Inv(c)
    ensures Inv(ClearTimer(c)) && !HasPendingTimer(ClearTimer(c)) && ClearTimer(c).reconnectTimer.None?
  {
    forall k | 0 <= k < |c.sockets| ensures SocketOk(ClearTimer(c), k) { assert SocketOk(c, k); }
    forall t | 0 <= t < |c.timers| ensures TimerOk(ClearTimer(c), t) && !ClearTimer(c).timers[t].armed {
      assert TimerOk(c, t);
    }
  }

  // With no armed timer, closing the held socket and moving on to a new generation.
  lemma CloseHeldOk(c: Client, generation: nat)
    requires Inv(c) && !HasPendingTimer(c) && generation > c.generation
    ensures Inv(CloseHeld(c).(generation := generation))
    ensures CloseHeld(c).ws.None? && !HasPendingTimer(CloseHeld(c))
  {
    var next := CloseHeld(c).(generation := generation);
    forall k | 0 <= k < |next.sockets| ensures SocketOk(next, k) {
      assert SocketOk(c, k);
    }
    forall t | 0 <= t < |next.timers| ensures TimerOk(next, t) && !next.timers[t].armed {
      assert TimerOk(c, t);
    }
  }

  lemma ConnectedOk(c: Client)
    requires Inv(c)
    ensures Inv(Connected(c)) && Connected(c).ws.Some?
  {
    ClearTimerOk(c);
    var quiet := ClearTimer(c);
    CloseHeldOk(quiet, c.generation + 1);
    var closed := CloseHeld(quiet).(generation := c.generation + 1);
    var next := Connected(c);
    forall k | 0 <= k < |next.sockets| ensures SocketOk(next, k) {
      if k < |c.sockets| {
        assert SocketOk(closed, k) && SocketOk(quiet, k);
        assert next.sockets[k] == closed.sockets[k];
      }
    }
    forall j, k | 0 <= j < k < |next.sockets| ensures next.sockets[j].generation < next.sockets[k].generation {
      assert SocketOk(quiet, j);
    }
    forall t | 0 <= t < |next.timers| ensures TimerOk(next, t) {
      assert TimerOk(closed, t);
    }
  }

  lemma HeldSocketIsLast(c: Client, k: nat)
    requires Inv(c) && k < |c.sockets| && c.ws == Some(k)
    ensures k == |c.sockets| - 1
  {
    assert SocketOk(c, k) && SocketOk(c, |c.sockets| - 1);
  }

  lemma AuthenticatedOk(c: Client, k: nat)
    requires Inv(c) && k < |c.sockets|
    ensures Inv(Authenticated(c, k)) && Authenticated(c, k).ws == c.ws
  {
    if IsCurrent(c, k) && !c.sockets[k].authenticated {
      HeldSocketIsLast(c, k);
      AuthenticationOk(c, k, Authenticated(c, k));
    }
  }

  // The last socket authenticates; a recovery round may be added for it.
  lemma AuthenticationOk(c: Client, k: nat, next: Client)
    requires Inv(c) && k == |c.sockets| - 1 && !c.sockets[k].authenticated
    requires next.sockets == c.sockets[k := c.sockets[k].(authenticated := true)]
    requires next.ws == c.ws && next.generation == c.generation && next.reconnectTimer == c.reconnectTimer
    requires next.timers == c.timers && next.authFrames == c.authFrames
    requires next.recoveries == c.recoveries || next.recoveries == c.recoveries + [k]
    ensures Inv(next)
  {
    forall j | 0 <= j < |next.sockets| ensures SocketOk(next, j) { assert SocketOk(c, j); }
    forall t | 0 <= t < |next.timers| ensures TimerOk(next, t) { assert TimerOk(c, t); }
    forall i | 0 <= i < |c.recoveries| ensures c.recoveries[i] < k { }
  }

  lemma ClosedOk(c: Client, k: nat, random: real)
    requires Inv(c) && Enabled(c, Closed(k, random))
    ensures Inv(Step(c, Closed(k, random)))
    ensures IsCurrent(c, k) ==> HasPendingTimer(Step(c, Closed(k, random)))
  {
    var next := Step(c, Closed(k, random));
    if IsCurrent(c, k) {
      forall j | 0 <= j < |next.sockets| ensures SocketOk(next, j) { assert SocketOk(c, j); }
      forall t | 0 <= t < |next.timers| ensures TimerOk(next, t) { if t < |c.timers| { assert TimerOk(c, t); } }
      assert next.timers[|c.timers|].armed;
    }
  }

  lemma TimerFiresOk(c: Client, t: nat)
    requires Inv(c) && Enabled(c, TimerFires(t))
    ensures Inv(Step(c, TimerFires(t))) && Step(c, TimerFires(t)).ws.Some?
  {
    assert TimerOk(c, t);
    var fired := c.(timers := c.timers[t := c.timers[t].(armed := false)]);
    forall k | 0 <= k < |fired.sockets| ensures SocketOk(fired, k) { assert SocketOk(c, k); }
    forall u | 0 <= u < |fired.timers| ensures TimerOk(fired, u) { assert TimerOk(c, u); }
    ConnectedOk(fired);
  }

  lemma SameCoreKeepsInv(c: Client, next: Client)
    requires Inv(c) && WellFormed(next)
    requires next.ws == c.ws && next.generation == c.generation && next.reconnectTimer == c.reconnectTimer
    requires next.sockets == c.sockets && next.timers == c.timers && next.recoveries == c.recoveries
    requires next.authFrames == c.authFrames || exists k: nat, text ::
      k < |c.sockets| && c.sockets[k].token == Some(text) && next.authFrames == c.authFrames + [(k, text)]
    ensures Inv(next)
    ensures HasPendingTimer(next) <==> HasPendingTimer(c)
  {
    forall k | 0 <= k < |next.sockets| ensures SocketOk(next, k) { assert SocketOk(c, k); }
    forall t | 0 <= t < |next.timers| ensures TimerOk(next, t) { assert TimerOk(c, t); }
  }

  lemma DisconnectOk(c: Client)
    requires Inv(c)
    ensures Inv(Disconnected(c)) && Idle(Disconnected(c))
  {
    ClearTimerOk(c);
    CloseHeldOk(ClearTimer(c), c.generation + 1);
    SameCoreKeepsInv(CloseHeld(ClearTimer(c)).(generation := c.generation + 1), Disconnected(c));
  }

  // Nothing is held and nothing is armed.
  ghost predicate Idle(c: Client) { c.ws.None? && !HasPendingTimer(c) }

  // An event of a socket other than its closing leaves what is held and armed.
  lemma OpenedOk(c: Client, k: nat)
    requires Inv(c) && k < |c.sockets|
    ensures Inv(Step(c, Opened(k))) && (Idle(c) <==> Idle(Step(c, Opened(k))))
  {
    if IsCurrent(c, k) && SendsToken(c, k) { SameCoreKeepsInv(c, Step(c, Opened(k))); } else { AuthenticatedOk(c, k); }
  }

  lemma ReceivedOk(c: Client, k: nat, frame: Frame)
    requires Inv(c) && k < |c.sockets|
    ensures Inv(Step(c, Received(k, frame))) && (Idle(c) <==> Idle(Step(c, Received(k, frame))))
  {
    if frame == AuthAck { AuthenticatedOk(c, k); } else { SameCoreKeepsInv(c, Step(c, Received(k, frame))); }
  }

  predicate Outside(event: Event) {
    event.SetAuth? || event.Listen? || event.Unlisten? || event.Deliver? || event.CallbacksReturn?
  }

  lemma OutsideOk(c: Client, event: Event)
    requires Inv(c) && Enabled(c, event) && Outside(event)
    ensures Inv(Step(c, event)) && (Idle(c) <==> Idle(Step(c, event)))
  {
    SameCoreKeepsInv(c, Step(c, event));
  }

  lemma StepKeepsInv(c: Client, event: Event)
    requires Inv(c) && Enabled(c, event)
    ensures Inv(Step(c, event))
  {
    match event {
      case Connect => ConnectedOk(c);
      case Disconnect => DisconnectOk(c);
      case Opened(k) => OpenedOk(c, k);
      case Received(k, frame) => ReceivedOk(c, k, frame);
      case Closed(k, random) => ClosedOk(c, k, random);
      case TimerFires(t) => TimerFiresOk(c, t);
      case _ => OutsideOk(c, event);
    }
  }

  lemma InitOk(cookieAuth: bool)
    ensures Inv(Init(cookieAuth)) && Idle(Init(cookieAuth))
  {
  }

  // ---------------------------------------------------------------- runs

  ghost predicate IsStep(c: Client, event: Event, next: Client) {
    WellFormed(c) && Enabled(c, event) && next == Step(c, event)
  }

  ghost predicate IsRun(states: seq<Client>, events: seq<Event>) {
    && |states| == |events| + 1
    && (exists cookieAuth :: states[0] == Init(cookieAuth))
    && (forall i {:trigger events[i]} :: 0 <= i < |events| ==> IsStep(states[i], events[i], states[i + 1]))
  }

  lemma {:induction false} RunKeepsInv(states: seq<Client>, events: seq<Event>, i: nat)
    requires IsRun(states, events) && i < |states|
    ensures Inv(states[i])
  {
    if i == 0 {
      var cookieAuth :| states[0] == Init(cookieAuth);
      InitOk(cookieAuth);
    } else {
      RunKeepsInv(states, events, i - 1);
      StepKeepsInv(states[i - 1], events[i - 1]);
    }
  }

  // The last Connect or Disconnect among the first `i` events was a Connect.
  ghost predicate Wanted(events: seq<Event>, i: nat)
    requires i <= |events|
  {
    i > 0 && !events[i - 1].Disconnect? && (events[i - 1].Connect? || Wanted(events, i - 1))
  }

  // A client that was told to connect and not since to disconnect holds a socket or an armed
  // timer of its current generation, never both; any other client holds neither.
  lemma {:induction false} WantedMeansLive(states: seq<Client>, events: seq<Event>, i: nat)
    requires IsRun(states, events) && i < |states|
    ensures Wanted(events, i) ==> (states[i].ws.Some? <==> !HasPendingTimer(states[i]))
    ensures !Wanted(events, i) ==> Idle(states[i])
  {
    RunKeepsInv(states, events, i);
    if i == 0 {
      var cookieAuth :| states[0] == Init(cookieAuth);
    } else {
      var c, event := states[i - 1], events[i - 1];
      RunKeepsInv(states, events, i - 1);
      WantedMeansLive(states, events, i - 1);
      LiveStep(c, event);
      if states[i].ws.Some? { HeldExcludesTimer(states[i]); }
    }
  }

  lemma HeldExcludesTimer(c: Client)
    requires Inv(c) && c.ws.Some?
    ensures !HasPendingTimer(c)
  {
    forall t | 0 <= t < |c.timers| ensures !c.timers[t].armed { assert TimerOk(c, t); }
  }

  lemma LiveStep(c: Client, event: Event)
    requires Inv(c) && Enabled(c, event)
    ensures event.Connect? ==> Step(c, event).ws.Some?
    ensures event.Disconnect? ==> Idle(Step(c, event))
    ensures !event.Connect? && !event.Disconnect? ==>
      (Idle(c) <==> Idle(Step(c, event)))
  {
    match event {
      case Connect => ConnectedOk(c);
      case Disconnect => DisconnectOk(c);
      case Opened(k) => OpenedOk(c, k);
      case Received(k, frame) => ReceivedOk(c, k, frame);
      case Closed(k, random) => ClosedOk(c, k, random);
      case TimerFires(t) => TimerFiresOk(c, t);
      case _ => OutsideOk(c, event);
    }
  }

  // ---------------------------------------------------------------- safety

  // The socket an event comes from.
  function Source(event: Event): Option<nat> {
    match event
    case Opened(k) => Some(k)
    case Received(k, _) => Some(k)
    case Deliver(k) => Some(k)
    case Closed(k, _) => Some(k)
    case _ => None
  }

  // In every reachable state: the held socket is of the current generation, every other
  // socket is closed and of an older one, an armed timer is the held timer, is of the
  // current generation and excludes a held socket; so events of any other socket change
  // nothing, and a timer that fires always connects.
  lemma MachineSafety(states: seq<Client>, events: seq<Event>, i: nat)
    requires IsRun(states, events) && i < |states|
    ensures forall k :: 0 <= k < |states[i].sockets| ==> SocketOk(states[i], k)
    ensures forall t :: 0 <= t < |states[i].timers| ==> TimerOk(states[i], t)
    ensures forall k :: 0 <= k < |states[i].sockets| ==> (IsCurrent(states[i], k) <==> states[i].ws == Some(k))
    ensures i < |events| && Source(events[i]).Some? && Source(events[i]) != states[i].ws ==> states[i + 1] == states[i]
    ensures i < |events| && events[i].TimerFires? ==> states[i + 1].ws == Some(|states[i].sockets|)
  {
    RunKeepsInv(states, events, i);
    var c := states[i];
    forall k | 0 <= k < |c.sockets| ensures IsCurrent(c, k) <==> c.ws == Some(k) {
      assert SocketOk(c, k);
    }
    if i < |events| && events[i].TimerFires? {
      assert TimerOk(c, events[i].t);
    }
  }

  // The effects a user of the client can see.
  ghost predicate SameEffects(before: Client, after: Client) {
    && after.sockets == before.sockets && after.deliveries == before.deliveries
    && after.recoveries == before.recoveries && after.authFrames == before.authFrames
    && after.badFrames == before.badFrames
  }

  // After a disconnect nothing is held, armed, sent, delivered or recovered until the next
  // connect, whatever old sockets and timers still try.
  lemma {:induction false} QuietUntilConnect(states: seq<Client>, events: seq<Event>, i: nat, j: nat)
    requires IsRun(states, events) && i < j < |states| && events[i].Disconnect?
    requires forall m :: i < m < j ==> !events[m].Connect?
    ensures Idle(states[j]) && SameEffects(states[i + 1], states[j])
    decreases j
  {
    RunKeepsInv(states, events, i);
    if j == i + 1 {
      DisconnectOk(states[i]);
    } else {
      QuietUntilConnect(states, events, i, j - 1);
      RunKeepsInv(states, events, j - 1);
      QuietStep(states[j - 1], events[j - 1]);
    }
  }

  lemma QuietStep(c: Client, event: Event)
    requires Inv(c) && Enabled(c, event) && Idle(c) && !event.Connect?
    ensures Idle(Step(c, event)) && SameEffects(c, Step(c, event))
  {
    LiveStep(c, event);
  }

  // ---------------------------------------------------------------- authentication

  ghost predicate Authenticates(c: Client, event: Event) {
    && (event.Opened? || (event.Received? && event.frame == AuthAck))
    && Source(event).value < |c.sockets|
    && var k := Source(event).value;
       IsCurrent(c, k) && !c.sockets[k].authenticated && (event.Opened? ==> !SendsToken(c, k))
  }

  ghost predicate Drops(c: Client, event: Event) {
    event.Closed? && event.k < |c.sockets| && IsCurrent(c, event.k)
  }

  lemma {:induction false} AuthenticatedStays(states: seq<Client>, events: seq<Event>, i: nat, j: nat, k: nat)
    requires IsRun(states, events) && i <= j < |states| && k < |states[i].sockets|
    requires states[i].sockets[k].authenticated
    ensures k < |states[j].sockets| && states[j].sockets[k].authenticated
    decreases j
  {
    if i < j {
      AuthenticatedStays(states, events, i, j - 1, k);
      AuthenticatedStep(states[j - 1], events[j - 1], k);
    }
  }

  lemma ConnectedFrame(c: Client)
    requires WellFormed(c)
    ensures var next := Connected(c);
      && next.recoveries == c.recoveries && next.inCallbacks == c.inCallbacks
      && next.hasConnectedBefore == c.hasConnectedBefore && next.reconnectAttempt == c.reconnectAttempt
      && |next.sockets| == |c.sockets| + 1
      && (forall k :: 0 <= k < |c.sockets| ==> next.sockets[k].authenticated == c.sockets[k].authenticated)
  {
  }

  lemma AuthenticatedStep(c: Client, event: Event, k: nat)
    requires WellFormed(c) && Enabled(c, event) && k < |c.sockets| && c.sockets[k].authenticated
    ensures k < |Step(c, event).sockets| && Step(c, event).sockets[k].authenticated
  {
    match event {
      case Connect => ConnectedFrame(c);
      case TimerFires(t) => ConnectedFrame(c.(timers := c.timers[t := c.timers[t].(armed := false)]));
      case _ =>
    }
  }

  // A connection authenticates at most once, however many acknowledgements it receives.
  lemma AuthenticatesOnce(states: seq<Client>, events: seq<Event>, i: nat, j: nat)
    requires IsRun(states, events) && i < j < |events|
    requires Authenticates(states[i], events[i]) && Authenticates(states[j], events[j])
    ensures Source(events[i]) != Source(events[j])
  {
    var k := Source(events[i]).value;
    AuthenticatedStays(states, events, i + 1, j, k);
  }

  // Connections lost since the last authentication or disconnect.
  ghost function LossesSince(states: seq<Client>, events: seq<Event>, i: nat): nat
    requires |states| == |events| + 1 && i <= |events|
  {
    if i == 0 then 0
    else
      var c, event := states[i - 1], events[i - 1];
      if event.Disconnect? || Authenticates(c, event) then 0
      else LossesSince(states, events, i - 1) + if Drops(c, event) then 1 else 0
  }

  lemma {:induction false} AttemptCountsLosses(states: seq<Client>, events: seq<Event>, i: nat)
    requires IsRun(states, events) && i < |states|
    ensures states[i].reconnectAttempt == LossesSince(states, events, i)
  {
    if i == 0 {
      var cookieAuth :| states[0] == Init(cookieAuth);
    } else {
      AttemptCountsLosses(states, events, i - 1);
      AttemptStep(states[i - 1], events[i - 1]);
    }
  }

  lemma AttemptStep(c: Client, event: Event)
    requires WellFormed(c) && Enabled(c, event)
    ensures Step(c, event).reconnectAttempt ==
      if event.Disconnect? || Authenticates(c, event) then 0
      else if Drops(c, event) then c.reconnectAttempt + 1 else c.reconnectAttempt
  {
    match event {
      case Connect => ConnectedFrame(c);
      case TimerFires(t) => FiredFrame(c, t);
      case Opened(k) => AuthenticatedFrame(c, k);
      case Received(k, frame) => AuthenticatedFrame(c, k);
      case _ =>
    }
  }

  lemma FiredFrame(c: Client, t: nat)
    requires WellFormed(c) && Enabled(c, TimerFires(t))
    ensures var next := Step(c, TimerFires(t));
      && next.recoveries == c.recoveries && next.inCallbacks == c.inCallbacks
      && next.hasConnectedBefore == c.hasConnectedBefore && next.reconnectAttempt == c.reconnectAttempt
  {
    ConnectedFrame(c.(timers := c.timers[t := c.timers[t].(armed := false)]));
  }

  // The loss of a connection arms exactly one timer, and after k earlier losses its delay is
  // within twenty percent of the k-th base delay and never above the cap.
  lemma LossArmsBackoff(states: seq<Client>, events: seq<Event>, i: nat)
    requires IsRun(states, events) && i < |events| && Drops(states[i], events[i])
    ensures var k, after := LossesSince(states, events, i), states[i + 1];
      && after.ws.None? && after.timers == states[i].timers + [after.timers[|states[i].timers|]]
      && var timer := after.timers[|states[i].timers|];
         && timer.armed && timer.generation == after.generation
         && 8 * BaseDelay(k) <= 10 * timer.delay <= 12 * BaseDelay(k)
         && timer.delay <= RECONNECT_MAX_DELAY_MS
  {
    AttemptCountsLosses(states, events, i);
    DelayBounds(states[i].reconnectAttempt, events[i].random);
  }

  // ---------------------------------------------------------------- recovery

  // An authentication or a lost connection since the last disconnect.
  ghost predicate HadConnection(states: seq<Client>, events: seq<Event>, i: nat)
    requires |states| == |events| + 1 && i <= |events|
  {
    i > 0
    && !events[i - 1].Disconnect?
    && (Authenticates(states[i - 1], events[i - 1]) || Drops(states[i - 1], events[i - 1])
        || HadConnection(states, events, i - 1))
  }

  // Step i called recovery callbacks.
  ghost predicate Recovers(states: seq<Client>, i: nat)
    requires i + 1 < |states|
  {
    states[i + 1].recoveries != states[i].recoveries
  }

  // What the client remembers, over every run: since the last disconnect a round of recovery
  // callbacks has returned, or a connection has authenticated without one.
  ghost predicate Remembers(states: seq<Client>, events: seq<Event>, i: nat)
    requires |states| == |events| + 1 && i <= |events|
  {
    i > 0
    && !events[i - 1].Disconnect?
    && (events[i - 1].CallbacksReturn?
        || (Authenticates(states[i - 1], events[i - 1]) && !Recovers(states, i - 1))
        || Remembers(states, events, i - 1))
  }

  lemma {:induction false} MemoryIsRemembered(states: seq<Client>, events: seq<Event>, i: nat)
    requires IsRun(states, events) && i < |states|
    ensures states[i].hasConnectedBefore <==> Remembers(states, events, i)
  {
    if i == 0 {
      var cookieAuth :| states[0] == Init(cookieAuth);
    } else {
      MemoryIsRemembered(states, events, i - 1);
      RecoveryStep(states[i - 1], events[i - 1]);
    }
  }

  // In every run, whatever callbacks do: recovery callbacks run exactly at an authentication
  // that is remembered to follow another, or that follows a lost connection.
  lemma RecoversExactlyWhenRemembered(states: seq<Client>, events: seq<Event>, i: nat)
    requires IsRun(states, events) && i < |events|
    ensures Recovers(states, i) <==>
      Authenticates(states[i], events[i]) && (Remembers(states, events, i) || LossesSince(states, events, i) > 0)
  {
    MemoryIsRemembered(states, events, i);
    AttemptCountsLosses(states, events, i);
    RecoveryStep(states[i], events[i]);
  }

  // Callbacks are synchronous: while they run no socket and no timer reports, but they may
  // call the client.
  ghost predicate RunsToCompletion(states: seq<Client>, events: seq<Event>)
    requires |states| == |events| + 1
  {
    forall i :: 0 <= i < |events| && states[i].inCallbacks > 0 ==> IsCall(events[i])
  }

  predicate IsCall(event: Event) {
    event.SetAuth? || event.Listen? || event.Unlisten? || event.Connect? || event.Disconnect? || event.CallbacksReturn?
  }

  // A round of callbacks has returned since the last disconnect.
  ghost predicate ReturnedSince(events: seq<Event>, i: nat)
    requires i <= |events|
  {
    i > 0 && !events[i - 1].Disconnect? && (events[i - 1].CallbacksReturn? || ReturnedSince(events, i - 1))
  }

  lemma {:induction false} MemoryOutsideCallbacks(states: seq<Client>, events: seq<Event>, i: nat)
    requires IsRun(states, events) && RunsToCompletion(states, events) && i < |states|
    ensures states[i].inCallbacks <= 1
    ensures states[i].inCallbacks == 0 ==>
      ((states[i].hasConnectedBefore || states[i].reconnectAttempt > 0)
       <==> (HadConnection(states, events, i) || ReturnedSince(events, i)))
  {
    if i == 0 {
      var cookieAuth :| states[0] == Init(cookieAuth);
    } else {
      MemoryOutsideCallbacks(states, events, i - 1);
      RecoveryStep(states[i - 1], events[i - 1]);
      assert states[i - 1].inCallbacks > 0 ==> IsCall(events[i - 1]);
    }
  }

  // With synchronous callbacks: recovery callbacks run at an authentication exactly when since
  // the last disconnect the client has authenticated or lost a connection, or callbacks have
  // returned. So an authentication is mistaken for a recovery exactly when callbacks have
  // returned since the last disconnect and no connection has been made: they disconnected.
  lemma RecoversExactlySynchronously(states: seq<Client>, events: seq<Event>, i: nat)
    requires IsRun(states, events) && RunsToCompletion(states, events) && i < |events|
    ensures Recovers(states, i) <==>
      Authenticates(states[i], events[i]) && (HadConnection(states, events, i) || ReturnedSince(events, i))
    ensures (Recovers(states, i) <==> Authenticates(states[i], events[i]) && HadConnection(states, events, i))
      <==> !(Authenticates(states[i], events[i]) && ReturnedSince(events, i) && !HadConnection(states, events, i))
  {
    MemoryOutsideCallbacks(states, events, i);
    RecoveryStep(states[i], events[i]);
    assert states[i].inCallbacks > 0 ==> IsCall(events[i]);
  }

  // Recovery callbacks return before anything else happens to the client.
  ghost predicate NonReentrant(states: seq<Client>, events: seq<Event>)
    requires |states| == |events| + 1
  {
    forall i :: 0 <= i && i + 1 < |events| && Recovers(states, i) ==> events[i + 1].CallbacksReturn?
  }

  lemma {:induction false} ConnectionMemory(states: seq<Client>, events: seq<Event>, i: nat)
    requires IsRun(states, events) && NonReentrant(states, events) && i < |states|
    ensures i > 0 && Recovers(states, i - 1) ==> states[i].inCallbacks == 1 && HadConnection(states, events, i)
    ensures i == 0 || !Recovers(states, i - 1) ==>
      && states[i].inCallbacks == 0
      && (states[i].hasConnectedBefore || states[i].reconnectAttempt > 0 <==> HadConnection(states, events, i))
  {
    if i == 0 {
      var cookieAuth :| states[0] == Init(cookieAuth);
    } else {
      ConnectionMemory(states, events, i - 1);
      RecoveryStep(states[i - 1], events[i - 1]);
    }
  }

  // Whether an event starts a round of recovery callbacks.
  ghost predicate StartsRound(c: Client, event: Event) {
    Authenticates(c, event) && (c.hasConnectedBefore || c.reconnectAttempt > 0)
  }

  ghost predicate RecoveryLaw(c: Client, event: Event, next: Client)
    requires Enabled(c, event)
  {
    && (next.recoveries != c.recoveries <==> StartsRound(c, event))
    && next.inCallbacks ==
         (if StartsRound(c, event) then c.inCallbacks + 1
          else if event.CallbacksReturn? then c.inCallbacks - 1 else c.inCallbacks)
    && next.hasConnectedBefore ==
         (if event.Disconnect? then false
          else if event.CallbacksReturn? then true
          else c.hasConnectedBefore || (Authenticates(c, event) && !StartsRound(c, event)))
  }

  lemma SocketRecovery(c: Client, event: Event)
    requires WellFormed(c) && Enabled(c, event) && (event.Opened? || event.Received?)
    ensures RecoveryLaw(c, event, Step(c, event))
  {
    AuthenticatedFrame(c, event.k);
  }

  lemma RecoveryStep(c: Client, event: Event)
    requires WellFormed(c) && Enabled(c, event)
    ensures RecoveryLaw(c, event, Step(c, event))
    ensures Step(c, event).reconnectAttempt ==
      if event.Disconnect? || Authenticates(c, event) then 0
      else if Drops(c, event) then c.reconnectAttempt + 1 else c.reconnectAttempt
  {
    AttemptStep(c, event);
    match event {
      case Connect => ConnectedFrame(c);
      case TimerFires(t) => FiredFrame(c, t);
      case Opened(k) => SocketRecovery(c, event);
      case Received(k, frame) => SocketRecovery(c, event);
      case _ =>
    }
  }

  lemma AuthenticatedFrame(c: Client, k: nat)
    requires k < |c.sockets|
    ensures var next, does := Authenticated(c, k), IsCurrent(c, k) && !c.sockets[k].authenticated;
      var recovers := does && (c.hasConnectedBefore || c.reconnectAttempt > 0);
      && (next.recoveries != c.recoveries <==> recovers)
      && next.inCallbacks == (if recovers then c.inCallbacks + 1 else c.inCallbacks)
      && next.hasConnectedBefore == (c.hasConnectedBefore || (does && !recovers))
      && next.reconnectAttempt == (if does then 0 else c.reconnectAttempt)
  {
  }

  // Recovery callbacks run at an authentication exactly when the client has authenticated or
  // lost a connection since the last disconnect.
  lemma RecoversExactlyAfterConnection(states: seq<Client>, events: seq<Event>, i: nat)
    requires IsRun(states, events) && NonReentrant(states, events) && i < |events|
    ensures Recovers(states, i) <==> Authenticates(states[i], events[i]) && HadConnection(states, events, i)
  {
    ConnectionMemory(states, events, i);
    RecoveryStep(states[i], events[i]);
  }

  // ---------------------------------------------------------------- re-entrant callbacks

  ghost predicate Reachable(c: Client, trail: seq<Event>) {
    exists states: seq<Client> :: IsRun(states, trail) && states[|trail|] == c
  }

  lemma ReachStep(c: Client, trail: seq<Event>, event: Event)
    requires Reachable(c, trail) && WellFormed(c) && Enabled(c, event)
    ensures Reachable(Step(c, event), trail + [event])
  {
    var states: seq<Client> :| IsRun(states, trail) && states[|trail|] == c;
    var longer, events := states + [Step(c, event)], trail + [event];
    forall i | 0 <= i < |events| ensures IsStep(longer[i], events[i], longer[i + 1]) {
      if i < |trail| { assert events[i] == trail[i]; }
    }
    assert IsRun(longer, events) && longer[|events|] == Step(c, event);
  }

  // An authentication mistaken for a recovery: a recovery callback disconnects, the rest of
  // onAuthenticated marks the client as connected before, and its next connection, the first
  // since the disconnect, runs the recovery callbacks.
  lemma DisconnectInsideCallbackIsForgotten()
    ensures exists c: Client, before: seq<Event> ::
      Reachable(c, before + [Disconnect] + [CallbacksReturn] + [Connect] + [Opened(2)]) && c.recoveries == [1, 2]
  {
    var inside, before := CallbackRuns();
    var left := DisconnectsInside(inside, before);
    var last := RecoversAgain(left, before + [Disconnect] + [CallbacksReturn]);
  }

  lemma CallbackRuns() returns (inside: Client, trail: seq<Event>)
    ensures Reachable(inside, trail) && InsideCallback(inside)
  {
    var none: seq<Event> := [];
    assert IsRun([Init(true)], none) && [Init(true)][|none|] == Init(true);
    var lost := LosesFirst(none);
    inside := RecoversOnce(lost, none + [Connect] + [Closed(0, 0.5)]);
    trail := none + [Connect] + [Closed(0, 0.5)] + [TimerFires(0)] + [Opened(1)];
  }

  ghost predicate AfterLoss(c: Client) {
    && WellFormed(c) && c.cookieAuth && c.ws.None? && |c.sockets| == 1 && c.reconnectTimer == Some(0)
    && |c.timers| == 1 && c.timers[0].armed && c.timers[0].generation == c.generation
    && c.recoveries == [] && c.inCallbacks == 0 && c.reconnectAttempt == 1 && !c.hasConnectedBefore
  }

  ghost predicate InsideCallback(c: Client) {
    && WellFormed(c) && c.cookieAuth && c.ws == Some(1) && |c.sockets| == 2 && c.reconnectTimer.None?
    && c.recoveries == [1] && c.inCallbacks == 1
  }

  ghost predicate AfterCallback(c: Client) {
    && WellFormed(c) && c.cookieAuth && c.ws.None? && |c.sockets| == 2 && c.reconnectTimer.None?
    && c.recoveries == [1] && c.hasConnectedBefore
  }

  lemma LosesFirst(trail: seq<Event>) returns (c: Client)
    requires Reachable(Init(true), trail)
    ensures Reachable(c, trail + [Connect] + [Closed(0, 0.5)]) && AfterLoss(c)
  {
    ReachStep(Init(true), trail, Connect);
    var c1 := Step(Init(true), Connect);
    ReachStep(c1, trail + [Connect], Closed(0, 0.5));
    c := Step(c1, Closed(0, 0.5));
  }

  lemma RecoversOnce(lost: Client, trail: seq<Event>) returns (c: Client)
    requires Reachable(lost, trail) && AfterLoss(lost)
    ensures Reachable(c, trail + [TimerFires(0)] + [Opened(1)]) && InsideCallback(c)
  {
    ReachStep(lost, trail, TimerFires(0));
    var c1 := Step(lost, TimerFires(0));
    ReachStep(c1, trail + [TimerFires(0)], Opened(1));
    c := Step(c1, Opened(1));
  }

  lemma DisconnectsInside(inside: Client, trail: seq<Event>) returns (c: Client)
    requires Reachable(inside, trail) && InsideCallback(inside)
    ensures Reachable(c, trail + [Disconnect] + [CallbacksReturn]) && AfterCallback(c)
  {
    ReachStep(inside, trail, Disconnect);
    var c1 := Step(inside, Disconnect);
    ReachStep(c1, trail + [Disconnect], CallbacksReturn);
    c := Step(c1, CallbacksReturn);
  }

  lemma RecoversAgain(left: Client, trail: seq<Event>) returns (c: Client)
    requires Reachable(left, trail) && AfterCallback(left)
    ensures Reachable(c, trail + [Connect] + [Opened(2)]) && c.recoveries == [1, 2]
  {
    ReachStep(left, trail, Connect);
    var c1 := Step(left, Connect);
    ReachStep(c1, trail + [Connect], Opened(2));
    c := Step(c1, Opened(2));
  }
}
