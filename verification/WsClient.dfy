// The client object itself: its methods and the socket and timer callbacks update the fields
// in the order of the source, and each is one step of the machine.
module WsClient {
  import opened Options
  import opened ReconnectBackoff
  import opened WsMachine

  class Connection {
    const cookieAuth: bool
    var token: Option<string>
    var workspaceSlug: string
    var ws: Option<nat>
    var generation: nat
    var reconnectTimer: Option<nat>
    var reconnectAttempt: nat
    var hasConnectedBefore: bool
    var badFrameLogged: bool
    var handlers: set<nat>
    var onReconnectCallbacks: set<nat>
    // what lives outside the object: the sockets and timers it created and its effects
    var sockets: seq<Socket>
    var timers: seq<Timer>
    var authFrames: seq<(nat, string)>
    var deliveries: seq<nat>
    var recoveries: seq<nat>
    var badFrames: nat
    var inCallbacks: nat

    ghost function State(): Client
      reads this
    {
      Client(cookieAuth, token, workspaceSlug, ws, generation, reconnectTimer, reconnectAttempt, hasConnectedBefore,
             badFrameLogged, handlers, onReconnectCallbacks, sockets, timers, authFrames, deliveries, recoveries, badFrames, inCallbacks)
    }

    constructor (cookieAuth: bool)
      ensures State() == Init(cookieAuth)
    {
      this.cookieAuth := cookieAuth;
      token, ws, generation, reconnectTimer, reconnectAttempt := None, None, 0, None, 0;
      hasConnectedBefore, badFrameLogged := false, false;
      workspaceSlug, handlers, onReconnectCallbacks := "", {}, {};
      sockets, timers, authFrames, deliveries, recoveries := [], [], [], [], [];
      badFrames, inCallbacks := 0, 0;
    }

    method SetAuthToken(token: Option<string>, slug: string)
      requires WellFormed(State())
      modifies this
      ensures State() == Step(old(State()), SetAuth(token, slug))
    {
      this.token := token;
      workspaceSlug := slug;
    }

    // on(), onAny() and onReconnect()
    method AddListener(recovery: bool, id: nat)
      requires WellFormed(State())
      modifies this
      ensures State() == Step(old(State()), Listen(recovery, id))
    {
      if recovery { onReconnectCallbacks := onReconnectCallbacks + {id}; } else { handlers := handlers + {id}; }
    }

    // the function that a registration returns
    method RemoveListener(recovery: bool, id: nat)
      requires WellFormed(State())
      modifies this
      ensures State() == Step(old(State()), Unlisten(recovery, id))
    {
      if recovery { onReconnectCallbacks := onReconnectCallbacks - {id}; } else { handlers := handlers - {id}; }
    }

    method ClearReconnectTimer()
      requires WellFormed(State())
      modifies this
      ensures State() == ClearTimer(old(State()))
    {
      if reconnectTimer.Some? {
        var t := reconnectTimer.value;
        timers := timers[t := timers[t].(armed := false)];
        reconnectTimer := None;
      }
    }

    method Open()
      requires WellFormed(State())
      modifies this
      ensures State() == Connected(old(State()))
    {
      ClearReconnectTimer();
      var previous := ws;
      ws := None;
      generation := generation + 1;
      if previous.Some? {
        sockets := sockets[previous.value := sockets[previous.value].(closed := true)];
      }
      badFrameLogged := false;
      ws := Some(|sockets|);
      sockets := sockets + [Socket(generation, token, workspaceSlug, false, false)];
    }

    method DropSocket()
      requires WellFormed(State())
      modifies this
      ensures State() == CloseHeld(old(State()))
    {
      if ws.Some? {
        sockets := sockets[ws.value := sockets[ws.value].(closed := true)];
        ws := None;
      }
    }

    method DropConnection()
      requires WellFormed(State())
      modifies this
      ensures State() == CloseHeld(ClearTimer(old(State()))).(generation := old(generation) + 1)
    {
      ghost var before := State();
      generation := generation + 1;
      ClearReconnectTimer();
      DropSocket();
      NewGenerationFirst(before);
    }

    method CloseForGood()
      requires WellFormed(State())
      modifies this
      ensures State() == Step(old(State()), Disconnect)
    {
      DropConnection();
      hasConnectedBefore := false;
      reconnectAttempt := 0;
      handlers := {};
      onReconnectCallbacks := {};
    }

    method Authenticate(k: nat)
      requires k < |sockets|
      modifies this
      ensures State() == Authenticated(old(State()), k)
    {
      if !(ws == Some(k) && generation == sockets[k].generation) || sockets[k].authenticated { return; }
      sockets := sockets[k := sockets[k].(authenticated := true)];
      var recoveredConnection := hasConnectedBefore || reconnectAttempt > 0;
      reconnectAttempt := 0;
      if recoveredConnection {
        recoveries := recoveries + [k];
        inCallbacks := inCallbacks + 1;
      } else {
        hasConnectedBefore := true;
      }
    }

    method OnCallbacksReturn()
      requires WellFormed(State()) && inCallbacks > 0
      modifies this
      ensures State() == Step(old(State()), CallbacksReturn)
    {
      hasConnectedBefore := true;
      inCallbacks := inCallbacks - 1;
    }

    method OnOpen(k: nat)
      requires WellFormed(State()) && k < |sockets|
      modifies this
      ensures State() == Step(old(State()), Opened(k))
    {
      if !(ws == Some(k) && generation == sockets[k].generation) { return; }
      if !cookieAuth && sockets[k].token.Some? && sockets[k].token.value != "" {
        authFrames := authFrames + [(k, sockets[k].token.value)];
        return;
      }
      Authenticate(k);
    }

    method OnFrame(k: nat, frame: Frame)
      requires WellFormed(State()) && k < |sockets|
      modifies this
      ensures State() == Step(old(State()), Received(k, frame))
    {
      if !(ws == Some(k) && generation == sockets[k].generation) { return; }
      match frame
      case Unparseable => badFrames := badFrames + 1;
      case Invalid =>
        if !badFrameLogged {
          badFrameLogged := true;
          badFrames := badFrames + 1;
        }
      case Unknown =>
      case AuthAck => Authenticate(k);
    }

    // Runs the listeners of one message; each turn checks that the socket is still current.
    method OnMessage(k: nat, listeners: nat)
      requires WellFormed(State()) && k < |sockets|
      modifies this`deliveries
      ensures State() == Deliveries(old(State()), k, listeners)
    {
      for i := 0 to listeners
        invariant State() == old(State()).(deliveries := deliveries)
        invariant Deliveries(State(), k, listeners - i) == Deliveries(old(State()), k, listeners)
      {
        if !(ws == Some(k) && generation == sockets[k].generation) {
          StaleDeliveries(State(), k, listeners - i);
          return;
        }
        deliveries := deliveries + [k];
      }
    }

    method ScheduleReconnect(random: real)
      modifies this`reconnectAttempt, this`reconnectTimer, this`timers
      ensures reconnectAttempt == old(reconnectAttempt) + 1
      ensures reconnectTimer == Some(|old(timers)|)
      ensures timers == old(timers) + [Timer(generation, Delay(old(reconnectAttempt), random), true)]
    {
      var delay := Delay(reconnectAttempt, random);
      reconnectAttempt := reconnectAttempt + 1;
      reconnectTimer := Some(|timers|);
      timers := timers + [Timer(generation, delay, true)];
    }

    method OnClose(k: nat, random: real)
      requires WellFormed(State()) && Enabled(State(), Closed(k, random))
      modifies this
      ensures State() == Step(old(State()), Closed(k, random))
    {
      if !(ws == Some(k) && generation == sockets[k].generation) { return; }
      sockets := sockets[k := sockets[k].(closed := true)];
      ws := None;
      generation := generation + 1;
      ScheduleReconnect(random);
    }

    method OnTimer(t: nat)
      requires WellFormed(State()) && Enabled(State(), TimerFires(t))
      modifies this
      ensures State() == Step(old(State()), TimerFires(t))
    {
      var scheduled := timers[t].generation;
      timers := timers[t := timers[t].(armed := false)];
      if generation == scheduled { Open(); }
    }
  }

  // The same message delivered to one listener after the other.
  ghost function Deliveries(c: Client, k: nat, listeners: nat): Client
    requires WellFormed(c) && k < |c.sockets|
    decreases listeners
  {
    if listeners == 0 then c else Deliveries(Step(c, Deliver(k)), k, listeners - 1)
  }

  lemma {:induction false} StaleDeliveries(c: Client, k: nat, listeners: nat)
    requires WellFormed(c) && k < |c.sockets| && !IsCurrent(c, k)
    ensures Deliveries(c, k, listeners) == c
    decreases listeners
  {
    if listeners > 0 { StaleDeliveries(c, k, listeners - 1); }
  }

  // It does not matter that the generation moves on before the timer and the socket go.
  lemma NewGenerationFirst(c: Client)
    requires WellFormed(c)
    ensures CloseHeld(ClearTimer(c.(generation := c.generation + 1)))
         == CloseHeld(ClearTimer(c)).(generation := c.generation + 1)
  {
  }
}
