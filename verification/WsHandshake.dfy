// The handshake of the WebSocket client: which token is sent on which socket, what
// authenticates it, who listens, and what is reported.
module WsHandshake {
  import opened Options
  import opened WsMachine

  // ---------------------------------------------------------------- the token of a socket

  // What the last setAuth before event `i` said.
  function LastAuth(events: seq<Event>, i: nat): (Option<string>, string)
    requires i <= |events|
  {
    if i == 0 then (None, "")
    else
      match events[i - 1]
      case SetAuth(token, slug) => (token, slug)
      case _ => LastAuth(events, i - 1)
  }

  // Socket `k` was opened by event `b`, a connect() or a timer that reconnects.
  ghost predicate OpenedBy(states: seq<Client>, events: seq<Event>, b: nat, k: nat)
    requires b < |events| < |states|
  {
    |states[b].sockets| <= k < |states[b + 1].sockets|
  }

  // The parts of the client that opening and closing sockets leave alone.
  predicate SameAuth(c: Client, next: Client) {
    next.cookieAuth == c.cookieAuth && next.token == c.token && next.slug == c.slug
  }

  // Sockets keep the token and the workspace they were opened with.
  ghost predicate KeepsSockets(c: Client, next: Client) {
    && |c.sockets| <= |next.sockets|
    && (forall j :: 0 <= j < |c.sockets| ==>
          next.sockets[j].token == c.sockets[j].token && next.sockets[j].slug == c.sockets[j].slug)
  }

  ghost predicate KeepsAuthenticated(c: Client, next: Client) {
    && |c.sockets| <= |next.sockets|
    && (forall j :: 0 <= j < |c.sockets| ==> next.sockets[j].authenticated == c.sockets[j].authenticated)
  }

  lemma ConnectedShape(c: Client)
    requires WellFormed(c)
    ensures var next := Connected(c);
      && SameAuth(c, next) && KeepsSockets(c, next) && KeepsAuthenticated(c, next)
      && |next.sockets| == |c.sockets| + 1
      && next.sockets[|c.sockets|].token == c.token && next.sockets[|c.sockets|].slug == c.slug
      && !next.sockets[|c.sockets|].authenticated
  {
  }

  lemma DisconnectedShape(c: Client)
    requires WellFormed(c)
    ensures var next := Disconnected(c);
      && SameAuth(c, next) && KeepsSockets(c, next) && KeepsAuthenticated(c, next)
      && |next.sockets| == |c.sockets|
  {
  }

  predicate OpensOrCloses(event: Event) {
    event.Connect? || event.TimerFires? || event.Disconnect?
  }

  // What a step does to a client when it opens a socket, disconnects, or lets a timer pass.
  lemma OpensOrClosesShape(c: Client, event: Event)
    requires WellFormed(c) && Enabled(c, event) && OpensOrCloses(event)
    ensures var next := Step(c, event);
      && SameAuth(c, next) && KeepsSockets(c, next) && KeepsAuthenticated(c, next)
      && |next.sockets| <= |c.sockets| + 1
      && (|next.sockets| > |c.sockets| ==>
            && !event.Disconnect?
            && next.sockets[|c.sockets|].token == c.token && next.sockets[|c.sockets|].slug == c.slug
            && !next.sockets[|c.sockets|].authenticated)
  {
    match event {
      case Connect => ConnectedShape(c);
      case Disconnect => DisconnectedShape(c);
      case TimerFires(t) =>
        var fired := c.(timers := c.timers[t := c.timers[t].(armed := false)]);
        ConnectedShape(fired);
    }
  }

  lemma AuthenticatedShape(c: Client, k: nat)
    requires k < |c.sockets|
    ensures var next := Authenticated(c, k);
      SameAuth(c, next) && |next.sockets| == |c.sockets| && KeepsSockets(c, next)
  {
  }

  lemma FrameShape(c: Client, event: Event)
    requires WellFormed(c) && Enabled(c, event) && (event.Opened? || event.Received?)
    ensures var next := Step(c, event);
      SameAuth(c, next) && |next.sockets| == |c.sockets| && KeepsSockets(c, next)
  {
    AuthenticatedShape(c, event.k);
  }

  lemma ClosedShape(c: Client, event: Event)
    requires WellFormed(c) && Enabled(c, event) && event.Closed?
    ensures var next := Step(c, event);
      SameAuth(c, next) && |next.sockets| == |c.sockets| && KeepsSockets(c, next)
  {
  }

  lemma RestShape(c: Client, event: Event)
    requires WellFormed(c) && Enabled(c, event)
    requires !OpensOrCloses(event) && !event.Opened? && !event.Received? && !event.Closed?
    ensures var next := Step(c, event);
      && |next.sockets| == |c.sockets| && KeepsSockets(c, next)
      && next.cookieAuth == c.cookieAuth && (!event.SetAuth? ==> SameAuth(c, next))
  {
  }

  lemma OthersShape(c: Client, event: Event)
    requires WellFormed(c) && Enabled(c, event) && !OpensOrCloses(event)
    ensures var next := Step(c, event);
      && |next.sockets| == |c.sockets| && KeepsSockets(c, next)
      && next.cookieAuth == c.cookieAuth && (!event.SetAuth? ==> SameAuth(c, next))
  {
    if event.Opened? || event.Received? { FrameShape(c, event); }
    else if event.Closed? { ClosedShape(c, event); }
    else { RestShape(c, event); }
  }

  lemma AuthStep(c: Client, event: Event)
    requires WellFormed(c) && Enabled(c, event)
    ensures var next := Step(c, event);
      && next.cookieAuth == c.cookieAuth
      && (event.SetAuth? ==> next.token == event.token && next.slug == event.slug)
      && (!event.SetAuth? ==> next.token == c.token && next.slug == c.slug)
  {
    if OpensOrCloses(event) { OpensOrClosesShape(c, event); } else { OthersShape(c, event); }
  }

  lemma {:induction false} AuthIsLast(states: seq<Client>, events: seq<Event>, i: nat)
    requires IsRun(states, events) && i < |states|
    ensures (states[i].token, states[i].slug) == LastAuth(events, i)
    ensures states[i].cookieAuth == states[0].cookieAuth
  {
    if i > 0 {
      AuthIsLast(states, events, i - 1);
      RunKeepsInv(states, events, i - 1);
      AuthStep(states[i - 1], events[i - 1]);
    }
  }

  lemma SocketStep(c: Client, event: Event, k: nat)
    requires WellFormed(c) && Enabled(c, event)
    ensures var next := Step(c, event);
      && |c.sockets| <= |next.sockets|
      && (k < |c.sockets| ==>
            next.sockets[k].token == c.sockets[k].token && next.sockets[k].slug == c.sockets[k].slug)
      && (|c.sockets| <= k < |next.sockets| ==>
            && next.sockets[k].token == c.token && next.sockets[k].slug == c.slug
            && !next.sockets[k].authenticated && (event.Connect? || event.TimerFires?))
  {
    if OpensOrCloses(event) { OpensOrClosesShape(c, event); } else { OthersShape(c, event); }
  }

  lemma {:induction false} SocketHasLastAuth(states: seq<Client>, events: seq<Event>, b: nat, k: nat, i: nat)
    requires IsRun(states, events) && b < i < |states| && OpenedBy(states, events, b, k)
    ensures k < |states[i].sockets|
    ensures (states[i].sockets[k].token, states[i].sockets[k].slug) == LastAuth(events, b)
    decreases i
  {
    RunKeepsInv(states, events, i - 1);
    SocketStep(states[i - 1], events[i - 1], k);
    if b == i - 1 {
      AuthIsLast(states, events, b);
    } else {
      SocketHasLastAuth(states, events, b, k, i - 1);
    }
  }

  // ---------------------------------------------------------------- opening

  lemma OpeningStep(c: Client, k: nat)
    requires Inv(c) && c.ws == Some(k)
    ensures var next, token := Step(c, Opened(k)), c.sockets[k].token;
      if c.cookieAuth || token == None || token == Some("") then
        next.authFrames == c.authFrames && next.sockets == c.sockets[k := c.sockets[k].(authenticated := true)]
      else next.authFrames == c.authFrames + [(k, token.value)] && next.sockets == c.sockets
  {
    assert SocketOk(c, k);
  }

  // Over every run: when the held socket opens in token mode, and the last setAuth before it
  // was opened gave a token, exactly this token is sent on it and it is not authenticated yet.
  // In cookie mode, and without a token, nothing is sent and opening authenticates.
  lemma OpeningOutcome(states: seq<Client>, events: seq<Event>, b: nat, k: nat, i: nat)
    requires IsRun(states, events) && b < i < |events| && OpenedBy(states, events, b, k)
    requires events[i] == Opened(k) && states[i].ws == Some(k)
    ensures var token, c, next := LastAuth(events, b).0, states[i], states[i + 1];
      if states[0].cookieAuth || token == None || token == Some("") then
        next.authFrames == c.authFrames && next.sockets == c.sockets[k := c.sockets[k].(authenticated := true)]
      else next.authFrames == c.authFrames + [(k, token.value)] && next.sockets == c.sockets
  {
    RunKeepsInv(states, events, i);
    AuthIsLast(states, events, i);
    SocketHasLastAuth(states, events, b, k, i);
    OpeningStep(states[i], k);
  }

  lemma OpensOrClosesSendsNothing(c: Client, event: Event)
    requires WellFormed(c) && Enabled(c, event) && (OpensOrCloses(event) || event.Closed?)
    ensures Step(c, event).authFrames == c.authFrames
  {
  }

  lemma FramesStep(c: Client, event: Event)
    requires WellFormed(c) && Enabled(c, event)
    ensures Step(c, event).authFrames != c.authFrames ==> !c.cookieAuth && event.Opened? && c.ws == Some(event.k)
  {
    if OpensOrCloses(event) || event.Closed? { OpensOrClosesSendsNothing(c, event); }
  }

  // Auth frames are sent where the held socket opens, and never in cookie mode.
  lemma {:induction false} CookieModeSendsNoToken(states: seq<Client>, events: seq<Event>, i: nat)
    requires IsRun(states, events) && i < |states| && states[0].cookieAuth
    ensures states[i].authFrames == []
  {
    if i > 0 {
      CookieModeSendsNoToken(states, events, i - 1);
      RunKeepsInv(states, events, i - 1);
      AuthIsLast(states, events, i - 1);
      FramesStep(states[i - 1], events[i - 1]);
    }
  }

  lemma AuthenticationStep(c: Client, event: Event, k: nat)
    requires WellFormed(c) && Enabled(c, event) && k < |c.sockets| && !c.sockets[k].authenticated
    ensures var next, token := Step(c, event), c.sockets[k].token;
      k < |next.sockets|
      && (next.sockets[k].authenticated ==>
            c.ws == Some(k)
            && (event == Received(k, AuthAck)
                || (event == Opened(k) && (c.cookieAuth || token == None || token == Some("")))))
  {
    if OpensOrCloses(event) { OpensOrClosesShape(c, event); } else { OthersAuthenticate(c, event, k); }
  }

  lemma OthersAuthenticate(c: Client, event: Event, k: nat)
    requires WellFormed(c) && Enabled(c, event) && !OpensOrCloses(event)
    requires k < |c.sockets| && !c.sockets[k].authenticated
    ensures var next, token := Step(c, event), c.sockets[k].token;
      k < |next.sockets|
      && (next.sockets[k].authenticated ==>
            c.ws == Some(k)
            && (event == Received(k, AuthAck)
                || (event == Opened(k) && (c.cookieAuth || token == None || token == Some("")))))
  {
    match event {
      case Opened(j) =>
      case Received(j, _) =>
      case _ =>
    }
  }

  lemma AckStep(c: Client, k: nat)
    requires Inv(c) && c.ws == Some(k)
    ensures Step(c, Received(k, AuthAck)).sockets[k].authenticated
  {
    assert SocketOk(c, k);
  }

  // A socket that has sent its token is authenticated by its own acknowledgement and by nothing
  // else, and any acknowledgement of the held socket authenticates it.
  lemma OnlyAckAuthenticates(states: seq<Client>, events: seq<Event>, b: nat, k: nat, i: nat)
    requires IsRun(states, events) && b < i < |events| && OpenedBy(states, events, b, k)
    requires k < |states[i].sockets| ==> !states[i].sockets[k].authenticated
    requires !states[0].cookieAuth && LastAuth(events, b).0.Some? && LastAuth(events, b).0 != Some("")
    ensures k < |states[i + 1].sockets|
    ensures states[i + 1].sockets[k].authenticated <==> states[i].ws == Some(k) && events[i] == Received(k, AuthAck)
  {
    RunKeepsInv(states, events, i);
    AuthIsLast(states, events, i);
    SocketHasLastAuth(states, events, b, k, i);
    AuthenticationStep(states[i], events[i], k);
    if states[i].ws == Some(k) { AckStep(states[i], k); }
  }

  // ---------------------------------------------------------------- listeners

  // Who is registered: everyone added since the last disconnect and not removed again.
  function Registered(events: seq<Event>, recovery: bool, i: nat): set<nat>
    requires i <= |events|
  {
    if i == 0 then {}
    else
      var before := Registered(events, recovery, i - 1);
      match events[i - 1]
      case Listen(r, id) => if r == recovery then before + {id} else before
      case Unlisten(r, id) => if r == recovery then before - {id} else before
      case Disconnect => {}
      case _ => before
  }

  lemma ListenerStep(c: Client, event: Event)
    requires WellFormed(c) && Enabled(c, event)
    ensures var next := Step(c, event);
      match event
      case Listen(r, id) =>
        if r then next.recoveryCallbacks == c.recoveryCallbacks + {id} && next.handlers == c.handlers
        else next.handlers == c.handlers + {id} && next.recoveryCallbacks == c.recoveryCallbacks
      case Unlisten(r, id) =>
        if r then next.recoveryCallbacks == c.recoveryCallbacks - {id} && next.handlers == c.handlers
        else next.handlers == c.handlers - {id} && next.recoveryCallbacks == c.recoveryCallbacks
      case Disconnect => next.handlers == {} && next.recoveryCallbacks == {}
      case _ => next.handlers == c.handlers && next.recoveryCallbacks == c.recoveryCallbacks
  {
  }

  lemma {:induction false} ListenersAreRegistered(states: seq<Client>, events: seq<Event>, i: nat)
    requires IsRun(states, events) && i < |states|
    ensures states[i].handlers == Registered(events, false, i)
    ensures states[i].recoveryCallbacks == Registered(events, true, i)
  {
    if i > 0 {
      ListenersAreRegistered(states, events, i - 1);
      RunKeepsInv(states, events, i - 1);
      ListenerStep(states[i - 1], events[i - 1]);
    }
  }

  // ---------------------------------------------------------------- bad frames

  ghost predicate Arrives(states: seq<Client>, events: seq<Event>, i: nat, frame: Frame)
    requires i < |events| < |states|
  {
    events[i].Received? && states[i].ws == Some(events[i].k) && events[i].frame == frame
  }

  // An invalid frame arrived since the last connect.
  ghost predicate SawInvalid(states: seq<Client>, events: seq<Event>, i: nat)
    requires i <= |events| < |states|
  {
    i > 0 && |states[i].sockets| == |states[i - 1].sockets|
    && (Arrives(states, events, i - 1, Invalid) || SawInvalid(states, events, i - 1))
  }

  // The reports after a step.
  ghost predicate Reports(c: Client, event: Event, next: Client) {
    var held := event.Received? && c.ws == Some(event.k);
    && next.badFrames == c.badFrames +
         (if held && (event.frame == Unparseable || (event.frame == Invalid && !c.badFrameLogged)) then 1 else 0)
    && (|next.sockets| == |c.sockets| ==>
          next.badFrameLogged == (c.badFrameLogged || (held && event.frame == Invalid)))
    && (|next.sockets| != |c.sockets| ==> !next.badFrameLogged)
  }

  lemma OpensOrClosesReports(c: Client, event: Event)
    requires WellFormed(c) && Enabled(c, event) && (OpensOrCloses(event) || event.Closed?)
    ensures Reports(c, event, Step(c, event))
  {
  }

  lemma FrameStep(c: Client, event: Event)
    requires Inv(c) && Enabled(c, event)
    ensures Reports(c, event, Step(c, event))
  {
    if OpensOrCloses(event) || event.Closed? {
      OpensOrClosesReports(c, event);
    } else if event.Received? && c.ws == Some(event.k) {
      assert SocketOk(c, event.k);
    }
  }

  lemma {:induction false} LoggedMeansInvalid(states: seq<Client>, events: seq<Event>, i: nat)
    requires IsRun(states, events) && i < |states|
    ensures states[i].badFrameLogged == SawInvalid(states, events, i)
  {
    if i > 0 {
      LoggedMeansInvalid(states, events, i - 1);
      RunKeepsInv(states, events, i - 1);
      FrameStep(states[i - 1], events[i - 1]);
    }
  }

  // Every unparseable frame of the held socket is reported, and of its invalid frames the first
  // one since the last connect.
  lemma BadFramesAreReported(states: seq<Client>, events: seq<Event>, i: nat)
    requires IsRun(states, events) && i < |events|
    ensures states[i + 1].badFrames == states[i].badFrames +
      if Arrives(states, events, i, Unparseable) || (Arrives(states, events, i, Invalid) && !SawInvalid(states, events, i))
      then 1 else 0
  {
    RunKeepsInv(states, events, i);
    LoggedMeansInvalid(states, events, i);
    FrameStep(states[i], events[i]);
  }

  // ---------------------------------------------------------------- messages

  // A listener call of the held socket goes through, and one of any other socket does not.
  lemma DeliveryOutcome(states: seq<Client>, events: seq<Event>, k: nat, i: nat)
    requires IsRun(states, events) && i < |events| && events[i] == Deliver(k)
    ensures states[i + 1] ==
      if states[i].ws == Some(k) then states[i].(deliveries := states[i].deliveries + [k]) else states[i]
  {
    RunKeepsInv(states, events, i);
    if states[i].ws == Some(k) { assert SocketOk(states[i], k); }
  }
}
