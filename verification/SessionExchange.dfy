// The exchange of a Clerk session for a Go API session as a transition system
// (clerk-auth-adapter.tsx with the auth store).
module SessionExchange {
  import opened Options
  import opened Reachability

  datatype Status = Authenticating | Authenticated | Unauthenticated | Recovering

  // The API user, tagged with the epoch whose exchange wrote it.
  datatype Login = Login(epoch: nat, userName: string)

  datatype AuthState = AuthState(
    user: Option<Login>, isLoading: bool, status: Status, retryGeneration: nat,
    bearer: Option<string>, persisted: Option<string>)

  datatype Identity = Identity(sessionId: string, userId: string)

  // What Clerk last rendered.
  datatype Props = Props(loaded: bool, signedIn: bool, sessionId: Option<string>, userId: Option<string>)

  datatype Promise = Waiting | Resolved | Rejected

  datatype Outcome = Cancelled | Exchanged | SignedOut | LogoutFailed

  datatype Pc =
    | AwaitBarrier
    | AwaitToken
    | AwaitLogin
    | LoggedIn                        // the store is written, the adapter has not resumed yet
    | RetryArmed(delay: nat)
    | AwaitRejectionLogout(logout: nat)
    | Finished(outcome: Outcome)

  // The closure of one effect run, with its own program counter. `rejected` records a permanent
  // rejection.
  datatype Epoch = Epoch(
    sessionId: Option<string>, userId: string, barrier: nat,
    cancelled: bool, aborted: bool, retryIndex: nat, pc: Pc, rejected: bool)

  datatype System = System(
    cookieAuth: bool, store: AuthState, props: Props, identity: Option<Identity>,
    barrier: nat, logouts: seq<Promise>, epochs: seq<Epoch>, current: Option<nat>, signOuts: nat, mounted: bool)

  // One event for every point where an await or a timer hands control back.
  datatype Event =
    | Render(props: Props)
    | RunEffect
    | Unmount
    | LogoutSettles(logout: nat, ok: bool)
    | BarrierSettles(e: nat)
    | TokenArrives(e: nat, token: Option<string>)
    | LoginSucceeds(e: nat, userName: string, bearer: string)
    | ExchangeFails(e: nat, status: Option<int>)
    | AdapterResumes(e: nat)
    | RejectionLogoutSettles(e: nat)
    | TimerFires(e: nat)
    | ExternalLogout
    | RetryAuthentication

  const RETRY_DELAYS_MS: seq<nat> := [1000, 2000, 4000, 8000, 16000, 30000]

  function RetryDelay(retryIndex: nat): nat {
    RETRY_DELAYS_MS[if retryIndex < |RETRY_DELAYS_MS| - 1 then retryIndex else |RETRY_DELAYS_MS| - 1]
  }

  predicate PermanentRejection(status: Option<int>) {
    status.Some? && 400 <= status.value < 500 && status.value != 408 && status.value != 429
  }

  predicate Present(text: Option<string>) { text.Some? && text.value != "" }

  // ---------------------------------------------------------------- specification

  function Init(cookieAuth: bool, props: Props): System {
    System(cookieAuth, AuthState(None, true, Authenticating, 0, None, None), props, None, 0, [Resolved], [], None, 0, false)
  }

  function LoggedOut(store: AuthState): AuthState {
    store.(user := None, isLoading := false, status := Unauthenticated, bearer := None, persisted := None)
  }

  function Attempting(store: AuthState, status: Status): AuthState {
    store.(user := None, isLoading := true, status := status)
  }

  function LoginWritten(cookieAuth: bool, store: AuthState, login: Login, token: string): AuthState {
    store.(user := Some(login), isLoading := false, status := Authenticated,
           bearer := if cookieAuth then None else Some(token),
           persisted := if cookieAuth then store.persisted else Some(token))
  }

  function Logout(s: System): System {
    s.(store := LoggedOut(s.store), logouts := s.logouts + [Waiting])
  }

  function SetPc(s: System, e: nat, pc: Pc): System
    requires e < |s.epochs|
  {
    s.(epochs := s.epochs[e := s.epochs[e].(pc := pc)])
  }

  // The cleanup of the effect run that is still mounted.
  function Cleanup(s: System): System
    requires s.current.Some? ==> s.current.value < |s.epochs|
  {
    if s.current.None? then s
    else
      var e := s.current.value;
      var epoch := s.epochs[e];
      var pc := if epoch.pc.RetryArmed? then Finished(Cancelled) else epoch.pc;
      s.(epochs := s.epochs[e := epoch.(cancelled := true, aborted := true, pc := pc)], current := None)
  }

  function Setup(s: System): System {
    var cleared := s.(identity := None);
    if !s.props.loaded then cleared
    else if !s.props.signedIn || !Present(s.props.userId) then
      Logout(cleared).(barrier := |s.logouts|)
    else
      var epoch := Epoch(s.props.sessionId, s.props.userId.value, s.barrier, false, false, 0, AwaitBarrier, false);
      cleared.(epochs := s.epochs + [epoch], current := Some(|s.epochs|))
  }

  // The catch block of one exchange.
  function Caught(s: System, e: nat, status: Option<int>): System
    requires e < |s.epochs|
  {
    var epoch := s.epochs[e];
    if epoch.cancelled || epoch.aborted then SetPc(s, e, Finished(Cancelled))
    else if PermanentRejection(status) then
      var out := Logout(s).(barrier := |s.logouts|);
      out.(epochs := s.epochs[e := epoch.(pc := AwaitRejectionLogout(|s.logouts|), rejected := true)])
    else
      var next := epoch.(retryIndex := epoch.retryIndex + 1, pc := RetryArmed(RetryDelay(epoch.retryIndex)));
      s.(store := Attempting(s.store, Recovering), epochs := s.epochs[e := next])
  }

  predicate WellFormed(s: System) {
    && s.barrier < |s.logouts|
    && (s.current.Some? ==> s.current.value < |s.epochs|)
    && (forall e :: 0 <= e < |s.epochs| ==>
          && s.epochs[e].barrier < |s.logouts|
          && (s.epochs[e].pc.AwaitRejectionLogout? ==> s.epochs[e].pc.logout < |s.logouts|))
  }

  predicate Enabled(s: System, event: Event)
    requires WellFormed(s)
  {
    match event
    case LogoutSettles(l, _) => l < |s.logouts| && s.logouts[l] == Waiting
    case BarrierSettles(e) =>
      e < |s.epochs| && s.epochs[e].pc == AwaitBarrier && s.logouts[s.epochs[e].barrier] != Waiting
    case TokenArrives(e, _) => e < |s.epochs| && s.epochs[e].pc == AwaitToken
    case LoginSucceeds(e, _, _) => e < |s.epochs| && s.epochs[e].pc == AwaitLogin
    case ExchangeFails(e, status) =>
      e < |s.epochs| && (s.epochs[e].pc == AwaitLogin || (s.epochs[e].pc == AwaitToken && status == None))
    case AdapterResumes(e) => e < |s.epochs| && s.epochs[e].pc == LoggedIn
    case RejectionLogoutSettles(e) =>
      e < |s.epochs| && s.epochs[e].pc.AwaitRejectionLogout? && s.logouts[s.epochs[e].pc.logout] != Waiting
    case TimerFires(e) => e < |s.epochs| && s.epochs[e].pc.RetryArmed?
    case _ => true
  }

  function Step(s: System, event: Event): System
    requires WellFormed(s) && Enabled(s, event)
  {
    match event
    case Render(props) => s.(props := props)
    case RunEffect => Setup(Cleanup(s)).(mounted := true)
    case Unmount => Cleanup(s).(mounted := false)
    case LogoutSettles(l, ok) => s.(logouts := s.logouts[l := if ok then Resolved else Rejected])
    case BarrierSettles(e) =>
      var epoch := s.epochs[e];
      if s.logouts[epoch.barrier] == Rejected then SetPc(s, e, Finished(LogoutFailed))
      else if epoch.cancelled then SetPc(s, e, Finished(Cancelled))
      else
        s.(store := Attempting(s.store, if epoch.retryIndex == 0 then Authenticating else Recovering),
           epochs := s.epochs[e := epoch.(pc := AwaitToken, aborted := false)])
    case TokenArrives(e, token) =>
      if Present(token) then SetPc(s, e, AwaitLogin) else Caught(s, e, None)
    case LoginSucceeds(e, userName, bearer) =>
      if s.epochs[e].aborted then Caught(s, e, None)
      else SetPc(s, e, LoggedIn).(store := LoginWritten(s.cookieAuth, s.store, Login(e, userName), bearer))
    case ExchangeFails(e, status) => Caught(s, e, status)
    case AdapterResumes(e) =>
      var epoch := s.epochs[e];
      var done := SetPc(s, e, Finished(if epoch.cancelled then Cancelled else Exchanged));
      if !epoch.cancelled && Present(epoch.sessionId) then
        done.(identity := Some(Identity(epoch.sessionId.value, epoch.userId)))
      else done
    case RejectionLogoutSettles(e) =>
      var epoch := s.epochs[e];
      if s.logouts[epoch.pc.logout] == Rejected then SetPc(s, e, Finished(LogoutFailed))
      else if epoch.cancelled then SetPc(s, e, Finished(Cancelled))
      else SetPc(s, e, Finished(SignedOut)).(signOuts := s.signOuts + 1)
    case TimerFires(e) => SetPc(s, e, AwaitBarrier)
    case ExternalLogout => Logout(s)
    case RetryAuthentication =>
      s.(store := s.store.(isLoading := true, status := Authenticating, retryGeneration := s.store.retryGeneration + 1))
  }

  // True only after the current Clerk session has become a Go API session.
  predicate ExchangeReady(s: System) {
    && s.props.loaded && s.props.signedIn
    && s.store.status == Authenticated
    && Present(s.props.sessionId)
    && s.identity.Some?
    && s.identity.value.sessionId == s.props.sessionId.value
    && s.props.userId == Some(s.identity.value.userId)
  }

  // ---------------------------------------------------------------- invariant

  // The exchange has attempted at least one login request or is about to.
  ghost predicate PastBarrier(epoch: Epoch) {
    || epoch.pc.AwaitToken? || epoch.pc.AwaitLogin? || epoch.pc.LoggedIn? || epoch.pc.RetryArmed?
    || epoch.pc == Finished(Exchanged) || epoch.retryIndex > 0 || epoch.rejected
  }

  ghost predicate EpochOk(logouts: seq<Promise>, epoch: Epoch, mounted: bool)
    requires epoch.barrier < |logouts|
  {
    // the mounted epoch is the only one that is not cancelled
    && (!epoch.cancelled <==> mounted)
    && (epoch.cancelled && !epoch.pc.AwaitBarrier? && !epoch.pc.Finished? ==> epoch.aborted)
    && (!epoch.cancelled && (epoch.pc.AwaitToken? || epoch.pc.AwaitLogin? || epoch.pc.LoggedIn?) ==> !epoch.aborted)
    // past the barrier, the logout it stands for has resolved
    && (PastBarrier(epoch) ==> logouts[epoch.barrier] == Resolved)
    // timers: cleared by cleanup, armed with the next delay of the table
    && (epoch.pc.RetryArmed? ==>
          !epoch.cancelled && epoch.retryIndex > 0 && epoch.pc.delay == RetryDelay(epoch.retryIndex - 1))
    // a permanent rejection leaves nothing but the sign-out
    && (epoch.rejected ==> epoch.pc.AwaitRejectionLogout? || epoch.pc.Finished?)
    && (epoch.pc.AwaitRejectionLogout? ==> epoch.rejected)
    // an epoch that is not cancelled never stops without a reason
    && (epoch.pc == Finished(Cancelled) ==> epoch.cancelled)
    && (epoch.pc == Finished(Exchanged) ==> !epoch.rejected)
  }

  // The mounted epoch has cleared what an earlier session left in the store.
  ghost predicate Began(epoch: Epoch) {
    epoch.pc != Finished(LogoutFailed) && (epoch.retryIndex > 0 || !epoch.pc.AwaitBarrier?)
  }

  ghost predicate Inv(s: System) {
    && WellFormed(s)
    && (forall e :: 0 <= e < |s.epochs| ==> EpochOk(s.logouts, s.epochs[e], s.current == Some(e)))
    && (s.store.status == Authenticated ==> s.store.user.Some?)
    && (s.store.user.Some? ==> s.store.user.value.epoch < |s.epochs|)
    && (s.mounted && s.identity.Some? ==> s.current.Some?)
    && (s.current.Some? ==> CurrentOk(s, s.epochs[s.current.value]))
    && (s.cookieAuth ==> s.store.bearer == None)
  }

  ghost predicate CurrentOk(s: System, epoch: Epoch)
    requires s.current.Some?
  {
    // the stored identity is empty or that of the mounted epoch, whose exchange completed
    && (s.identity.Some? ==>
          && epoch.pc == Finished(Exchanged)
          && epoch.sessionId == Some(s.identity.value.sessionId)
          && epoch.userId == s.identity.value.userId)
    && (epoch.pc == Finished(Exchanged) && Present(epoch.sessionId) ==> s.identity.Some?)
    // no other epoch's user is in the store once the mounted epoch has begun
    && (Began(epoch) && s.store.user.Some? ==> s.store.user.value.epoch == s.current.value)
  }

  lemma InitOk(cookieAuth: bool, props: Props)
    ensures Inv(Init(cookieAuth, props))
  {
  }

  lemma CleanupKeepsInv(s: System)
    requires Inv(s)
    ensures Inv(Cleanup(s).(mounted := false))
    ensures Cleanup(s).current.None?
  {
  }

  lemma SetupKeepsInv(s: System)
    requires Inv(s) && s.current.None?
    ensures Inv(Setup(s).(mounted := true))
  {
  }

  lemma CaughtKeepsInv(s: System, e: nat, status: Option<int>)
    requires Inv(s) && e < |s.epochs|
    requires s.epochs[e].pc.AwaitToken? || s.epochs[e].pc.AwaitLogin?
    ensures Inv(Caught(s, e, status))
  {
    assert EpochOk(s.logouts, s.epochs[e], s.current == Some(e));
    if s.epochs[e].cancelled || s.epochs[e].aborted {
      FinishKeepsInv(s, e, Cancelled);
    } else if PermanentRejection(status) {
      RejectedKeepsInv(s, e, status);
    } else {
      RetryKeepsInv(s, e, status);
    }
  }

  lemma RejectedKeepsInv(s: System, e: nat, status: Option<int>)
    requires Inv(s) && e < |s.epochs| && (s.epochs[e].pc.AwaitToken? || s.epochs[e].pc.AwaitLogin?)
    requires !s.epochs[e].cancelled && !s.epochs[e].aborted && PermanentRejection(status)
    ensures Inv(Caught(s, e, status))
  {
    var next := Caught(s, e, status);
    assert WellFormed(next);
    assert EpochOk(s.logouts, s.epochs[e], s.current == Some(e));
    assert EpochOk(next.logouts, next.epochs[e], next.current == Some(e));
  }

  lemma RetryKeepsInv(s: System, e: nat, status: Option<int>)
    requires Inv(s) && e < |s.epochs| && (s.epochs[e].pc.AwaitToken? || s.epochs[e].pc.AwaitLogin?)
    requires !s.epochs[e].cancelled && !s.epochs[e].aborted && !PermanentRejection(status)
    ensures Inv(Caught(s, e, status))
  {
    var next := Caught(s, e, status);
    assert WellFormed(next);
    assert EpochOk(s.logouts, s.epochs[e], s.current == Some(e));
    assert EpochOk(next.logouts, next.epochs[e], next.current == Some(e));
  }

  // A step that ends an exchange without touching the store or the stored identity.
  lemma FinishKeepsInv(s: System, e: nat, outcome: Outcome)
    requires Inv(s) && e < |s.epochs|
    requires outcome == Cancelled ==> s.epochs[e].cancelled
    requires outcome != Exchanged && !s.epochs[e].pc.Finished?
    requires outcome != LogoutFailed ==> !s.epochs[e].pc.AwaitBarrier? || s.epochs[e].cancelled
    ensures Inv(SetPc(s, e, Finished(outcome)))
  {
    var next := SetPc(s, e, Finished(outcome));
    assert WellFormed(next);
    assert EpochOk(s.logouts, s.epochs[e], s.current == Some(e));
    assert EpochOk(next.logouts, next.epochs[e], next.current == Some(e));
  }

  lemma BeginKeepsInv(s: System, e: nat)
    requires Inv(s) && Enabled(s, BarrierSettles(e))
    requires s.logouts[s.epochs[e].barrier] == Resolved && !s.epochs[e].cancelled
    ensures Inv(Step(s, BarrierSettles(e)))
  {
    var next := Step(s, BarrierSettles(e));
    assert WellFormed(next);
    assert EpochOk(s.logouts, s.epochs[e], s.current == Some(e));
    assert EpochOk(next.logouts, next.epochs[e], next.current == Some(e));
  }

  lemma BarrierSettlesKeepsInv(s: System, e: nat)
    requires Inv(s) && Enabled(s, BarrierSettles(e))
    ensures Inv(Step(s, BarrierSettles(e)))
  {
    if s.logouts[s.epochs[e].barrier] == Rejected {
      FinishKeepsInv(s, e, LogoutFailed);
    } else if s.epochs[e].cancelled {
      FinishKeepsInv(s, e, Cancelled);
    } else {
      BeginKeepsInv(s, e);
    }
  }

  lemma AdapterResumesKeepsInv(s: System, e: nat)
    requires Inv(s) && Enabled(s, AdapterResumes(e))
    ensures Inv(Step(s, AdapterResumes(e)))
  {
    if s.epochs[e].cancelled {
      FinishKeepsInv(s, e, Cancelled);
    } else {
      var next := Step(s, AdapterResumes(e));
      assert WellFormed(next);
      assert EpochOk(s.logouts, s.epochs[e], s.current == Some(e));
      assert EpochOk(next.logouts, next.epochs[e], next.current == Some(e));
    }
  }

  lemma RejectionLogoutSettlesKeepsInv(s: System, e: nat)
    requires Inv(s) && Enabled(s, RejectionLogoutSettles(e))
    ensures Inv(Step(s, RejectionLogoutSettles(e)))
  {
    if s.logouts[s.epochs[e].pc.logout] == Rejected {
      FinishKeepsInv(s, e, LogoutFailed);
    } else if s.epochs[e].cancelled {
      FinishKeepsInv(s, e, Cancelled);
    } else {
      FinishKeepsInv(s, e, SignedOut);
    }
  }

  lemma TimerFiresKeepsInv(s: System, e: nat)
    requires Inv(s) && Enabled(s, TimerFires(e))
    ensures Inv(Step(s, TimerFires(e)))
  {
  }

  lemma TokenArrivesKeepsInv(s: System, e: nat, token: Option<string>)
    requires Inv(s) && Enabled(s, TokenArrives(e, token))
    ensures Inv(Step(s, TokenArrives(e, token)))
  {
    if !Present(token) { CaughtKeepsInv(s, e, None); }
  }

  lemma LoginSucceedsKeepsInv(s: System, e: nat, userName: string, bearer: string)
    requires Inv(s) && Enabled(s, LoginSucceeds(e, userName, bearer))
    ensures Inv(Step(s, LoginSucceeds(e, userName, bearer)))
  {
    if s.epochs[e].aborted { CaughtKeepsInv(s, e, None); }
  }

  lemma RunEffectKeepsInv(s: System)
    requires Inv(s)
    ensures Inv(Step(s, RunEffect))
  {
    CleanupKeepsInv(s);
    var cleaned := Cleanup(s).(mounted := false);
    SetupKeepsInv(cleaned);
    assert Setup(cleaned).(mounted := true) == Setup(Cleanup(s)).(mounted := true);
  }

  lemma OutsideKeepsInv(s: System, event: Event)
    requires Inv(s) && Enabled(s, event)
    requires event.Render? || event.LogoutSettles? || event.ExternalLogout? || event.RetryAuthentication?
    ensures Inv(Step(s, event))
  {
  }

  lemma StepKeepsInv(s: System, event: Event)
    requires Inv(s) && Enabled(s, event)
    ensures Inv(Step(s, event))
  {
    match event {
      case RunEffect => RunEffectKeepsInv(s);
      case Unmount => CleanupKeepsInv(s);
      case BarrierSettles(e) => BarrierSettlesKeepsInv(s, e);
      case AdapterResumes(e) => AdapterResumesKeepsInv(s, e);
      case RejectionLogoutSettles(e) => RejectionLogoutSettlesKeepsInv(s, e);
      case TimerFires(e) => TimerFiresKeepsInv(s, e);
      case TokenArrives(e, token) => TokenArrivesKeepsInv(s, e, token);
      case LoginSucceeds(e, userName, bearer) => LoginSucceedsKeepsInv(s, e, userName, bearer);
      case ExchangeFails(e, status) => CaughtKeepsInv(s, e, status);
      case _ => OutsideKeepsInv(s, event);
    }
  }

  // ---------------------------------------------------------------- runs

  ghost predicate IsStep(s: System, event: Event, t: System) {
    WellFormed(s) && Enabled(s, event) && t == Step(s, event)
  }

  ghost predicate IsRun(states: seq<System>, events: seq<Event>) {
    && |states| == |events| + 1
    && (exists cookieAuth, props :: states[0] == Init(cookieAuth, props))
    && (forall i {:trigger events[i]} :: 0 <= i < |events| ==> IsStep(states[i], events[i], states[i + 1]))
  }

  lemma {:induction false} RunKeepsInv(states: seq<System>, events: seq<Event>, i: nat)
    requires IsRun(states, events) && i < |states|
    ensures Inv(states[i])
  {
    if i == 0 {
      var cookieAuth, props :| states[0] == Init(cookieAuth, props);
      InitOk(cookieAuth, props);
    } else {
      RunKeepsInv(states, events, i - 1);
      StepKeepsInv(states[i - 1], events[i - 1]);
    }
  }

  // The epoch whose code an event resumes.
  function Author(event: Event): Option<nat> {
    match event
    case BarrierSettles(e) => Some(e)
    case TokenArrives(e, _) => Some(e)
    case LoginSucceeds(e, _, _) => Some(e)
    case ExchangeFails(e, _) => Some(e)
    case AdapterResumes(e) => Some(e)
    case RejectionLogoutSettles(e) => Some(e)
    case TimerFires(e) => Some(e)
    case _ => None
  }

  // What an epoch never forgets.
  ghost predicate Follows(before: Epoch, after: Epoch) {
    && after.barrier == before.barrier && after.sessionId == before.sessionId && after.userId == before.userId
    && (before.cancelled ==> after.cancelled)
    && before.retryIndex <= after.retryIndex
    && (before.rejected ==> after.rejected && after.retryIndex == before.retryIndex)
  }

  lemma StepFollows(s: System, event: Event, e: nat)
    requires Inv(s) && Enabled(s, event) && e < |s.epochs|
    ensures e < |Step(s, event).epochs| && Follows(s.epochs[e], Step(s, event).epochs[e])
  {
    match event {
      case TokenArrives(k, token) => TokenFollows(s, k, token, e);
      case LoginSucceeds(k, userName, bearer) => LoginFollows(s, k, userName, bearer, e);
      case ExchangeFails(k, status) => CaughtFollows(s, k, status, e);
      case RunEffect => MountFollows(s, e);
      case BarrierSettles(k) => BarrierFollows(s, k, e);
      case AdapterResumes(k) => AdapterFollows(s, k, e);
      case RejectionLogoutSettles(k) => RejectionFollows(s, k, e);
      case TimerFires(k) => TimerFollows(s, k, e);
      case _ => OutsideFollows(s, event, e);
    }
  }

  lemma OutsideFollows(s: System, event: Event, e: nat)
    requires Inv(s) && Enabled(s, event) && e < |s.epochs|
    requires event.Render? || event.Unmount? || event.LogoutSettles? || event.ExternalLogout? || event.RetryAuthentication?
    ensures |Step(s, event).epochs| == |s.epochs| && Follows(s.epochs[e], Step(s, event).epochs[e])
  {
  }

  lemma TokenFollows(s: System, k: nat, token: Option<string>, e: nat)
    requires Inv(s) && Enabled(s, TokenArrives(k, token)) && e < |s.epochs|
    ensures |Step(s, TokenArrives(k, token)).epochs| == |s.epochs|
    ensures Follows(s.epochs[e], Step(s, TokenArrives(k, token)).epochs[e])
  {
    if !Present(token) { CaughtFollows(s, k, None, e); }
  }

  lemma LoginFollows(s: System, k: nat, userName: string, bearer: string, e: nat)
    requires Inv(s) && Enabled(s, LoginSucceeds(k, userName, bearer)) && e < |s.epochs|
    ensures |Step(s, LoginSucceeds(k, userName, bearer)).epochs| == |s.epochs|
    ensures Follows(s.epochs[e], Step(s, LoginSucceeds(k, userName, bearer)).epochs[e])
  {
    if s.epochs[k].aborted { CaughtFollows(s, k, None, e); }
  }

  lemma AdapterFollows(s: System, k: nat, e: nat)
    requires WellFormed(s) && Enabled(s, AdapterResumes(k)) && e < |s.epochs|
    ensures |Step(s, AdapterResumes(k)).epochs| == |s.epochs|
    ensures Follows(s.epochs[e], Step(s, AdapterResumes(k)).epochs[e])
  {
  }

  lemma TimerFollows(s: System, k: nat, e: nat)
    requires WellFormed(s) && Enabled(s, TimerFires(k)) && e < |s.epochs|
    ensures |Step(s, TimerFires(k)).epochs| == |s.epochs|
    ensures Follows(s.epochs[e], Step(s, TimerFires(k)).epochs[e])
  {
  }

  lemma MountFollows(s: System, e: nat)
    requires Inv(s) && e < |s.epochs|
    ensures e < |Step(s, RunEffect).epochs| && Follows(s.epochs[e], Step(s, RunEffect).epochs[e])
  {
    assert Setup(Cleanup(s)).epochs[e] == Cleanup(s).epochs[e];
  }

  lemma BarrierFollows(s: System, k: nat, e: nat)
    requires WellFormed(s) && Enabled(s, BarrierSettles(k)) && e < |s.epochs|
    ensures |Step(s, BarrierSettles(k)).epochs| == |s.epochs|
    ensures Follows(s.epochs[e], Step(s, BarrierSettles(k)).epochs[e])
  {
  }

  lemma RejectionFollows(s: System, k: nat, e: nat)
    requires WellFormed(s) && Enabled(s, RejectionLogoutSettles(k)) && e < |s.epochs|
    ensures |Step(s, RejectionLogoutSettles(k)).epochs| == |s.epochs|
    ensures Follows(s.epochs[e], Step(s, RejectionLogoutSettles(k)).epochs[e])
  {
    var next := Step(s, RejectionLogoutSettles(k));
    assert next.epochs[e] == s.epochs[e].(pc := next.epochs[e].pc);
  }

  lemma CaughtFollows(s: System, k: nat, status: Option<int>, e: nat)
    requires Inv(s) && k < |s.epochs| && e < |s.epochs|
    requires s.epochs[k].pc.AwaitToken? || s.epochs[k].pc.AwaitLogin?
    ensures Follows(s.epochs[e], Caught(s, k, status).epochs[e])
  {
    assert EpochOk(s.logouts, s.epochs[e], s.current == Some(e));
  }

  lemma RunStepFollows(states: seq<System>, events: seq<Event>, j: nat, e: nat)
    requires IsRun(states, events) && j < |events| && e < |states[j].epochs|
    ensures e < |states[j + 1].epochs| && Follows(states[j].epochs[e], states[j + 1].epochs[e])
  {
    RunKeepsInv(states, events, j);
    StepFollows(states[j], events[j], e);
  }

  lemma {:induction false} RunFollows(states: seq<System>, events: seq<Event>, i: nat, j: nat, e: nat)
    requires IsRun(states, events) && i <= j < |states| && e < |states[i].epochs|
    ensures e < |states[j].epochs| && Follows(states[i].epochs[e], states[j].epochs[e])
    decreases j - i
  {
    if i < j {
      RunFollows(states, events, i, j - 1, e);
      RunStepFollows(states, events, j - 1, e);
    }
  }

  // ---------------------------------------------------------------- safety

  // Once its effect has been cleaned up, an exchange writes nothing: whatever response,
  // timer or logout resumes it, only its own program counter moves.
  lemma CancelledExchangeWritesNothing(states: seq<System>, events: seq<Event>, i: nat, j: nat, e: nat)
    requires IsRun(states, events) && i <= j < |events| && e < |states[i].epochs|
    requires states[i].epochs[e].cancelled && Author(events[j]) == Some(e)
    ensures e < |states[j].epochs|
    ensures exists pc :: states[j + 1] == SetPc(states[j], e, pc)
  {
    RunFollows(states, events, i, j, e);
    RunKeepsInv(states, events, j);
    var s, event := states[j], events[j];
    assert EpochOk(s.logouts, s.epochs[e], s.current == Some(e));
    var pc := Step(s, event).epochs[e].pc;
    assert Step(s, event) == SetPc(s, e, pc);
  }

  // The context value is true exactly when the mounted effect run has completed its
  // exchange for the rendered session, and then the user in the store is the one that
  // this exchange wrote.
  lemma ReadyMeansExchanged(states: seq<System>, events: seq<Event>, i: nat)
    requires IsRun(states, events) && i < |states| && states[i].mounted
    ensures var s := states[i];
      ExchangeReady(s) <==>
        && s.props.loaded && s.props.signedIn && s.store.status == Authenticated
        && s.current.Some? && s.current.value < |s.epochs|
        && var epoch := s.epochs[s.current.value];
           && epoch.pc == Finished(Exchanged)
           && Present(epoch.sessionId) && epoch.sessionId == s.props.sessionId
           && s.props.userId == Some(epoch.userId)
    ensures ExchangeReady(states[i]) ==>
      states[i].store.user.Some? && Some(states[i].store.user.value.epoch) == states[i].current
  {
    RunKeepsInv(states, events, i);
  }

  // While mounted, the stored identity is empty or that of the mounted effect run, whose
  // exchange has completed.
  lemma IdentityIsCurrent(states: seq<System>, events: seq<Event>, i: nat)
    requires IsRun(states, events) && i < |states| && states[i].mounted && states[i].identity.Some?
    ensures states[i].current.Some? && states[i].current.value < |states[i].epochs|
    ensures var epoch, identity := states[i].epochs[states[i].current.value], states[i].identity.value;
      epoch.pc == Finished(Exchanged) && epoch.sessionId == Some(identity.sessionId) && epoch.userId == identity.userId
  {
    RunKeepsInv(states, events, i);
  }

  // Whatever resumes an exchange past its barrier (a token, a response, a failure that may log
  // out or arm a retry, a retry) comes after the logout that the effect run found at its start
  // has resolved.
  lemma BarrierHolds(states: seq<System>, events: seq<Event>, i: nat, j: nat, e: nat)
    requires IsRun(states, events) && i < j < |events|
    requires events[i] == RunEffect && e == |states[i].epochs| < |states[i + 1].epochs|
    requires events[j].TokenArrives? || events[j].LoginSucceeds? || events[j].ExchangeFails?
      || events[j].AdapterResumes? || events[j].RejectionLogoutSettles? || events[j].TimerFires?
    requires Author(events[j]) == Some(e)
    ensures states[i].barrier < |states[j].logouts| && states[j].logouts[states[i].barrier] == Resolved
  {
    RunFollows(states, events, i + 1, j, e);
    RunKeepsInv(states, events, j);
    var s := states[j];
    assert EpochOk(s.logouts, s.epochs[e], s.current == Some(e));
  }

  // After a permanent rejection the epoch arms no timer and sends no further request; all
  // that is left to it is the sign-out.
  lemma RejectionIsFinal(states: seq<System>, events: seq<Event>, i: nat, j: nat, e: nat)
    requires IsRun(states, events) && i <= j < |states| && e < |states[i].epochs|
    requires states[i].epochs[e].rejected
    ensures e < |states[j].epochs|
    ensures states[j].epochs[e].pc.AwaitRejectionLogout? || states[j].epochs[e].pc.Finished?
    ensures states[j].epochs[e].retryIndex == states[i].epochs[e].retryIndex
    ensures j < |events| && Author(events[j]) == Some(e) ==> events[j].RejectionLogoutSettles?
  {
    RunFollows(states, events, i, j, e);
    RunKeepsInv(states, events, j);
    var s := states[j];
    assert EpochOk(s.logouts, s.epochs[e], s.current == Some(e));
  }

  // The mounted exchange is in flight, waits for an armed timer, or has ended for a reason
  // other than cancellation; no exchange but the mounted one holds a timer.
  lemma MountedExchangeIsLive(states: seq<System>, events: seq<Event>, i: nat, e: nat)
    requires IsRun(states, events) && i < |states| && e < |states[i].epochs|
    ensures states[i].current == Some(e) ==> states[i].epochs[e].pc != Finished(Cancelled)
    ensures states[i].epochs[e].pc.RetryArmed? ==>
      states[i].current == Some(e)
      && states[i].epochs[e].retryIndex > 0
      && states[i].epochs[e].pc.delay == RetryDelay(states[i].epochs[e].retryIndex - 1)
  {
    RunKeepsInv(states, events, i);
    var s := states[i];
    assert EpochOk(s.logouts, s.epochs[e], s.current == Some(e));
  }

  // ---------------------------------------------------------------- other logouts

  // An exchange is at the API while a logout is still waiting.
  ghost predicate Overtakes(s: System, e: nat, logout: nat) {
    && e < |s.epochs| && s.epochs[e].pc == AwaitLogin && !s.epochs[e].cancelled
    && logout < |s.logouts| && s.logouts[logout] == Waiting
  }

  ghost predicate Moves(s: System, t: System) {
    exists event :: IsStep(s, event, t)
  }

  ghost predicate Reachable(s: System) {
    exists cookieAuth, props :: Reaches(Moves, Init(cookieAuth, props), s)
  }

  lemma Leads(s: System, t: System, event: Event)
    requires Reaches(Moves, s, t) && WellFormed(t) && Enabled(t, event)
    ensures Reaches(Moves, s, Step(t, event))
  {
    assert IsStep(t, event, Step(t, event));
    GoesOn(Moves, s, t, Step(t, event));
  }

  lemma MoveKeepsInv(s: System, t: System)
    requires Inv(s) && Moves(s, t)
    ensures Inv(t)
  {
    var event :| IsStep(s, event, t);
    StepKeepsInv(s, event);
  }

  lemma InvLater(s: System, t: System)
    requires Inv(s) && Reaches(Moves, s, t)
    ensures Inv(t)
  {
    forall a, b | Inv(a) && Moves(a, b) ensures Inv(b) { MoveKeepsInv(a, b); }
    Kept(Moves, Inv, s, t);
  }

  lemma ReachableKeepsInv(s: System)
    requires Reachable(s)
    ensures Inv(s)
  {
    var cookieAuth, props :| Reaches(Moves, Init(cookieAuth, props), s);
    InitOk(cookieAuth, props);
    InvLater(Init(cookieAuth, props), s);
  }

  // Every promise that has settled stays as it settled, and none is forgotten.
  ghost predicate Settles(before: seq<Promise>, after: seq<Promise>) {
    |before| <= |after|
    && forall l :: 0 <= l < |before| && before[l] != Waiting ==> after[l] == before[l]
  }

  lemma StepSettles(s: System, event: Event)
    requires WellFormed(s) && Enabled(s, event)
    ensures Settles(s.logouts, Step(s, event).logouts)
  {
    match event {
      case TokenArrives(e, token) => CaughtSettles(s, e, None);
      case LoginSucceeds(e, userName, bearer) => CaughtSettles(s, e, None);
      case ExchangeFails(e, status) => CaughtSettles(s, e, status);
      case _ =>
    }
  }

  lemma CaughtSettles(s: System, e: nat, status: Option<int>)
    requires e < |s.epochs|
    ensures Settles(s.logouts, Caught(s, e, status).logouts)
  {
  }

  // What every later state owes to an earlier one about one of its epochs.
  ghost predicate Keeps(s: System, t: System, e: nat) {
    && Settles(s.logouts, t.logouts)
    && e < |s.epochs| && e < |t.epochs| && Follows(s.epochs[e], t.epochs[e])
  }

  ghost predicate KeepsSince(s: System, e: nat, t: System) { Inv(t) && Keeps(s, t, e) }

  lemma MoveKeeps(s: System, e: nat, a: System, b: System)
    requires KeepsSince(s, e, a) && Moves(a, b)
    ensures KeepsSince(s, e, b)
  {
    var event :| IsStep(a, event, b);
    StepKeepsInv(a, event);
    StepSettles(a, event);
    StepFollows(a, event, e);
    KeepsOn(s, a, b, e);
  }

  lemma KeepsOn(a: System, b: System, c: System, e: nat)
    requires Keeps(a, b, e) && Keeps(b, c, e)
    ensures Keeps(a, c, e)
  {
  }

  lemma LaterState(s: System, t: System, e: nat)
    requires Inv(s) && Reaches(Moves, s, t) && e < |s.epochs|
    ensures Inv(t) && Keeps(s, t, e)
  {
    var since := x => KeepsSince(s, e, x);
    forall a, b | since(a) && Moves(a, b) ensures since(b) { MoveKeeps(s, e, a, b); }
    Kept(Moves, since, s, t);
  }

  predicate SignedIn(props: Props) { props.loaded && props.signedIn && Present(props.userId) }

  // The effect run that starts now has a logout to overtake: one that is waiting and is not
  // its barrier, and a barrier that has not failed.
  ghost predicate Unguarded(s: System)
    requires WellFormed(s)
  {
    s.logouts[s.barrier] != Rejected
    && exists l :: 0 <= l < |s.logouts| && l != s.barrier && s.logouts[l] == Waiting
  }

  // Exactly when the exchange of an effect run can be at the API while a logout that was
  // started before the run still waits. The barrier remembers only the latest logout of the
  // adapter, so earlier ones, and logouts started elsewhere, are not awaited.
  lemma OvertakesIffUnguarded(s: System)
    requires Reachable(s) && SignedIn(s.props)
    ensures Inv(s)
    ensures (exists t, l: nat :: l < |s.logouts| && Reaches(Moves, Step(s, RunEffect), t) && Overtakes(t, |s.epochs|, l))
      <==> Unguarded(s)
  {
    ReachableKeepsInv(s);
    forall t, l: nat | l < |s.logouts| && Reaches(Moves, Step(s, RunEffect), t) && Overtakes(t, |s.epochs|, l)
      ensures Unguarded(s)
    {
      OvertakenWasUnguarded(s, t, l);
    }
    if Unguarded(s) {
      var l :| 0 <= l < |s.logouts| && l != s.barrier && s.logouts[l] == Waiting;
      var t := CanOvertake(s, l);
    }
  }

  lemma StartedEpoch(s: System)
    requires Inv(s) && SignedIn(s.props)
    ensures var next := Step(s, RunEffect);
      && Inv(next) && next.logouts == s.logouts && next.barrier == s.barrier
      && |next.epochs| == |s.epochs| + 1
      && next.epochs[|s.epochs|] ==
           Epoch(s.props.sessionId, s.props.userId.value, s.barrier, false, false, 0, AwaitBarrier, false)
  {
    RunEffectKeepsInv(s);
  }

  lemma OvertakenWasUnguarded(s: System, t: System, l: nat)
    requires Inv(s) && SignedIn(s.props) && l < |s.logouts|
    requires Reaches(Moves, Step(s, RunEffect), t) && Overtakes(t, |s.epochs|, l)
    ensures Unguarded(s)
  {
    StartedEpoch(s);
    var next, e := Step(s, RunEffect), |s.epochs|;
    LaterState(next, t, e);
    assert EpochOk(t.logouts, t.epochs[e], t.current == Some(e));
    assert t.logouts[s.barrier] == Resolved;
    assert s.logouts[l] == Waiting;
  }

  // The continuation in which the barrier resolves and a token arrives.
  lemma CanOvertake(s: System, l: nat) returns (t: System)
    requires Inv(s) && SignedIn(s.props)
    requires s.logouts[s.barrier] != Rejected && l < |s.logouts| && l != s.barrier && s.logouts[l] == Waiting
    ensures Reaches(Moves, Step(s, RunEffect), t) && Overtakes(t, |s.epochs|, l) && t.barrier == s.barrier
  {
    StartedEpoch(s);
    var next := Step(s, RunEffect);
    Stays(Moves, next);
    var settled := next;
    if next.logouts[s.barrier] == Waiting {
      settled := Step(next, LogoutSettles(s.barrier, true));
      Leads(next, next, LogoutSettles(s.barrier, true));
      OutsideKeepsInv(next, LogoutSettles(s.barrier, true));
    }
    t := RunsToLogin(next, settled, |s.epochs|);
  }

  lemma RunsToLogin(s: System, settled: System, e: nat) returns (t: System)
    requires Reaches(Moves, s, settled) && Inv(settled) && e < |settled.epochs|
    requires settled.epochs[e].pc == AwaitBarrier && !settled.epochs[e].cancelled
    requires settled.logouts[settled.epochs[e].barrier] == Resolved
    ensures Reaches(Moves, s, t) && t.logouts == settled.logouts && t.barrier == settled.barrier
    ensures e < |t.epochs| && t.epochs[e].pc == AwaitLogin && !t.epochs[e].cancelled
  {
    var begun := Step(settled, BarrierSettles(e));
    BarrierSettlesKeepsInv(settled, e);
    Leads(s, settled, BarrierSettles(e));
    t := Step(begun, TokenArrives(e, Some("jwt")));
    Leads(s, begun, TokenArrives(e, Some("jwt")));
  }

  const OUT := Props(true, false, None, None)
  const IN := Props(true, true, Some("session"), Some("user"))

  function SignedOutTwice(): System {
    System(true, LoggedOut(AuthState(None, true, Authenticating, 1, None, None)), OUT, None, 2,
           [Resolved, Waiting, Waiting], [], None, 0, true)
  }

  // It happens: two signed-out effect runs, the second one started by a retry of the
  // authentication, then a sign-in, and the exchange reaches the API while the first of the
  // two logouts still waits.
  lemma EarlierLogoutIsNotAwaited()
    ensures exists s :: Reachable(s) && Overtakes(s, 0, 1) && 1 < s.barrier
  {
    var s0 := Init(true, OUT);
    InitOk(true, OUT);
    Stays(Moves, s0);
    SignsOutTwice();
    var s1 := Step(s0, RunEffect);
    Leads(s0, s0, RunEffect);
    StepKeepsInv(s0, RunEffect);
    var retried := Step(s1, RetryAuthentication);
    Leads(s0, s1, RetryAuthentication);
    StepKeepsInv(s1, RetryAuthentication);
    Leads(s0, retried, RunEffect);
    StepKeepsInv(retried, RunEffect);
    FirstLogoutIsOvertaken(s0, SignedOutTwice());
  }

  lemma SignsOutTwice()
    ensures var s1 := Step(Init(true, OUT), RunEffect);
      WellFormed(s1) && Step(Step(s1, RetryAuthentication), RunEffect) == SignedOutTwice()
  {
  }

  lemma FirstLogoutIsOvertaken(s0: System, s2: System)
    requires s0 == Init(true, OUT) && s2 == SignedOutTwice() && Reaches(Moves, s0, s2) && Inv(s2)
    ensures exists s :: Reachable(s) && Overtakes(s, 0, 1) && 1 < s.barrier
  {
    var s3 := Step(s2, Render(IN));
    Leads(s0, s2, Render(IN));
    StepKeepsInv(s2, Render(IN));
    var t := CanOvertake(s3, 1);
    Leads(s0, s3, RunEffect);
    GoesThrough(Moves, s0, Step(s3, RunEffect), t);
    assert Reachable(t);
  }
}
