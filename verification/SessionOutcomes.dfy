// What each answer to a session exchange leads to, in numbers and field by field.
module SessionOutcomes {
  import opened Options
  import opened SessionExchange

  // ---------------------------------------------------------------- a failing login

  // How often a run of the exchange has armed a retry.
  ghost function Failures(states: seq<System>, e: nat, i: nat): nat
    requires i < |states|
  {
    if i == 0 then 0
    else Failures(states, e, i - 1) + if Waits(states[i], e) && !Waits(states[i - 1], e) then 1 else 0
  }

  predicate Waits(s: System, e: nat) {
    e < |s.epochs| && s.epochs[e].pc.RetryArmed?
  }

  // The request is over and its code is still wanted.
  predicate Listening(s: System, e: nat) {
    e < |s.epochs| && !s.epochs[e].cancelled && !s.epochs[e].aborted
  }

  // The session is over: nobody is logged in, and no token is kept.
  predicate IsLoggedOut(store: AuthState) {
    && store.user == None && !store.isLoading && store.status == Unauthenticated
    && store.bearer == None && store.persisted == None
  }

  predicate IsRecovering(before: AuthState, after: AuthState) {
    && after.user == None && after.isLoading && after.status == Recovering
    && after.bearer == before.bearer && after.persisted == before.persisted
  }

  // The failure ends the session: a new logout is the barrier, and the exchange waits for it.
  ghost predicate EndsSession(s: System, next: System, e: nat) {
    && e < |next.epochs| && next.epochs[e].pc == AwaitRejectionLogout(|s.logouts|)
    && next.logouts == s.logouts + [Waiting] && next.barrier == |s.logouts|
    && IsLoggedOut(next.store)
  }

  // The failure arms a retry and leaves logouts and barrier alone.
  ghost predicate ArmsRetry(s: System, next: System, e: nat, delay: nat) {
    && e < |next.epochs| && next.epochs[e].pc == RetryArmed(delay)
    && next.logouts == s.logouts && next.barrier == s.barrier
    && IsRecovering(s.store, next.store)
  }

  lemma FailureStep(s: System, e: nat, status: Option<int>)
    requires WellFormed(s) && Enabled(s, ExchangeFails(e, status)) && Listening(s, e)
    ensures var next := Step(s, ExchangeFails(e, status));
      var n, k := status.GetOr(0), s.epochs[e].retryIndex;
      && (400 <= n < 500 && n != 408 && n != 429 ==> EndsSession(s, next, e))
      && (!(400 <= n < 500 && n != 408 && n != 429) ==>
            ArmsRetry(s, next, e,
              if k == 0 then 1000 else if k == 1 then 2000 else if k == 2 then 4000
              else if k == 3 then 8000 else if k == 4 then 16000 else 30000))
  {
  }

  lemma NoTokenStep(s: System, e: nat, token: Option<string>)
    requires WellFormed(s) && Enabled(s, TokenArrives(e, token)) && Listening(s, e)
    ensures var next := Step(s, TokenArrives(e, token));
      if token == None || token == Some("") then ArmsRetry(s, next, e, RetryDelay(s.epochs[e].retryIndex))
      else next.epochs[e].pc == AwaitLogin && next.store == s.store && next.logouts == s.logouts
  {
  }

  // A retry is counted where it is armed.
  ghost predicate Counts(s: System, next: System, e: nat)
    requires e < |s.epochs|
  {
    && e < |next.epochs|
    && next.epochs[e].retryIndex == s.epochs[e].retryIndex + if Waits(next, e) && !Waits(s, e) then 1 else 0
  }

  lemma CaughtCounts(s: System, k: nat, status: Option<int>, e: nat)
    requires k < |s.epochs| && e < |s.epochs| && !Waits(s, k)
    ensures Counts(s, Caught(s, k, status), e)
  {
  }

  lemma RequestCounts(s: System, event: Event, e: nat)
    requires WellFormed(s) && Enabled(s, event) && e < |s.epochs|
    requires event.TokenArrives? || event.LoginSucceeds? || event.ExchangeFails?
    ensures Counts(s, Step(s, event), e)
  {
    match event {
      case TokenArrives(k, _) => CaughtCounts(s, k, None, e);
      case LoginSucceeds(k, _, _) => CaughtCounts(s, k, None, e);
      case ExchangeFails(k, status) => CaughtCounts(s, k, status, e);
    }
  }

  lemma EffectCounts(s: System, e: nat)
    requires WellFormed(s) && e < |s.epochs|
    ensures Counts(s, Step(s, RunEffect), e) && Counts(s, Step(s, Unmount), e)
  {
  }

  lemma ResumptionCounts(s: System, event: Event, e: nat)
    requires WellFormed(s) && Enabled(s, event) && e < |s.epochs|
    requires event.BarrierSettles? || event.AdapterResumes? || event.RejectionLogoutSettles? || event.TimerFires?
    ensures Counts(s, Step(s, event), e)
  {
  }

  lemma OutsideCounts(s: System, event: Event, e: nat)
    requires WellFormed(s) && Enabled(s, event) && e < |s.epochs|
    requires event.Render? || event.LogoutSettles? || event.ExternalLogout? || event.RetryAuthentication?
    ensures Counts(s, Step(s, event), e)
  {
  }

  lemma RetryIndexStep(s: System, event: Event, e: nat)
    requires WellFormed(s) && Enabled(s, event) && e < |s.epochs|
    ensures Counts(s, Step(s, event), e)
  {
    match event {
      case TokenArrives(_, _) => RequestCounts(s, event, e);
      case LoginSucceeds(_, _, _) => RequestCounts(s, event, e);
      case ExchangeFails(_, _) => RequestCounts(s, event, e);
      case RunEffect => EffectCounts(s, e);
      case Unmount => EffectCounts(s, e);
      case BarrierSettles(_) => ResumptionCounts(s, event, e);
      case AdapterResumes(_) => ResumptionCounts(s, event, e);
      case RejectionLogoutSettles(_) => ResumptionCounts(s, event, e);
      case TimerFires(_) => ResumptionCounts(s, event, e);
      case _ => OutsideCounts(s, event, e);
    }
  }

  lemma CaughtKeepsEpochs(s: System, k: nat, status: Option<int>)
    requires k < |s.epochs|
    ensures |Caught(s, k, status).epochs| == |s.epochs|
  {
  }

  lemma EpochsStay(s: System, event: Event)
    requires WellFormed(s) && Enabled(s, event) && !event.RunEffect?
    ensures |Step(s, event).epochs| == |s.epochs|
  {
    match event {
      case TokenArrives(k, _) => CaughtKeepsEpochs(s, k, None);
      case LoginSucceeds(k, _, _) => CaughtKeepsEpochs(s, k, None);
      case ExchangeFails(k, status) => CaughtKeepsEpochs(s, k, status);
      case _ =>
    }
  }

  lemma NewEpochStep(s: System, event: Event, e: nat)
    requires WellFormed(s) && Enabled(s, event) && |s.epochs| <= e < |Step(s, event).epochs|
    ensures Step(s, event).epochs[e].retryIndex == 0 && !Waits(Step(s, event), e)
  {
    if !event.RunEffect? { EpochsStay(s, event); }
  }

  lemma {:induction false} RetryIndexCounts(states: seq<System>, events: seq<Event>, e: nat, i: nat)
    requires IsRun(states, events) && i < |states|
    ensures e < |states[i].epochs| ==> states[i].epochs[e].retryIndex == Failures(states, e, i)
    ensures e >= |states[i].epochs| ==> Failures(states, e, i) == 0
  {
    if i > 0 {
      RetryIndexCounts(states, events, e, i - 1);
      RunKeepsInv(states, events, i - 1);
      var s, event := states[i - 1], events[i - 1];
      assert IsStep(s, event, states[i]);
      if e < |s.epochs| { RetryIndexStep(s, event, e); }
      else if e < |states[i].epochs| { NewEpochStep(s, event, e); }
    }
  }

  // Over every run: a login that fails while its exchange is wanted ends the session exactly
  // for a client error other than 408 and 429. In every other case, no status included, a retry
  // is armed, and the more failures there were the longer it waits.
  lemma FailureOutcome(states: seq<System>, events: seq<Event>, i: nat, e: nat, status: Option<int>)
    requires IsRun(states, events) && i < |events| && events[i] == ExchangeFails(e, status)
    requires Listening(states[i], e)
    ensures var n, k := status.GetOr(0), Failures(states, e, i);
      && (EndsSession(states[i], states[i + 1], e) <==> 400 <= n < 500 && n != 408 && n != 429)
      && (!EndsSession(states[i], states[i + 1], e) ==>
            ArmsRetry(states[i], states[i + 1], e,
              if k == 0 then 1000 else if k == 1 then 2000 else if k == 2 then 4000
              else if k == 3 then 8000 else if k == 4 then 16000 else 30000))
  {
    RetryIndexCounts(states, events, e, i);
    RunKeepsInv(states, events, i);
    assert IsStep(states[i], events[i], states[i + 1]);
    FailureStep(states[i], e, status);
  }

  // ---------------------------------------------------------------- tokens

  // A login writes its own user; the bearer token is stored in token mode only.
  lemma LoginOutcome(s: System, e: nat, userName: string, bearer: string)
    requires WellFormed(s) && Enabled(s, LoginSucceeds(e, userName, bearer)) && Listening(s, e)
    ensures var next := Step(s, LoginSucceeds(e, userName, bearer));
      && next.epochs[e].pc == LoggedIn && next.logouts == s.logouts && next.barrier == s.barrier
      && next.store.user == Some(Login(e, userName)) && !next.store.isLoading && next.store.status == Authenticated
      && (!s.cookieAuth ==> next.store.bearer == Some(bearer) && next.store.persisted == Some(bearer))
      && (s.cookieAuth ==> next.store.bearer == None && next.store.persisted == s.store.persisted)
  {
  }

  lemma CookieStep(s: System, event: Event)
    requires WellFormed(s) && Enabled(s, event) && s.cookieAuth && s.store.bearer == None && s.store.persisted == None
    ensures var next := Step(s, event);
      next.cookieAuth && next.store.bearer == None && next.store.persisted == None
  {
  }

  // In cookie mode no token is ever held or persisted.
  lemma {:induction false} CookieModeKeepsNoToken(states: seq<System>, events: seq<Event>, i: nat)
    requires IsRun(states, events) && i < |states| && states[0].cookieAuth
    ensures states[i].cookieAuth && states[i].store.bearer == None && states[i].store.persisted == None
  {
    if i > 0 {
      CookieModeKeepsNoToken(states, events, i - 1);
      RunKeepsInv(states, events, i - 1);
      assert IsStep(states[i - 1], events[i - 1], states[i]);
      CookieStep(states[i - 1], events[i - 1]);
    }
  }

  // A completed exchange becomes the identity when it was not cancelled and its session has an
  // id; nothing but the effect takes the identity away again.
  lemma IdentityOutcome(s: System, e: nat)
    requires WellFormed(s) && Enabled(s, AdapterResumes(e))
    ensures var next, epoch := Step(s, AdapterResumes(e)), s.epochs[e];
      && next.store == s.store && next.logouts == s.logouts
      && next.epochs[e].pc == Finished(if epoch.cancelled then Cancelled else Exchanged)
      && next.identity ==
           if !epoch.cancelled && epoch.sessionId.Some? && epoch.sessionId.value != ""
           then Some(Identity(epoch.sessionId.value, epoch.userId)) else s.identity
  {
  }

  // ---------------------------------------------------------------- the effect

  // The first attempt shows as authenticating, every later one as recovering.
  lemma AttemptOutcome(s: System, e: nat)
    requires WellFormed(s) && Enabled(s, BarrierSettles(e)) && !s.epochs[e].cancelled
    ensures var next := Step(s, BarrierSettles(e));
      if s.logouts[s.epochs[e].barrier] == Resolved then
        && next.epochs[e].pc == AwaitToken && !next.epochs[e].aborted
        && next.store.user == None && next.store.isLoading
        && next.store.status == (if s.epochs[e].retryIndex == 0 then Authenticating else Recovering)
      else next.epochs[e].pc == Finished(LogoutFailed) && next.store == s.store
  {
  }

  // The effect exchanges a loaded, signed-in session with a user, logs out of any other loaded
  // one, and does nothing while Clerk is loading.
  lemma EffectOutcome(s: System)
    requires WellFormed(s)
    ensures var next, props := Step(s, RunEffect), s.props;
      && next.identity == None && next.mounted
      && (!props.loaded ==> next.store == s.store && next.logouts == s.logouts && |next.epochs| == |s.epochs|)
      && (props.loaded && (!props.signedIn || props.userId == None || props.userId == Some("")) ==>
            && IsLoggedOut(next.store) && next.logouts == s.logouts + [Waiting] && next.barrier == |s.logouts|
            && |next.epochs| == |s.epochs| && next.current == None)
      && (props.loaded && props.signedIn && props.userId.Some? && props.userId.value != "" ==>
            && next.store == s.store && next.logouts == s.logouts && next.barrier == s.barrier
            && |next.epochs| == |s.epochs| + 1 && next.current == Some(|s.epochs|)
            && next.epochs[|s.epochs|].sessionId == props.sessionId
            && next.epochs[|s.epochs|].userId == props.userId.value
            && next.epochs[|s.epochs|].barrier == s.barrier && next.epochs[|s.epochs|].pc == AwaitBarrier)
  {
  }

  // A logout of the store clears the session; a retry asks for a new run of the effect.
  lemma StoreOutcomes(s: System)
    requires WellFormed(s)
    ensures var out, retried := Step(s, ExternalLogout), Step(s, RetryAuthentication);
      && IsLoggedOut(out.store) && out.logouts == s.logouts + [Waiting] && out.barrier == s.barrier
      && retried.store.isLoading && retried.store.status == Authenticating
      && retried.store.retryGeneration == s.store.retryGeneration + 1
      && retried.store.user == s.store.user && retried.store.bearer == s.store.bearer
  {
  }

  // ---------------------------------------------------------------- promises and timers

  // After a permanent rejection the settled logout signs out of Clerk once, unless it failed or
  // the exchange was cancelled meanwhile.
  lemma RejectionLogoutOutcome(s: System, e: nat)
    requires WellFormed(s) && Enabled(s, RejectionLogoutSettles(e))
    ensures var next := Step(s, RejectionLogoutSettles(e));
      && next.signOuts == s.signOuts + (if s.logouts[s.epochs[e].pc.logout] == Resolved && !s.epochs[e].cancelled then 1 else 0)
      && next.epochs[e].pc.Finished? && next.store == s.store && next.logouts == s.logouts
  {
  }

  // A timer sends the exchange back to its barrier; a promise settles as it says.
  lemma TimerAndPromiseOutcomes(s: System, event: Event)
    requires WellFormed(s) && Enabled(s, event)
    ensures var next := Step(s, event);
      match event
      case TimerFires(e) => next == s.(epochs := s.epochs[e := s.epochs[e].(pc := AwaitBarrier)])
      case LogoutSettles(l, ok) => next == s.(logouts := s.logouts[l := if ok then Resolved else Rejected])
      case Render(props) => next == s.(props := props)
      case _ => true
  {
  }

  // A new run of the effect, or unmounting, cancels the exchange that was mounted: its request
  // is aborted and its timer is gone.
  lemma CleanupOutcome(s: System, event: Event, e: nat)
    requires WellFormed(s) && s.current == Some(e) && (event == RunEffect || event == Unmount)
    ensures var next := Step(s, event);
      && next.epochs[e].cancelled && next.epochs[e].aborted && !next.epochs[e].pc.RetryArmed?
      && next.current != Some(e)
  {
  }
}
