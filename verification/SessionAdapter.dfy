// The adapter and the auth store in the form of the source: objects whose fields the effect
// closures and the store actions update in place. Each method runs the code between two
// points where control is handed back, and is proved to be one step of SessionExchange.
module SessionAdapter {
  import opened Options
  import opened SessionExchange

  class AuthStore {
    const cookieAuth: bool
    var user: Option<Login>
    var isLoading: bool
    var status: Status
    var retryGeneration: nat
    var bearer: Option<string>
    var persisted: Option<string>

    ghost function State(): AuthState
      reads this
    {
      AuthState(user, isLoading, status, retryGeneration, bearer, persisted)
    }

    constructor (cookieAuth: bool)
      ensures this.cookieAuth == cookieAuth
      ensures State() == AuthState(None, true, Authenticating, 0, None, None)
    {
      this.cookieAuth := cookieAuth;
      user, isLoading, status, retryGeneration := None, true, Authenticating, 0;
      bearer, persisted := None, None;
    }

    method SetAttempting(status: Status)
      modifies this
      ensures State() == Attempting(old(State()), status)
    {
      user := None;
      isLoading := true;
      this.status := status;
    }

    // The part of loginWithClerk after the response; `aborted` makes it throw.
    method FinishLogin(login: Login, token: string, aborted: bool) returns (threw: bool)
      modifies this
      ensures threw == aborted
      ensures State() == if aborted then old(State()) else LoginWritten(cookieAuth, old(State()), login, token)
    {
      if aborted { return true; }
      if cookieAuth {
        bearer := None;
      } else {
        persisted := Some(token);
        bearer := Some(token);
      }
      user := Some(login);
      isLoading := false;
      status := Authenticated;
      return false;
    }

    method ClearSession()
      modifies this
      ensures State() == LoggedOut(old(State()))
    {
      persisted := None;
      bearer := None;
      user := None;
      isLoading := false;
      status := Unauthenticated;
    }

    method Retry()
      modifies this
      ensures State() == old(State()).(
        isLoading := true, status := Authenticating, retryGeneration := old(State()).retryGeneration + 1)
    {
      isLoading := true;
      status := Authenticating;
      retryGeneration := retryGeneration + 1;
    }
  }

  class ClerkAuthAdapter {
    const store: AuthStore
    var props: Props
    var exchangedIdentity: Option<Identity>
    var logoutBarrier: nat
    var logouts: seq<Promise>
    var epochs: seq<Epoch>
    var current: Option<nat>
    var signOuts: nat
    var mounted: bool

    ghost function State(): System
      reads this, store
    {
      System(store.cookieAuth, store.State(), props, exchangedIdentity, logoutBarrier, logouts, epochs, current,
             signOuts, mounted)
    }

    constructor (store: AuthStore, props: Props)
      requires store.State() == AuthState(None, true, Authenticating, 0, None, None)
      ensures this.store == store
      ensures State() == Init(store.cookieAuth, props)
    {
      this.store := store;
      this.props := props;
      exchangedIdentity, logoutBarrier, logouts, epochs := None, 0, [Resolved], [];
      current, signOuts, mounted := None, 0, false;
    }

    // store.logout(): clears the session at once and leaves a promise behind.
    method StartLogout() returns (promise: nat)
      modifies this`logouts, store
      ensures promise == |old(logouts)|
      ensures State() == Logout(old(State()))
    {
      promise := |logouts|;
      logouts := logouts + [Waiting];
      store.ClearSession();
    }

    method RunCleanup()
      requires WellFormed(State())
      modifies this`epochs, this`current
      ensures State() == Cleanup(old(State()))
    {
      if current.None? { return; }
      var e := current.value;
      var epoch := epochs[e].(cancelled := true, aborted := true);
      if epoch.pc.RetryArmed? { epoch := epoch.(pc := Finished(Cancelled)); }
      epochs := epochs[e := epoch];
      current := None;
    }

    method OnEffect()
      requires WellFormed(State())
      modifies this, store
      ensures State() == Step(old(State()), RunEffect)
    {
      RunCleanup();
      mounted := true;
      exchangedIdentity := None;
      if !props.loaded { return; }
      if !props.signedIn || !Present(props.userId) {
        var promise := StartLogout();
        logoutBarrier := promise;
        return;
      }
      current := Some(|epochs|);
      epochs := epochs
        + [Epoch(props.sessionId, props.userId.value, logoutBarrier, false, false, 0, AwaitBarrier, false)];
    }

    method OnUnmount()
      requires WellFormed(State())
      modifies this
      ensures State() == Step(old(State()), Unmount)
    {
      RunCleanup();
      mounted := false;
    }

    // exchange(), from its first await to the token request
    method OnBarrierSettled(e: nat)
      requires WellFormed(State()) && Enabled(State(), BarrierSettles(e))
      modifies this`epochs, store
      ensures State() == Step(old(State()), BarrierSettles(e))
    {
      var epoch := epochs[e];
      if logouts[epoch.barrier] == Rejected {
        epochs := epochs[e := epoch.(pc := Finished(LogoutFailed))];
      } else if epoch.cancelled {
        epochs := epochs[e := epoch.(pc := Finished(Cancelled))];
      } else {
        epochs := epochs[e := epoch.(pc := AwaitToken, aborted := false)];
        store.SetAttempting(if epoch.retryIndex == 0 then Authenticating else Recovering);
      }
    }

    // the catch block
    method Catch(e: nat, status: Option<int>)
      requires e < |epochs|
      modifies this, store
      ensures State() == Caught(old(State()), e, status)
    {
      var epoch := epochs[e];
      if epoch.cancelled || epoch.aborted {
        epochs := epochs[e := epoch.(pc := Finished(Cancelled))];
        return;
      }
      if PermanentRejection(status) {
        var promise := StartLogout();
        logoutBarrier := promise;
        epochs := epochs[e := epoch.(pc := AwaitRejectionLogout(promise), rejected := true)];
        return;
      }
      var delay := RetryDelay(epoch.retryIndex);
      epochs := epochs[e := epoch.(retryIndex := epoch.retryIndex + 1, pc := RetryArmed(delay))];
      store.SetAttempting(Recovering);
    }

    method OnToken(e: nat, token: Option<string>)
      requires WellFormed(State()) && Enabled(State(), TokenArrives(e, token))
      modifies this, store
      ensures State() == Step(old(State()), TokenArrives(e, token))
    {
      if Present(token) {
        epochs := epochs[e := epochs[e].(pc := AwaitLogin)];
      } else {
        Catch(e, None);
      }
    }

    method OnLoginResponse(e: nat, userName: string, token: string)
      requires WellFormed(State()) && Enabled(State(), LoginSucceeds(e, userName, token))
      modifies this, store
      ensures State() == Step(old(State()), LoginSucceeds(e, userName, token))
    {
      var threw := store.FinishLogin(Login(e, userName), token, epochs[e].aborted);
      if threw {
        Catch(e, None);
      } else {
        epochs := epochs[e := epochs[e].(pc := LoggedIn)];
      }
    }

    method OnFailure(e: nat, status: Option<int>)
      requires WellFormed(State()) && Enabled(State(), ExchangeFails(e, status))
      modifies this, store
      ensures State() == Step(old(State()), ExchangeFails(e, status))
    {
      Catch(e, status);
    }

    method OnLoggedIn(e: nat)
      requires WellFormed(State()) && Enabled(State(), AdapterResumes(e))
      modifies this`epochs, this`exchangedIdentity
      ensures State() == Step(old(State()), AdapterResumes(e))
    {
      var epoch := epochs[e];
      if !epoch.cancelled && Present(epoch.sessionId) {
        exchangedIdentity := Some(Identity(epoch.sessionId.value, epoch.userId));
      }
      epochs := epochs[e := epoch.(pc := Finished(if epoch.cancelled then Cancelled else Exchanged))];
    }

    method OnRejectionLogout(e: nat)
      requires WellFormed(State()) && Enabled(State(), RejectionLogoutSettles(e))
      modifies this`epochs, this`signOuts
      ensures State() == Step(old(State()), RejectionLogoutSettles(e))
    {
      var epoch := epochs[e];
      if logouts[epoch.pc.logout] == Rejected {
        epochs := epochs[e := epoch.(pc := Finished(LogoutFailed))];
      } else if epoch.cancelled {
        epochs := epochs[e := epoch.(pc := Finished(Cancelled))];
      } else {
        epochs := epochs[e := epoch.(pc := Finished(SignedOut))];
        signOuts := signOuts + 1;
      }
    }

    method OnTimer(e: nat)
      requires WellFormed(State()) && Enabled(State(), TimerFires(e))
      modifies this`epochs
      ensures State() == Step(old(State()), TimerFires(e))
    {
      epochs := epochs[e := epochs[e].(pc := AwaitBarrier)];
    }

    method IsReady() returns (ready: bool)
      ensures ready == ExchangeReady(State())
    {
      ready := props.loaded && props.signedIn
        && store.status == Authenticated
        && props.sessionId.Some? && props.sessionId.value != ""
        && exchangedIdentity.Some? && exchangedIdentity.value.sessionId == props.sessionId.value
        && props.userId.Some? && exchangedIdentity.value.userId == props.userId.value;
    }
  }
}
