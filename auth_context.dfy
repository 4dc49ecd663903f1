/** The session holder (AuthContext.jsx): the logged-in user, if any, and
    whether the initial session check is still running. The backend calls are
    inputs: the profile the check receives, or `None` when it fails. */
module AuthContext {
  import opened Common

  /** The user record the backend returns; `id_rol` 2 is the administrator. */
  datatype User = User(id_usuario: nat, nombre: string, email: string, id_rol: int)

  /** The login response; `user` is `None` when the response has no user field. */
  datatype LoginData = LoginData(user: Option<User>)

  /** What the provider holds. */
  datatype AuthState = AuthState(user: Option<User>, isLoading: bool)

  /** The things that change it: a login, a logout (whose backend call may
      fail) and the answer to the session check. */
  datatype AuthEvent =
    | LoggedIn(data: LoginData)
    | LoggedOut(backendFailed: bool)
    | SessionChecked(profile: Option<User>)

  /** The state before anything has happened: no user, check running. */
  const Initial: AuthState := AuthState(None, true)

  /** The effect of one event: `login` stores the response's user, `logout`
      clears the user whatever the backend answered, and the session check
      stores the profile (no user on failure) and ends the loading phase. */
  function Step(s: AuthState, e: AuthEvent): (r: AuthState)
    ensures e.LoggedOut? ==> r.user.None?
    ensures e.LoggedIn? ==> r.user == e.data.user
    ensures e.SessionChecked? ==> r.user == e.profile && !r.isLoading
    ensures !e.SessionChecked? ==> r.isLoading == s.isLoading
  {
    match e
    case LoggedIn(data) => s.(user := data.user)
    case LoggedOut(_) => s.(user := None)
    case SessionChecked(profile) => AuthState(profile, false)
  }

  /** The state after a sequence of events, in order. */
  function Run(s: AuthState, events: seq<AuthEvent>): AuthState
    decreases |events|
  {
    if events == [] then s else Run(Step(s, events[0]), events[1..])
  }

  /** Once the session check has answered, loading is over for good: no later
      login or logout turns it back on. */
  lemma {:induction false} LoadingEndsAfterCheck(s: AuthState, events: seq<AuthEvent>, i: int)
    requires 0 <= i < |events| && events[i].SessionChecked?
    ensures !Run(s, events).isLoading
    decreases |events|
  {
    if i == 0 {
      StaysLoaded(Step(s, events[0]), events[1..]);
    } else {
      LoadingEndsAfterCheck(Step(s, events[0]), events[1..], i - 1);
    }
  }

  /** No event starts loading again. */
  lemma {:induction false} StaysLoaded(s: AuthState, events: seq<AuthEvent>)
    requires !s.isLoading
    ensures !Run(s, events).isLoading
    decreases |events|
  {
    if events != [] {
      StaysLoaded(Step(s, events[0]), events[1..]);
    }
  }

  /** Whatever happened before, a logout as the last event leaves no user. */
  lemma {:induction false} LogoutLast(s: AuthState, events: seq<AuthEvent>, failed: bool)
    ensures Run(s, events + [LoggedOut(failed)]).user.None?
    decreases |events|
  {
    if events == [] {
      assert events + [LoggedOut(failed)] == [LoggedOut(failed)];
    } else {
      assert (events + [LoggedOut(failed)])[1..] == events[1..] + [LoggedOut(failed)];
      LogoutLast(Step(s, events[0]), events[1..], failed);
    }
  }

  /** While the check is running, loading stays on: the children are not rendered
      until the session check has answered. */
  lemma {:induction false} LoadingUntilCheck(events: seq<AuthEvent>)
    requires forall i :: 0 <= i < |events| ==> !events[i].SessionChecked?
    ensures Run(Initial, events).isLoading
  {
    StillLoading(Initial, events);
  }

  lemma {:induction false} StillLoading(s: AuthState, events: seq<AuthEvent>)
    requires s.isLoading
    requires forall i :: 0 <= i < |events| ==> !events[i].SessionChecked?
    ensures Run(s, events).isLoading
    decreases |events|
  {
    if events != [] {
      StillLoading(Step(s, events[0]), events[1..]);
    }
  }

  /** The provider. */
  class AuthProvider {
    var user: Option<User>
    var isLoading: bool

    function State(): AuthState
      reads this
    {
      AuthState(user, isLoading)
    }

    constructor ()
      ensures State() == Initial
    {
      user := None;
      isLoading := true;
    }

    /** `login(userData)`. */
    method Login(userData: LoginData)
      modifies this`user
      ensures State() == Step(old(State()), LoggedIn(userData))
    {
      user := userData.user;
    }

    /** `logout()`: the user is cleared in the `finally` branch, after the
        backend call whether it failed or not. */
    method Logout(backendFailed: bool)
      modifies this`user
      ensures State() == Step(old(State()), LoggedOut(backendFailed))
    {
      user := None;
    }

    /** The session check run once on mount. */
    method CheckSession(profile: Option<User>)
      modifies this`user, this`isLoading
      ensures State() == Step(old(State()), SessionChecked(profile))
    {
      if profile.Some? {
        user := profile;
      } else {
        user := None;
      }
      isLoading := false;
    }

    /** The children are rendered only once loading is over. */
    function RendersChildren(): bool
      reads this
    {
      !isLoading
    }
  }
}
