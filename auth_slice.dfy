/**
 * client/src/features/auth/authSlice.ts: the client's session. `loadState` restores it
 * from local storage at start-up; the reducers change it as login and registration
 * requests start, succeed and fail, and on logout. Reading local storage is the
 * `storedToken`/`storedUser` parameters, `JSON.parse` the `parse` parameter (`None`
 * where it throws, `Some(None)` for the JSON literal `null`).
 */
module AuthSlice {
  import opened Wrappers

  /** The user as the client keeps it. */
  datatype ClientUser = ClientUser(id: string, email: string, firstName: string, lastName: string, role: string)

  /** One value of the slice state. */
  datatype Snapshot = Snapshot(user: Option<ClientUser>, token: Option<string>, loading: bool,
                               error: Option<string>, isAuthenticated: bool)

  /** A stored string counts only when it is there and not empty. */
  predicate Truthy(s: Option<string>) {
    s.Some? && s.value != ""
  }

  const LoggedOut: Snapshot := Snapshot(None, None, false, None, false)

  /**
   * `loadState`: signed in exactly when both items are stored and the user parses. A
   * stored `null` user parses, so the state is then signed in without a user.
   */
  function LoadState(storedToken: Option<string>, storedUser: Option<string>,
                     parse: string -> Option<Option<ClientUser>>): (st: Snapshot)
    ensures !st.loading && st.error.None?
    ensures st.isAuthenticated <==> Truthy(storedToken) && Truthy(storedUser) && parse(storedUser.value).Some?
    ensures st.isAuthenticated ==> st.token == storedToken && st.user == parse(storedUser.value).value
    ensures !st.isAuthenticated ==> st == LoggedOut
  {
    if !Truthy(storedToken) || !Truthy(storedUser) then LoggedOut
    else match parse(storedUser.value)
      case None => LoggedOut
      case Some(u) => Snapshot(u, storedToken, false, None, true)
  }

  const LoginFailedMessage: string := "Login failed"
  const RegistrationFailedMessage: string := "Registration failed"

  /** `action.error.message || fallback`. */
  function MessageOr(message: Option<string>, fallback: string): (r: string)
    ensures Truthy(message) ==> r == message.value
    ensures !Truthy(message) ==> r == fallback
  {
    if Truthy(message) then message.value else fallback
  }

  class AuthState {
    var user: Option<ClientUser>
    var token: Option<string>
    var loading: bool
    var error: Option<string>
    var isAuthenticated: bool

    function Current(): Snapshot
      reads this
    {
      Snapshot(user, token, loading, error, isAuthenticated)
    }

    /** A signed-in state always holds a token. */
    ghost predicate Valid()
      reads this
    {
      isAuthenticated ==> token.Some?
    }

    /** `initialState = loadState()`. */
    constructor (storedToken: Option<string>, storedUser: Option<string>,
                 parse: string -> Option<Option<ClientUser>>)
      ensures Valid()
      ensures Current() == LoadState(storedToken, storedUser, parse)
    {
      var st := LoadState(storedToken, storedUser, parse);
      user, token, loading, error, isAuthenticated := st.user, st.token, st.loading, st.error, st.isAuthenticated;
    }

    /** `logout`: `loading` and `error` are outside the frame and stay. */
    method Logout()
      modifies this`user, this`token, this`isAuthenticated
      ensures Valid()
      ensures user.None? && token.None? && !isAuthenticated
    {
      user, token, isAuthenticated := None, None, false;
    }

    /** `login.pending` and `register.pending`. */
    method Pending()
      requires Valid()
      modifies this`loading, this`error
      ensures Valid()
      ensures loading && error.None?
    {
      loading, error := true, None;
    }

    /** `login.fulfilled` and `register.fulfilled`. */
    method Fulfilled(payloadUser: ClientUser, payloadToken: string)
      modifies this`user, this`token, this`loading, this`isAuthenticated
      ensures Valid()
      ensures user == Some(payloadUser) && token == Some(payloadToken) && isAuthenticated && !loading
    {
      user, token, loading, isAuthenticated := Some(payloadUser), Some(payloadToken), false, true;
    }

    /**
     * `login.rejected` (`fallback` is "Login failed") and `register.rejected`
     * ("Registration failed"). The user and the token are outside the frame and stay.
     */
    method Rejected(message: Option<string>, fallback: string)
      requires Valid()
      modifies this`loading, this`error, this`isAuthenticated
      ensures Valid()
      ensures !loading && !isAuthenticated && error == Some(MessageOr(message, fallback))
    {
      loading, isAuthenticated, error := false, false, Some(MessageOr(message, fallback));
    }
  }
}
