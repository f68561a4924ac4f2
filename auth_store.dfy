/**
 * The client's authentication store: who is logged in, whether a request is
 * under way, and the last error, kept next to the session bookkeeping of the
 * token manager. The backend's answers are parameters: a login reply or its
 * failure, the current user or a failure, a refresh reply or a failure. The
 * clock is the parameter `now`; `later` is the time after an awaited call.
 */
module AuthStore {
  import opened Wrappers
  import opened TokenManager
  import UsersService

  /** `IUser` of the authentication module. */
  datatype AuthUser = AuthUser(id: string, email: string, name: string, role: string)

  /**
   * `ILoginResponse` without the tokens, which stay in cookies; `userJson`
   * is the text `JSON.stringify` gives for the user.
   */
  datatype LoginResponse = LoginResponse(user: AuthUser, expiresIn: int, userJson: string)

  /** How the login call ends: a reply, or an error with its message (None when it has none). */
  datatype LoginOutcome = LoggedIn(response: LoginResponse) | LoginFailed(message: Option<string>)

  /** `IAuthState`. */
  datatype AuthState = AuthState(user: Option<AuthUser>, isAuthenticated: bool, isLoading: bool, error: Option<string>)

  const Initial := AuthState(None, false, false, None)

  const LoginFailedMessage := "Error al iniciar sesión"

  class AuthStore {
    var state: AuthState
    /** Every state handed to the listeners, in order. */
    ghost var published: seq<AuthState>
    const tokens: TokenManager

    /** Authenticated exactly when a user is held. */
    predicate Valid()
      reads this
    {
      state.isAuthenticated <==> state.user.Some?
    }

    constructor(tokens: TokenManager)
      ensures Valid() && state == Initial && published == [] && this.tokens == tokens
    {
      state := Initial;
      published := [];
      this.tokens := tokens;
    }

    /** `getState`: a copy of the state. */
    method GetState() returns (s: AuthState)
      ensures s == state
    {
      s := state;
    }

    /** `setState`: the new state replaces the old one and is published. */
    method SetState(s: AuthState)
      modifies this
      ensures state == s && published == old(published) + [s]
    {
      state := s;
      published := published + [s];
    }

    /**
     * `login`: shows loading, then either records the session and the user
     * and holds the user, or keeps the user and shows the error.
     */
    method Login(outcome: LoginOutcome, now: int) returns (ok: bool)
      requires Valid()
      modifies this, tokens
      ensures Valid()
      ensures ok <==> outcome.LoggedIn?
      ensures |published| == |old(published)| + 2 && published[..|old(published)|] == old(published)
      ensures published[|old(published)|] == old(state).(isLoading := true, error := None)
      ensures outcome.LoggedIn? ==>
                && state == AuthState(Some(outcome.response.user), true, false, None)
                && var u := outcome.response.user;
                   tokens.storage == if tokens.hasWindow
                                     then old(tokens.storage)[TokenKey := SessionEntry(SessionData(u.id, u.email, u.role, now + outcome.response.expiresIn * 1000))]
                                                             [UserKey := UserEntry(outcome.response.userJson)]
                                     else old(tokens.storage)
      ensures outcome.LoginFailed? ==>
                && state == old(state).(isLoading := false, error := Some(UsersService.MessageOr(outcome.message, LoginFailedMessage)))
                && tokens.storage == old(tokens.storage)
    {
      SetState(state.(isLoading := true, error := None));
      match outcome {
        case LoggedIn(response) =>
          var u := response.user;
          tokens.SetSession(u.id, u.email, u.role, response.expiresIn, now);
          tokens.SetUserData(response.userJson);
          SetState(AuthState(Some(u), true, false, None));
          ok := true;
        case LoginFailed(message) =>
          SetState(state.(isLoading := false, error := Some(UsersService.MessageOr(message, LoginFailedMessage))));
          ok := false;
      }
    }

    /** `logout`: whether or not the backend call fails, the session is cleared and the store is back to its initial state. */
    method Logout()
      modifies this, tokens
      ensures Valid() && state == Initial
      ensures published == old(published) + [old(state).(isLoading := true), Initial]
      ensures tokens.storage == if tokens.hasWindow then Cleared(old(tokens.storage)) else old(tokens.storage)
    {
      SetState(state.(isLoading := true));
      tokens.ClearSession();
      SetState(AuthState(None, false, false, None));
    }

    /**
     * `checkAuth`: with no live session it only stops loading; otherwise the
     * backend's current user is held, and when that call fails the session
     * and the user are cleared.
     */
    method CheckAuth(now: int, current: Option<AuthUser>)
      requires Valid()
      modifies this, tokens
      ensures Valid()
      ensures |published| == |old(published)| + 2 && published[..|old(published)|] == old(published)
      ensures published[|old(published)|] == old(state).(isLoading := true)
      ensures LiveSession(old(tokens.storage), tokens.hasWindow, now).None? ==>
                && state == old(state).(isLoading := false)
                && tokens.storage == if Expired(old(tokens.storage), tokens.hasWindow, now) then Cleared(old(tokens.storage)) else old(tokens.storage)
      ensures LiveSession(old(tokens.storage), tokens.hasWindow, now).Some? && current.Some? ==>
                state == AuthState(current, true, false, None) && tokens.storage == old(tokens.storage)
      ensures LiveSession(old(tokens.storage), tokens.hasWindow, now).Some? && current.None? ==>
                state == Initial && tokens.storage == Cleared(old(tokens.storage))
    {
      SetState(state.(isLoading := true));
      var session := tokens.GetSession(now);
      if session.None? {
        SetState(state.(isLoading := false));
        return;
      }
      if current.Some? {
        SetState(AuthState(current, true, false, None));
      } else {
        tokens.ClearSession();
        SetState(AuthState(None, false, false, None));
      }
    }

    /**
     * `refreshTokenIfNeeded`: nothing happens unless the session is about to
     * expire at `now`. Then a refresh reply of `expiresIn` seconds renews the
     * session still live at `later`, and a failed refresh logs out.
     */
    method RefreshTokenIfNeeded(now: int, later: int, reply: Option<int>)
      requires Valid()
      modifies this, tokens
      ensures Valid()
      ensures !ExpiringSoon(old(tokens.storage), tokens.hasWindow, now) ==>
                && state == old(state) && published == old(published)
                && tokens.storage == if Expired(old(tokens.storage), tokens.hasWindow, now) then Cleared(old(tokens.storage)) else old(tokens.storage)
      ensures ExpiringSoon(old(tokens.storage), tokens.hasWindow, now) && reply.Some? ==>
                && state == old(state) && published == old(published)
                && var s := LiveSession(old(tokens.storage), tokens.hasWindow, later);
                   tokens.storage == if s.Some? then old(tokens.storage)[TokenKey := SessionEntry(s.value.(expiresAt := later + reply.value * 1000))]
                                     else Cleared(old(tokens.storage))
      ensures ExpiringSoon(old(tokens.storage), tokens.hasWindow, now) && reply.None? ==>
                state == Initial && tokens.storage == Cleared(old(tokens.storage))
    {
      var soon := tokens.IsSessionExpiringSoon(now);
      if soon {
        if reply.Some? {
          var session := tokens.GetSession(later);
          if session.Some? {
            var s := session.value;
            tokens.SetSession(s.userId, s.email, s.role, reply.value, later);
          }
        } else {
          Logout();
        }
      }
    }

    /** `clearError`. */
    method ClearError()
      requires Valid()
      modifies this
      ensures Valid()
      ensures state == old(state).(error := None) && published == old(published) + [state]
    {
      SetState(state.(error := None));
    }
  }
}
