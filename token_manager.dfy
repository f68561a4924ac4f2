/**
 * The session bookkeeping of the browser client: session metadata (never the
 * token itself, which lives in an httpOnly cookie) kept in `localStorage`
 * under `auth_session`, user data under `user_data`, and expiry read
 * against the clock. `localStorage` is the map `storage`, whether there is a
 * `window` at all (there is none during server rendering) is `hasWindow`,
 * and `Date.now()` is the parameter `now`, in milliseconds.
 */
module TokenManager {
  import opened Wrappers

  const TokenKey := "auth_session"
  const UserKey := "user_data"
  /** `isSessionExpiringSoon`'s window: five minutes, in milliseconds. */
  const FiveMinutes := 5 * 60 * 1000

  datatype SessionData = SessionData(userId: string, email: string, role: string, expiresAt: int)

  /**
   * What a stored string holds: the JSON of a session record, the JSON of
   * some user data (kept as its text), or text that `JSON.parse` rejects.
   */
  datatype Entry = SessionEntry(session: SessionData) | UserEntry(json: string) | Malformed(text: string)

  /** The session stored under `auth_session`, expired or not. */
  function StoredSession(storage: map<string, Entry>, hasWindow: bool): Option<SessionData> {
    if hasWindow && TokenKey in storage && storage[TokenKey].SessionEntry? then Some(storage[TokenKey].session)
    else None
  }

  /** The stored session has run out: the clock is past its expiry. */
  predicate Expired(storage: map<string, Entry>, hasWindow: bool, now: int) {
    StoredSession(storage, hasWindow).Some? && now > StoredSession(storage, hasWindow).value.expiresAt
  }

  /** The session `getSession` returns at time `now`. */
  function LiveSession(storage: map<string, Entry>, hasWindow: bool, now: int): (r: Option<SessionData>)
    ensures r.Some? ==> now <= r.value.expiresAt
  {
    if Expired(storage, hasWindow, now) then None else StoredSession(storage, hasWindow)
  }

  /** `clearSession` on the map: exactly the two keys go. */
  function Cleared(storage: map<string, Entry>): (r: map<string, Entry>)
    ensures TokenKey !in r && UserKey !in r
    ensures forall k :: k in storage && k != TokenKey && k != UserKey ==> k in r && r[k] == storage[k]
    ensures forall k :: k in r ==> k in storage
  {
    storage - {TokenKey, UserKey}
  }

  /** `isSessionExpiringSoon` at time `now`. */
  predicate ExpiringSoon(storage: map<string, Entry>, hasWindow: bool, now: int) {
    LiveSession(storage, hasWindow, now).Some? && LiveSession(storage, hasWindow, now).value.expiresAt - now < FiveMinutes
  }

  /** `session?.role || null`: an empty role counts as none. */
  function RoleOf(session: Option<SessionData>): (r: Option<string>)
    ensures r.Some? <==> session.Some? && session.value.role != ""
    ensures r.Some? ==> r.value == session.value.role
  {
    if session.Some? && session.value.role != "" then Some(session.value.role) else None
  }

  /** A session stored at time `t` for `expiresIn` seconds is returned up to and including `t + 1000·expiresIn`, and not after. */
  lemma SessionLifetime(storage: map<string, Entry>, userId: string, email: string, role: string, expiresIn: int, t: int, now: int)
    ensures var s := SessionData(userId, email, role, t + expiresIn * 1000);
            LiveSession(storage[TokenKey := SessionEntry(s)], true, now) == (if now <= t + expiresIn * 1000 then Some(s) else None)
  {
  }

  /** A session stored for at least five minutes is not about to expire at the moment it is stored. */
  lemma FreshSessionNotExpiring(storage: map<string, Entry>, userId: string, email: string, role: string, expiresIn: int, t: int)
    requires expiresIn * 1000 >= FiveMinutes
    ensures !ExpiringSoon(storage[TokenKey := SessionEntry(SessionData(userId, email, role, t + expiresIn * 1000))], true, t)
  {
  }

  /** A session about to expire is still live: it has less than five minutes left, but some time. */
  lemma ExpiringSoonIsLive(storage: map<string, Entry>, hasWindow: bool, now: int)
    requires ExpiringSoon(storage, hasWindow, now)
    ensures 0 <= LiveSession(storage, hasWindow, now).value.expiresAt - now < FiveMinutes
  {
  }

  /** After `clearSession` there is no session at any time. */
  lemma NoSessionAfterClear(storage: map<string, Entry>, hasWindow: bool, now: int)
    ensures LiveSession(Cleared(storage), hasWindow, now).None?
    ensures !ExpiringSoon(Cleared(storage), hasWindow, now)
  {
  }

  /** Without a window nothing is ever read. */
  lemma NoWindowNoSession(storage: map<string, Entry>, now: int)
    ensures LiveSession(storage, false, now).None?
    ensures !ExpiringSoon(storage, false, now)
    ensures RoleOf(LiveSession(storage, false, now)).None?
  {
  }

  class TokenManager {
    var storage: map<string, Entry>
    const hasWindow: bool

    constructor(hasWindow: bool, storage: map<string, Entry>)
      ensures this.hasWindow == hasWindow && this.storage == storage
    {
      this.hasWindow := hasWindow;
      this.storage := storage;
    }

    /** `setSession`: the session expires `expiresIn` seconds after `now`. */
    method SetSession(userId: string, email: string, role: string, expiresIn: int, now: int)
      modifies this
      ensures hasWindow ==> storage == old(storage)[TokenKey := SessionEntry(SessionData(userId, email, role, now + expiresIn * 1000))]
      ensures !hasWindow ==> storage == old(storage)
    {
      var expiresAt := now + expiresIn * 1000;
      var sessionData := SessionData(userId, email, role, expiresAt);
      if hasWindow {
        storage := storage[TokenKey := SessionEntry(sessionData)];
      }
    }

    /** `getSession`: a run-out session is removed, with the user data, and reads as none; unreadable data is left in place. */
    method GetSession(now: int) returns (r: Option<SessionData>)
      modifies this
      ensures r == LiveSession(old(storage), hasWindow, now)
      ensures storage == if Expired(old(storage), hasWindow, now) then Cleared(old(storage)) else old(storage)
    {
      if !hasWindow {
        return None;
      }
      if TokenKey !in storage {
        return None;
      }
      var data := storage[TokenKey];
      if !data.SessionEntry? {
        return None;
      }
      var session := data.session;
      if now > session.expiresAt {
        ClearSession();
        return None;
      }
      return Some(session);
    }

    method IsAuthenticated(now: int) returns (b: bool)
      modifies this
      ensures b <==> LiveSession(old(storage), hasWindow, now).Some?
      ensures storage == if Expired(old(storage), hasWindow, now) then Cleared(old(storage)) else old(storage)
    {
      var session := GetSession(now);
      b := session.Some?;
    }

    method GetUserRole(now: int) returns (role: Option<string>)
      modifies this
      ensures role == RoleOf(LiveSession(old(storage), hasWindow, now))
      ensures storage == if Expired(old(storage), hasWindow, now) then Cleared(old(storage)) else old(storage)
    {
      var session := GetSession(now);
      role := RoleOf(session);
    }

    /** `setUserData`, with the data given as its JSON text. */
    method SetUserData(json: string)
      modifies this
      ensures hasWindow ==> storage == old(storage)[UserKey := UserEntry(json)]
      ensures !hasWindow ==> storage == old(storage)
    {
      if hasWindow {
        storage := storage[UserKey := UserEntry(json)];
      }
    }

    /** `getUserData`: the stored JSON text, or None when there is none or it does not parse. */
    method GetUserData() returns (json: Option<string>)
      ensures json.Some? <==> hasWindow && UserKey in storage && storage[UserKey].UserEntry?
      ensures json.Some? ==> storage[UserKey] == UserEntry(json.value)
    {
      if hasWindow && UserKey in storage && storage[UserKey].UserEntry? {
        return Some(storage[UserKey].json);
      }
      return None;
    }

    method ClearSession()
      modifies this
      ensures hasWindow ==> storage == Cleared(old(storage))
      ensures !hasWindow ==> storage == old(storage)
    {
      if hasWindow {
        storage := storage - {TokenKey, UserKey};
      }
    }

    method IsSessionExpiringSoon(now: int) returns (b: bool)
      modifies this
      ensures b == ExpiringSoon(old(storage), hasWindow, now)
      ensures storage == if Expired(old(storage), hasWindow, now) then Cleared(old(storage)) else old(storage)
    {
      var session := GetSession(now);
      if session.None? {
        return false;
      }
      b := session.value.expiresAt - now < FiveMinutes;
    }
  }
}
