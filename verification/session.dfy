/**
 * The admin console's session flag bag. Each of the five keys may be absent
 * from the UI framework's state bag, so each field is an `Option`: `None`
 * means "key not present". Keys that may hold Python's `None` have an inner
 * `Option` for the stored value.
 */
module Session {
  import opened Wrappers
  import opened Times

  /** User attributes as the identity provider returns them. */
  type Attributes = map<string, string>

  datatype SessionState = SessionState(
    authenticated: Option<bool>,
    accessToken: Option<Option<string>>,
    userInfo: Option<Option<Attributes>>,
    loginAttempts: Option<int>,
    lastLoginTime: Option<Option<Timestamp>>)

  /** The bag before anything has been stored. */
  const EmptyBag: SessionState := SessionState(None, None, None, None, None)

  /** Every key is present. */
  predicate Initialised(s: SessionState) {
    s.authenticated.Some? && s.accessToken.Some? && s.userInfo.Some?
    && s.loginAttempts.Some? && s.lastLoginTime.Some?
  }

  /** `_init_session`: each missing key gets its default (False, None, None,
      0, None); a key already present keeps its value. */
  function InitSession(s: SessionState): (r: SessionState)
    ensures Initialised(r)
    ensures s.authenticated.Some? ==> r.authenticated == s.authenticated
    ensures s.accessToken.Some? ==> r.accessToken == s.accessToken
    ensures s.userInfo.Some? ==> r.userInfo == s.userInfo
    ensures s.loginAttempts.Some? ==> r.loginAttempts == s.loginAttempts
    ensures s.lastLoginTime.Some? ==> r.lastLoginTime == s.lastLoginTime
    ensures s.authenticated.None? ==> r.authenticated == Some(false)
    ensures s.accessToken.None? ==> r.accessToken == Some(None)
    ensures s.userInfo.None? ==> r.userInfo == Some(None)
    ensures s.loginAttempts.None? ==> r.loginAttempts == Some(0)
    ensures s.lastLoginTime.None? ==> r.lastLoginTime == Some(None)
  {
    SessionState(
      Some(s.authenticated.GetOr(false)),
      Some(s.accessToken.GetOr(None)),
      Some(s.userInfo.GetOr(None)),
      Some(s.loginAttempts.GetOr(0)),
      Some(s.lastLoginTime.GetOr(None)))
  }

  /** Initialising twice is initialising once, and an initialised bag reads
      the same through every getter as before initialisation. */
  lemma InitSessionIdempotent(s: SessionState)
    ensures InitSession(InitSession(s)) == InitSession(s)
    ensures Initialised(s) ==> InitSession(s) == s
    ensures IsAuthenticated(InitSession(s)) == IsAuthenticated(s)
    ensures GetAccessToken(InitSession(s)) == GetAccessToken(s)
    ensures GetUserInfo(InitSession(s)) == GetUserInfo(s)
    ensures GetLoginAttempts(InitSession(s)) == GetLoginAttempts(s)
    ensures GetLastLoginTime(InitSession(s)) == GetLastLoginTime(s)
  {
  }

  // ---------------------------------------------------------------- getters

  /** `is_authenticated`: the stored flag, False when absent. */
  function IsAuthenticated(s: SessionState): bool {
    s.authenticated.GetOr(false)
  }

  /** `get_access_token`: the stored token, None when absent. */
  function GetAccessToken(s: SessionState): Option<string> {
    s.accessToken.GetOr(None)
  }

  /** `get_user_info`: the stored attributes, None when absent. */
  function GetUserInfo(s: SessionState): Option<Attributes> {
    s.userInfo.GetOr(None)
  }

  /** `get_login_attempts`: the stored counter, 0 when absent. */
  function GetLoginAttempts(s: SessionState): int {
    s.loginAttempts.GetOr(0)
  }

  /** `get_last_login_time`: the stored time, None when absent. */
  function GetLastLoginTime(s: SessionState): Option<Timestamp> {
    s.lastLoginTime.GetOr(None)
  }

  /** Getters on an empty bag return the defaults; on any bag they return the
      stored value whenever one is stored. */
  lemma GetterDefaults(s: SessionState)
    ensures !IsAuthenticated(EmptyBag) && GetLoginAttempts(EmptyBag) == 0
    ensures GetAccessToken(EmptyBag).None? && GetUserInfo(EmptyBag).None? && GetLastLoginTime(EmptyBag).None?
    ensures s.authenticated.Some? ==> IsAuthenticated(s) == s.authenticated.value
    ensures s.loginAttempts.Some? ==> GetLoginAttempts(s) == s.loginAttempts.value
    ensures s.accessToken.Some? ==> GetAccessToken(s) == s.accessToken.value
    ensures s.userInfo.Some? ==> GetUserInfo(s) == s.userInfo.value
    ensures s.lastLoginTime.Some? ==> GetLastLoginTime(s) == s.lastLoginTime.value
  {
  }

  // ------------------------------------------------------------ transitions

  /** `set_auth_data`: signs the session in with this token and these
      attributes, stamps the login time and resets the attempt counter. */
  function SetAuthData(s: SessionState, token: string, info: Attributes, now: Timestamp): (r: SessionState)
    ensures Initialised(r)
    ensures IsAuthenticated(r) && GetLoginAttempts(r) == 0
    ensures GetAccessToken(r) == Some(token) && GetUserInfo(r) == Some(info)
    ensures GetLastLoginTime(r) == Some(now)
  {
    SessionState(Some(true), Some(Some(token)), Some(Some(info)), Some(0), Some(Some(now)))
  }

  /** `clear_auth_data`: signs the session out, forgetting token, attributes
      and login time; the attempt counter is left as it was. */
  function ClearAuthData(s: SessionState): (r: SessionState)
    ensures !IsAuthenticated(r)
    ensures GetAccessToken(r).None? && GetUserInfo(r).None? && GetLastLoginTime(r).None?
    ensures r.loginAttempts == s.loginAttempts
  {
    s.(authenticated := Some(false), accessToken := Some(None), userInfo := Some(None), lastLoginTime := Some(None))
  }

  /** `increment_login_attempts`: one more attempt, counting from 0 when the
      counter is absent; nothing else changes. */
  function IncrementLoginAttempts(s: SessionState): (r: SessionState)
    ensures GetLoginAttempts(r) == GetLoginAttempts(s) + 1
    ensures r.(loginAttempts := s.loginAttempts) == s
  {
    s.(loginAttempts := Some(s.loginAttempts.GetOr(0) + 1))
  }

  /** Signing out after signing in forgets the login but keeps the counter
      at the 0 that signing in set, and signing out twice is signing out once. */
  lemma SignInThenOut(s: SessionState, token: string, info: Attributes, now: Timestamp)
    ensures var r := ClearAuthData(SetAuthData(s, token, info, now));
            !IsAuthenticated(r) && GetAccessToken(r).None? && GetLoginAttempts(r) == 0
    ensures ClearAuthData(ClearAuthData(s)) == ClearAuthData(s)
  {
  }
}
