/** `getAuthCookies` of `main.ts`: use the cached cookies when the cache is
    usable, otherwise log in (with the 503 retry policy), pull `auth_token`
    and `ct0` out of the cookie jar and save them before returning.  The
    scraper is three oracles: the login attempts, whether it reports being
    logged in afterwards, and the cookie jar it holds. */
module Auth {
  import opened Wrappers
  import opened JsValue
  import opened SessionCache
  import opened Retry

  datatype Cookie = Cookie(key: string, value: string)

  datatype AuthTokens = AuthTokens(authToken: string, ct0: string)

  /** The outcome of one call, the login attempts it made and the cache
      write it performed, if any. */
  datatype AuthRun = AuthRun(result: Result<AuthTokens, Thrown>, loginAttempts: nat, saved: Option<CookieWrite>)

  const LoginFailedMessage: string := "ログインに失敗しました"
  const MissingTokenMessage: string := "Cookie から auth_token または ct0 を取得できませんでした"

  /** `cookies.find((c) => c.key === key)?.value`: the first match wins. */
  function FindCookie(cookies: seq<Cookie>, key: string): (r: Option<string>)
    ensures r.None? <==> forall i :: 0 <= i < |cookies| ==> cookies[i].key != key
    ensures r.Some? ==> exists i :: 0 <= i < |cookies| && cookies[i] == Cookie(key, r.value)
                                   && forall j :: 0 <= j < i ==> cookies[j].key != key
  {
    if |cookies| == 0 then None
    else if cookies[0].key == key then Some(cookies[0].value)
    else
      var r := FindCookie(cookies[1..], key);
      if r.Some? then
        var i :| 0 <= i < |cookies[1..]| && cookies[1..][i] == Cookie(key, r.value)
                 && forall j :: 0 <= j < i ==> cookies[1..][j].key != key;
        assert cookies[i + 1] == Cookie(key, r.value);
        assert forall j :: 0 <= j < i + 1 ==> cookies[j].key != key by {
          forall j | 0 <= j < i + 1 ensures cookies[j].key != key {
            if j > 0 { assert cookies[j] == cookies[1..][j - 1]; }
          }
        }
        r
      else r
  }

  /** `!token`: absent or empty. */
  predicate Missing(token: Option<string>) {
    token.None? || token.value == ""
  }

  function GetAuthCookies(
    cacheFile: JsonFile, now: int, cachePath: string, dirExists: bool,
    login: nat -> Result<(), Thrown>, loggedIn: bool, cookies: seq<Cookie>): (r: AuthRun)
    // a usable cache short-circuits: its tokens, no login, no write
    ensures LoadCachedCookies(cacheFile, now).Some? ==>
              var c := LoadCachedCookies(cacheFile, now).value;
              r == AuthRun(Success(AuthTokens(c.authToken, c.ct0)), 0, None)
    // otherwise at most five logins
    ensures LoadCachedCookies(cacheFile, now).None? ==> 1 <= r.loginAttempts <= DefaultLoginRetries
    // tokens obtained by logging in are both non-empty and were saved with the current time
    ensures r.result.Success? && r.loginAttempts > 0 ==>
              && r.result.value.authToken != "" && r.result.value.ct0 != ""
              && r.saved.Some?
              && r.saved.value.record == CachedCookies(r.result.value.authToken, r.result.value.ct0, now)
    // a write happens only on success
    ensures r.saved.Some? ==> r.result.Success?
    // on a cache miss: the login attempts are those of `loginWithRetry`
    ensures LoadCachedCookies(cacheFile, now).None? ==>
              r.loginAttempts == LoginWithRetry(login, DefaultLoginRetries).calls
    // its error is rethrown as is
    ensures LoadCachedCookies(cacheFile, now).None? && LoginWithRetry(login, DefaultLoginRetries).result.Failure? ==>
              r == AuthRun(Failure(LoginWithRetry(login, DefaultLoginRetries).result.error), r.loginAttempts, None)
    // a scraper that does not report being logged in is an error
    ensures (&& LoadCachedCookies(cacheFile, now).None? && LoginWithRetry(login, DefaultLoginRetries).result.Success?
             && !loggedIn)
            ==> r.result == Failure(Error(LoginFailedMessage)) && r.saved.None?
    // a missing token fails the call even after a successful login
    ensures (&& LoadCachedCookies(cacheFile, now).None? && LoginWithRetry(login, DefaultLoginRetries).result.Success?
             && loggedIn
             && (Missing(FindCookie(cookies, "auth_token")) || Missing(FindCookie(cookies, "ct0"))))
            ==> r.result == Failure(Error(MissingTokenMessage)) && r.saved.None?
    // otherwise the tokens are exactly the first `auth_token` and `ct0` cookies
    ensures (&& LoadCachedCookies(cacheFile, now).None? && LoginWithRetry(login, DefaultLoginRetries).result.Success?
             && loggedIn
             && !Missing(FindCookie(cookies, "auth_token")) && !Missing(FindCookie(cookies, "ct0")))
            ==> r.result == Success(AuthTokens(FindCookie(cookies, "auth_token").value, FindCookie(cookies, "ct0").value))
  {
    var cached := LoadCachedCookies(cacheFile, now);
    if cached.Some? then
      AuthRun(Success(AuthTokens(cached.value.authToken, cached.value.ct0)), 0, None)
    else
      var run := LoginWithRetry(login, DefaultLoginRetries);
      if run.result.Failure? then AuthRun(Failure(run.result.error), run.calls, None)
      else if !loggedIn then AuthRun(Failure(Error(LoginFailedMessage)), run.calls, None)
      else
        var authToken := FindCookie(cookies, "auth_token");
        var ct0 := FindCookie(cookies, "ct0");
        if Missing(authToken) || Missing(ct0) then AuthRun(Failure(Error(MissingTokenMessage)), run.calls, None)
        else
          var w := SaveCookies(cachePath, dirExists, authToken.value, ct0.value, now);
          AuthRun(Success(AuthTokens(authToken.value, ct0.value)), run.calls, Some(w))
  }

  /** Tokens saved by a login are reused, without logging in, by any later
      run that starts within seven days. */
  lemma SessionReusedWithinExpiry(
    cacheFile: JsonFile, now: int, cachePath: string, dirExists: bool,
    login: nat -> Result<(), Thrown>, loggedIn: bool, cookies: seq<Cookie>,
    later: int, login2: nat -> Result<(), Thrown>, loggedIn2: bool, cookies2: seq<Cookie>)
    requires LoadCachedCookies(cacheFile, now).None?
    requires GetAuthCookies(cacheFile, now, cachePath, dirExists, login, loggedIn, cookies).result.Success?
    requires now <= later <= now + ExpiryMs
    ensures var first := GetAuthCookies(cacheFile, now, cachePath, dirExists, login, loggedIn, cookies);
            var second := GetAuthCookies(Parsed(ToValue(first.saved.value.record)), later, cachePath, true, login2, loggedIn2, cookies2);
            second == AuthRun(first.result, 0, None)
  {
    var first := GetAuthCookies(cacheFile, now, cachePath, dirExists, login, loggedIn, cookies);
    ToValueRoundTrip(first.saved.value.record);
  }

  /** A login that keeps failing with a 503 is given up after five attempts
      and nothing is saved. */
  lemma LoginGivenUpAfterFiveUnavailable(
    cacheFile: JsonFile, now: int, cachePath: string, dirExists: bool,
    login: nat -> Result<(), Thrown>, loggedIn: bool, cookies: seq<Cookie>)
    requires LoadCachedCookies(cacheFile, now).None?
    requires forall k :: login(k).Failure? && IsServiceUnavailable(login(k).error)
    ensures var r := GetAuthCookies(cacheFile, now, cachePath, dirExists, login, loggedIn, cookies);
            r == AuthRun(Failure(login(5).error), 5, None)
  {
    AlwaysUnavailable(login, DefaultLoginRetries);
  }
}
