/** `main` of `main.ts` and the bootstrap around it: validate the
    configuration, obtain a session, fetch the account's user id and its
    timeline (each fetch behind `withRetry` with a 2-second base delay),
    then notify; any throw ends the process with exit code 1, an invalid
    configuration with exit code 0. */
module Program {
  import opened Wrappers
  import opened JsValue
  import opened Notified
  import Retry
  import Auth
  import Pipeline

  const TargetScreenName: string := "ekusas55000"
  const UserMissingMessage: string := "ユーザーデータの取得に失敗しました"

  /** The options both fetches pass: three attempts, a 2-second base and
      the default 30-second ceiling. */
  function FetchOptions(operationName: string): (opts: Retry.RetryOptions)
    ensures opts.maxRetries == 3 && opts.baseDelayMs == 2000
    ensures opts.maxDelayMs == Retry.DefaultRetryOptions.maxDelayMs
  {
    Retry.RetryOptions(3, 2000, Retry.DefaultRetryOptions.maxDelayMs, operationName)
  }

  const UserFetchName: string := "ユーザー情報取得"
  const TweetsFetchName: string := "ユーザーツイート取得"

  /** What `getAuthCookies` sees: the cache file, the clock, the cache
      location and the scraper's oracles. */
  datatype SessionWorld = SessionWorld(
    cacheFile: JsonFile, now: int, cachePath: string, dirExists: bool,
    login: nat -> Result<(), Thrown>, loggedIn: bool, cookies: seq<Auth.Cookie>)

  /** Everything a run depends on.  `client` is the outcome of
      `api.getClientFromCookies`; `userApi(k)` is the k-th attempt of
      `getUserByScreenName`, giving `data.user?.restId`; `tweetsApi(id, k)`
      the k-th attempt of `getUserTweets` for user `id`, giving `data.data`
      (which may be absent); `sink(k)` the k-th Discord send. */
  datatype World = World(
    configValid: bool,
    session: SessionWorld,
    client: Result<(), Thrown>,
    userApi: nat -> Result<Option<string>, Thrown>,
    tweetsApi: (string, nat) -> Result<Option<seq<Pipeline.TweetResult>>, Thrown>,
    ledger: Ledger,
    sink: nat -> Result<(), Thrown>)

  /** The effects of a run and the ledger it leaves on disk, also when it
      ends with an error. */
  datatype MainRun = MainRun(result: Result<(), Thrown>, effects: seq<Pipeline.Effect>, ledger: Ledger)

  function Session(w: SessionWorld): Auth.AuthRun {
    Auth.GetAuthCookies(w.cacheFile, w.now, w.cachePath, w.dirExists, w.login, w.loggedIn, w.cookies)
  }

  function FetchUser(w: World): Retry.RetryRun<Option<string>> {
    Retry.WithRetry(w.userApi, FetchOptions(UserFetchName))
  }

  function FetchTweets(w: World, userId: string): Retry.RetryRun<Option<seq<Pipeline.TweetResult>>> {
    Retry.WithRetry(k => w.tweetsApi(userId, k), FetchOptions(TweetsFetchName))
  }

  /** Configuration, session, client and user all obtained: the user id. */
  predicate Ready(w: World) {
    && w.configValid && Session(w.session).result.Success? && w.client.Success?
    && FetchUser(w).result.Success? && FetchUser(w).result.value.Some?
  }

  /** `main`, as a value of the world it runs in.  Thrown errors become
      `Failure`. */
  function MainBody(w: World): (r: MainRun)
    // whatever happens, the ledger on disk is the old one plus the recorded ids
    ensures Ids(r.ledger) == Ids(w.ledger) + Pipeline.RecordedIds(r.effects)
    // an invalid configuration returns before any request
    ensures !w.configValid ==> r == MainRun(Success(()), [], w.ledger)
    // a session failure is rethrown before any effect
    ensures w.configValid && Session(w.session).result.Failure? ==>
              r == MainRun(Failure(Session(w.session).result.error), [], w.ledger)
    // a client that cannot be created is rethrown before any fetch
    ensures w.configValid && Session(w.session).result.Success? && w.client.Failure? ==>
              r == MainRun(Failure(w.client.error), [], w.ledger)
    // a failed user fetch is rethrown; a response without a user is an error
    ensures w.configValid && Session(w.session).result.Success? && w.client.Success? && FetchUser(w).result.Failure? ==>
              r == MainRun(Failure(FetchUser(w).result.error), [], w.ledger)
    ensures w.configValid && Session(w.session).result.Success? && w.client.Success? && FetchUser(w).result == Success(None) ==>
              r == MainRun(Failure(Error(UserMissingMessage)), [], w.ledger)
    // a failed timeline fetch is rethrown before any effect
    ensures Ready(w) && FetchTweets(w, FetchUser(w).result.value.value).result.Failure? ==>
              r == MainRun(Failure(FetchTweets(w, FetchUser(w).result.value.value).result.error), [], w.ledger)
    // otherwise the run is the notification step on the fetched timeline, `[]` when absent
    ensures Ready(w) && FetchTweets(w, FetchUser(w).result.value.value).result.Success? ==>
              var n := Pipeline.Notify(FetchTweets(w, FetchUser(w).result.value.value).result.value.GetOr([]), w.ledger, w.sink);
              r == MainRun(n.outcome, n.effects, n.ledger)
    // so any effect needs both fetches to have succeeded
    ensures |r.effects| > 0 || r.ledger != w.ledger ==>
              Ready(w) && FetchTweets(w, FetchUser(w).result.value.value).result.Success?
  {
    if !w.configValid then MainRun(Success(()), [], w.ledger)
    else
      var session := Session(w.session).result;
      if session.Failure? then MainRun(Failure(session.error), [], w.ledger)
      else if w.client.Failure? then MainRun(Failure(w.client.error), [], w.ledger)
      else
        var user := FetchUser(w).result;
        if user.Failure? then MainRun(Failure(user.error), [], w.ledger)
        else if user.value.None? then MainRun(Failure(Error(UserMissingMessage)), [], w.ledger)
        else
          var userId := user.value.value;
          var data := FetchTweets(w, userId).result;
          if data.Failure? then MainRun(Failure(data.error), [], w.ledger)
          else
            var tweets := data.value.GetOr([]);
            var n := Pipeline.Notify(tweets, w.ledger, w.sink);
            MainRun(n.outcome, n.effects, n.ledger)
  }

  /** The bootstrap: exit code 1 when `main` throws, 0 otherwise. */
  function ExitCode(w: World): (code: int)
    ensures code == 0 || code == 1
    ensures code == 0 <==> MainBody(w).result.Success?
  {
    if MainBody(w).result.Failure? then 1 else 0
  }

  /** An invalid configuration ends the run with exit code 0 and touches
      nothing. */
  lemma InvalidConfigExitsZero(w: World)
    requires !w.configValid
    ensures ExitCode(w) == 0 && MainBody(w).effects == [] && MainBody(w).ledger == w.ledger
  {
  }

  /** A user fetch that fails three times in a row fails the process,
      whatever the other oracles do, and nothing is sent or recorded. */
  lemma UserFetchGivenUp(w: World)
    requires w.configValid && Session(w.session).result.Success? && w.client.Success?
    requires forall k :: 1 <= k <= 3 ==> w.userApi(k).Failure?
    ensures ExitCode(w) == 1 && MainBody(w).effects == []
  {
    assert FetchUser(w).result.Failure?;
  }

  /** A first run (no ledger file) never sends a message and never fails
      after the fetches. */
  lemma FirstRunSendsNothing(w: World)
    requires IsFirst(w.ledger)
    ensures Pipeline.SentIds(MainBody(w).effects) == []
    ensures MainBody(w).result.Failure? ==> MainBody(w).effects == []
  {
    var r := MainBody(w);
    if |r.effects| > 0 || r.ledger != w.ledger {
      var tweets := FetchTweets(w, FetchUser(w).result.value.value).result.value.GetOr([]);
      Pipeline.FirstRunSeedsWithoutSending(tweets, w.ledger, w.sink);
    }
  }
}
