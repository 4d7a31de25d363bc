# sasuke-dinner-notify, modelled in Dafny

This project models the notifier that watches the X/Twitter account
`ekusas55000` for posts about "サスケ・ディナー" and forwards them to a
Discord channel. It covers the parts of the repository that make decisions.
Everything they talk to is an input: the file system, the clock, the
scraper, the GraphQL API and Discord.

| file | module | what it models |
|---|---|---|
| `wrappers.dfy` | `Wrappers` | `Option` / `Result` with `:-` propagation |
| `strings.dfy` | `Strings` | `startsWith`, `includes`, `lastIndexOf`, `split('/').pop()`, decimal rendering |
| `jsvalue.dfy` | `JsValue` | untyped JavaScript values: truthiness, `??`, `.`/`?.`, spread, thrown values, a parsed JSON file |
| `session_cache.dfy` | `SessionCache` | the cookie cache of `src/main.ts` (structure check, seven-day expiry, save location) |
| `retry.dfy` | `Retry` | `withRetry` and `loginWithRetry` (attempt bounds, capped exponential sleeps) |
| `auth.dfy` | `Auth` | `getAuthCookies` (cache hit, login, cookie extraction, save) |
| `transport.dfy` | `Transport` | the request normalisation of `cycleTLSFetchWithProxy` (headers, body, proxy, user agent) |
| `notified.dfy` | `Notified` | the TypeScript ledger `src/notified.ts` |
| `py_ledger.dfy` | `PyLedger` | the Python ledger of `src/__init__.py` |
| `legacy_pipeline.dfy` | `LegacyPipeline` | the Python `main` loop of `src/__main__.py` |
| `config.dfy` | `Config` | `PATH`, `isConfig`, `getConfig` |
| `timeline.dfy` | `Timeline` | `getTweet`, `createStatusObject`, `waitTweet`, `getUserTweets`, `getUserScreenName` of `src/twitter.ts` |
| `pipeline.dfy` | `Pipeline` | steps 3–5 of `main` in `src/main.ts`: seeding, filtering, oldest-first dispatch, record-after-send |
| `program.dfy` | `Program` | `main` end to end and its exit code |

How the outside world is represented:

- Oracles stand for calls whose outcome the program cannot control: a login
  attempt, an API fetch, a Discord send. Each is a total function from the
  call number (1, 2, … for retries, 0, 1, … for sends) to a `Result`. A
  thrown exception is a `Failure` carrying a `Thrown` value.
- A file is a value: `Missing`, `Unparsable` or `Parsed(json)` for a JSON
  file the code parses, and `Option<seq<…>>` for the two ledgers.
- Time is an integer `now` in milliseconds.
- Sleeps are recorded as their lengths: the retry delays and the 1-second
  rate-limit `Slept` effect.
- Timers and the response queue that `waitTweet` polls become a sequence of
  `PollEvent`s. Each event is a poll with what `getTweet` made of the queued
  response, if any, or the ten-second `Deadline`.
- A run's effects on the outside world are a sequence of `Effect`s: a
  message `Sent`, an id `Recorded`, and, in `src/main.ts`, a `Slept`.

Where the code and its documentation disagree, the model follows the code:

- An invalid configuration makes `main` return normally, so the process
  exits with code 0 (`Program.InvalidConfigExitsZero`).
- Messages go out in the REVERSE of fetch order: `toReversed()` turns a
  newest-first timeline into oldest-first sending (`Pipeline.SendOrderOfThree`).
- A cache hit does not check that the cached tokens are non-empty. Only the
  login path rejects empty tokens (`Auth.GetAuthCookies`).
- One record without a `legacy` payload makes `getTweet` throw for the
  whole batch. Inside `waitTweet`'s interval callback that is an unhandled
  rejection, modelled as `Unhandled` / `Crashed`.
- Both ledgers are lists, not sets: adding a present id stores it twice.
- `src/main.ts` defaults its paths with `??`, so an empty variable is kept.
  `src/config.ts` uses `||`, so an empty variable falls back
  (`Pipeline.NotifiedPathDiffersFromConfig`).
- The Python loop checks membership against the list loaded at start-up
  only. Its "first run" means "empty list", while the TypeScript ledger
  means "no file" (`LegacyPipeline.EmptyListIsFirstRun`).
- Headers given as an ARRAY of pairs are stored under their indices and
  never set the user agent (`Transport.BuildOptions`); see "## Findings".
- `main.ts` uses an instance API on the ledger (`new Notified(path)`,
  `isFirst`, `isNotified`, `add`). The `src/notified.ts` shown has static
  methods over `PATH.notified` instead. The model gives the pipeline the
  shown semantics over an explicit ledger value, at the path `main.ts`
  computes.

## Model

| member | source | states |
|---|---|---|
| `SessionCache.CookieCachePath` | src/main.ts:14-15 | an unset `COOKIE_CACHE_PATH` gives `./data/twitter-cookies.json`; any set value, even an empty one, is used as is |
| `SessionCache.LoadCachedCookies` | src/main.ts:198-221 | a cache is used exactly when the file parses, `auth_token` and `ct0` are strings, `savedAt` is a number, and no more than the expiry window has passed; every other case, read errors included, yields nothing |
| `SessionCache.IsValidCachedCookies` | src/main.ts:186-196 | the structural check accepts exactly the objects holding the serialised form of some record (string `auth_token` and `ct0`, number `savedAt`, extra fields allowed); `null` and `undefined` never pass |
| `SessionCache.CacheDir` | src/main.ts:224-227 | the directory is a prefix of the path ending just before its last `/`, with no `/` after it; a path without `/` has no directory |
| `SessionCache.SaveCookies` | src/main.ts:223-237 | the record written holds the two tokens and the current time; a directory is created exactly when it is non-empty and missing |
| `SessionCache.ToValueRoundTrip` | src/main.ts:186-196 | what `saveCookies` serialises passes `isValidCachedCookies` and reads back as the same record |
| `SessionCache.SaveThenLoad` | src/main.ts:203-213 | a saved record loads back intact at `now` iff `now - savedAt <= 604800000` (7 × 24 × 60 × 60 × 1000) |
| `SessionCache.ExpiryBoundary` | src/main.ts:208-212 | the expiry test is strict: accepted at exactly `savedAt + 7 days`, rejected one millisecond later |
| `SessionCache.RejectedWhenStructureWrong` | src/main.ts:186-207 | an object whose `savedAt` is not a number is rejected whatever its tokens |
| `SessionCache.DefaultCacheDir` | src/main.ts:224-230 | with the default path, the directory created is `./data` |
| `Retry.RetryFrom` | src/main.ts:258-274 | from attempt `a`: calls stay within `a..maxRetries`; every call before the last failed; success returns the last call's value; failure happens only at `maxRetries` and rethrows that call's error; the k-th sleep is `min(base·2^(k-1), maxDelay)` |
| `Retry.WithRetry` | src/main.ts:242-279 | at most `maxRetries` calls; succeeds iff some attempt within the bound succeeds, returning the first success; otherwise rethrows the last attempt's error; with `maxRetries <= 0` makes no call and throws the "… 回のリトライ後に失敗しました" error; sleeps follow the capped doubling schedule |
| `Retry.LoginFrom` | src/main.ts:292-311 | every retried failure was a 503; a non-503 error propagates from the attempt that raised it; a 503 propagates only at the last attempt; sleeps start at 1 s, double, and are capped at 30 s |
| `Retry.LoginWithRetry` | src/main.ts:284-312 | the same bounds with the default of 5; with `maxRetries <= 0` it returns without logging in and without throwing |
| `Retry.IsServiceUnavailable` | src/main.ts:297-301 | a thrown value that is not an `Error` is never a 503, nor is a `JSON.parse` `SyntaxError` (its engine-specific message is taken never to mention 503); an `Error` or `TypeError` is one exactly when "503" or "Service Unavailable" occurs somewhere in its message |
| `Retry.LoginFromAgreesWithRetryFrom` | src/main.ts:258-311 | when every failure is a 503, the login loop from any attempt makes the same calls, outcome and sleeps as the generic loop with a 1 s base and a 30 s cap |
| `Retry.LoginAgreesWithGenericRetry` | src/main.ts:284-311 | the same equivalence for whole runs: `loginWithRetry` equals `withRetry(…, {base 1000, max 30000})` when only 503s occur |
| `Retry.NonTransientFailsFast` | src/main.ts:297-309 | a first failure that is not a 503 ends the login after one attempt, rethrowing it, with no sleep |
| `Retry.AlwaysUnavailable` | src/main.ts:292-311 | a login that always answers 503 is tried exactly `maxRetries` times, rethrows the last 503, and sleeps the sum of the first `maxRetries - 1` capped delays |
| `Retry.ScheduleSum` | src/main.ts:268 | the total sleep of a schedule is the sum of the capped delays `1..n` |
| `Retry.LoginScheduleValues` | src/main.ts:304 | the login sleeps are 1, 8 and 16 s at steps 1, 4 and 5, reach the 30 s cap at step 6, and the first four add up to 15 s |
| `Retry.BackoffMonotone` | src/main.ts:268 | for a non-negative base, a delay never exceeds the cap and never shrinks from one attempt to the next |
| `Auth.FindCookie` | src/main.ts:353-354 | `find` yields the value of the FIRST cookie with the key, and nothing iff no cookie has it |
| `Auth.GetAuthCookies` | src/main.ts:317-365 | a usable cache returns its tokens with no login and no write; otherwise the login attempts are those of `loginWithRetry` (1–5), whose error is rethrown as is; a scraper not reporting itself logged in fails with "ログインに失敗しました"; a missing or empty `auth_token` or `ct0` fails with the cookie error; otherwise the result is exactly the first `auth_token` and `ct0` cookie values, saved with the current time |
| `Auth.SessionReusedWithinExpiry` | src/main.ts:321-364 | tokens saved by a successful login are returned, without logging in, by any later call within seven days |
| `Auth.LoginGivenUpAfterFiveUnavailable` | src/main.ts:339-345 | five 503s in a row fail the call after exactly five logins, with nothing saved |
| `Transport.FoldPairs` | src/main.ts:65-67 | the header map has exactly the names that occur in the pairs, and each name maps to its last occurrence's value |
| `Transport.FoldPairsLastWins` | src/main.ts:65-67 | appending a pair overrides that name and leaves every other name's value unchanged |
| `Transport.NormalizeHeaders` | src/main.ts:59-84 | the header map the code evidently intends (the corrected half of the finding): no headers give an empty map, a plain record is copied, and every pair-carrying shape, arrays included, is folded by name |
| `Transport.PairShapesAgree` | src/main.ts:63-79 | under the intended fold a `Headers` object, an array of pairs and another iterable carrying the same pairs give the same map; as written the array differs (`HeadersAsWritten`) |
| `Transport.ArrayHeadersAsWritten` | src/main.ts:63-67 | as written, an array is caught by the `entries()` test, so every key of the result is a decimal index holding a whole pair |
| `Transport.ArrayHeadersLoseNames` | src/main.ts:63-72 | as written, no header whose name is not all digits survives an array of pairs |
| `Transport.HeadersAsWritten` | src/main.ts:59-84 | the headers object as the code builds it: an array of pairs gives the index-keyed map, which has no `user-agent` entry; every other shape gives what the intended fold gives |
| `Transport.ArrayUserAgentCounterexample` | src/main.ts:63-135 | `[['user-agent','X']]` is sent as written with the default user agent and no `user-agent` header, and as intended with the user agent `X` |
| `Transport.UserAgent` | src/main.ts:133-135 | the user agent is never empty; it is the lower-case `user-agent` header when that is non-empty, and the fixed Chrome 135 string otherwise |
| `Transport.LastUserAgentWins` | src/main.ts:65-135 | a `user-agent` pair given last decides the user agent of a folded header list, whatever precedes it; an empty one gives the default |
| `Transport.ChooseBody` | src/main.ts:86-96 | no body exactly when `init.body` is falsy (absent or the empty string); a string is sent as is, a `URLSearchParams` or other object in its serialised form |
| `Transport.NormalizeProxyServer` | src/main.ts:101-106 | the result always has an `http://` or `https://` scheme and ends with the server; a server that already has a scheme is kept; otherwise `http://` is prepended |
| `Transport.NormalizeProxyServerIdempotent` | src/main.ts:103-106 | normalising twice is normalising once |
| `Transport.ProxyFor` | src/main.ts:98-124 | no or empty `PROXY_SERVER` means no proxy, and a set one always yields the normalised proxy when the call succeeds; credentials are attached iff both user name and password are non-empty and the URL parses; the call fails iff both are set and the URL does not parse, with the "Invalid PROXY_SERVER URL" error |
| `Transport.HalfCredentialsIgnored` | src/main.ts:108-123 | a user name without a password, or with an empty one, gives the bare proxy and never an error |
| `Transport.BuildOptions` | src/main.ts:59-139 | the options as written: the headers object of `HeadersAsWritten`; the user agent is the default for an array of pairs and otherwise chosen from the folded headers; the body is `ChooseBody`'s; the proxy is `ProxyFor`'s, and building fails iff, and with the error with which, the proxy does |
| `Transport.IntendedOptions` | src/main.ts:59-139 | the corrected options: the same body and proxy, with every header shape folded by name and the user agent chosen from that map |
| `Transport.LastPairSetsUserAgent` | src/main.ts:59-84 | under the intended fold, a non-empty `user-agent` pair given last is the user agent for a `Headers` object, an array and any other iterable alike |
| `Transport.AsWrittenAgreesOffArrays` | src/main.ts:59-139 | for every header shape other than an array the options as written equal the intended ones: the defect is confined to arrays |
| `Strings.LastSegment` | src/twitter.ts:38 | `split('/').pop()` is a suffix of the input with no `/`, preceded by a `/` whenever it is shorter than the input |
| `Strings.LastIndexOf` | src/main.ts:226 | the result is -1 or a position holding the character, with no later occurrence |
| `Strings.ContainsIffOccurs` | src/main.ts:481 | `includes` holds exactly when the substring occurs at some position |
| `Strings.NatToStringRoundTrip` | src/__main__.py:33 | `str(id)` loses nothing: reading the digits back gives the id |
| `Notified.AddNotified` | src/notified.ts:18-25 | the file afterwards holds the old list (or `[]`) with the id appended at the end: one longer, the same prefix |
| `Notified.IsFirst` | src/notified.ts:5-8 | a first run (no file) reads an empty list and notifies no id; an existing file holding `[]` is not a first run |
| `Notified.IsNotified` | src/notified.ts:10-16 | an id is notified exactly when it occurs at some position of the list read, `[]` without a file, so never without a file |
| `Notified.AddNotifiedEffect` | src/notified.ts:5-25 | after an add the file exists (not first), the id is notified, and every other id keeps its membership |
| `Notified.AddNotifiedMonotone` | src/notified.ts:10-25 | membership only grows |
| `Notified.AddNotifiedDuplicates` | src/notified.ts:23 | re-adding a present id changes no `isNotified` answer but stores a second copy |
| `Notified.AddAll` | src/notified.ts:18-25 | adding ids one by one appends them all in order; adding none leaves the file as it was |
| `Notified.AddAllNotifies` | src/notified.ts:10-25 | after adding a list of ids, each of them and every earlier member is notified |
| `PyLedger.LoadNotifiedIds` | src/__init__.py:57-63 | an absent file reads as `[]`; otherwise its list |
| `PyLedger.SaveLoadRoundTrip` | src/__init__.py:57-75 | saving then loading gives back the list |
| `PyLedger.AddNotifiedId` | src/__init__.py:66-69 | the list grows by exactly one, keeps its prefix and ends with the id, which is then a member |
| `PyLedger.AddKeepsDuplicates` | src/__init__.py:66-69 | adding a present id increases its count by one |
| `LegacyPipeline.Permalink` | src/__main__.py:33 | every permalink starts with `https://twitter.com/ekusas55000/status/` |
| `LegacyPipeline.PermalinkInjective` | src/__main__.py:33 | different ids get different permalinks |
| `LegacyPipeline.Process` | src/__main__.py:31-54 | the list grows by exactly the recorded ids; every recorded id is a qualifying tweet's (media key present, not in the initial list); a first run only records; otherwise each record directly follows the send of that tweet's permalink; an `IndexError` comes from a qualifying tweet with an empty media list; a failed post happens only on a non-first run |
| `LegacyPipeline.LegacyMain` | src/__main__.py:22-54 | the file afterwards is the start-up list with the recorded ids appended; only media-bearing tweets absent from that list are recorded; an empty start-up list posts nothing, otherwise every record directly follows its post; a raising post happens only with a non-empty start-up list |
| `LegacyPipeline.Step` | src/__main__.py:41-54 | acting on a tweet records its id last; it sends first (its permalink and first media URL) iff the run is not first |
| `LegacyPipeline.ProcessMatchesExpected` | src/__main__.py:31-54 | with non-empty media lists and posts that never raise, the run aborts nowhere and its effects are, for each qualifying tweet in search order, its message (except on a first run) then its id |
| `LegacyPipeline.FirstRunRecordsWithoutSending` | src/__main__.py:22-54 | with no file, nothing is posted, nothing aborts, and every media-bearing tweet's id is recorded in order |
| `LegacyPipeline.EmptyListIsFirstRun` | src/__main__.py:23-24 | an existing but empty list also makes a first run (no post), where the TypeScript ledger would not call it first |
| `LegacyPipeline.DuplicateInOneBatchSentTwice` | src/__main__.py:37-38 | the same new tweet twice in one search result is posted and recorded twice |
| `Config.PathOr` | src/config.ts:3-6 | a set, non-empty variable is used; an unset or empty one falls back to the default |
| `Config.GetPaths` | src/config.ts:3-6 | neither path is ever empty, and a set, non-empty variable is used as is |
| `Config.EmptyEnvFallsBack` | src/config.ts:3-6 | empty variables give `./config.json` and `./notified.json` |
| `Config.IsConfig` | src/config.ts:29-40 | a configuration passes exactly when its five leaf entries are truthy (the object, `twitter` and `discord` tests add nothing), and then `twitter` and `discord` are objects |
| `Config.TypedConfigValid` | src/config.ts:29-40 | a well-typed configuration passes iff none of its five strings is empty, whatever its proxy |
| `Config.ProxyNotInspected` | src/config.ts:26-40 | setting, changing or removing `proxy` never changes the verdict |
| `Config.NonObjectRejected` | src/config.ts:29-31 | a value that is not an object never passes |
| `Config.GetConfig` | src/config.ts:42-50 | a missing file fails with "Config file not found"; an unparsable one with the parse error; a parsed one that fails `isConfig` with "Invalid config"; otherwise the parsed value is returned |
| `Config.EmptyTokenInvalid` | src/config.ts:37-48 | an empty Discord token is rejected as "Invalid config" |
| `Timeline.AddedEntries` | src/twitter.ts:104-106 | every entry taken comes from a `TimelineAddEntries` instruction that carries it |
| `Timeline.Defined` | src/twitter.ts:150-152 | `filterUndefined` keeps exactly the values other than `undefined` and never lengthens the list |
| `Timeline.EntryResult` | src/twitter.ts:108-109 | a value is among an entry's records exactly when the entry is a `tweet-` entry with `itemContent` and the value is its defined result or, for an array result, a defined item of it; at most the entry's width many |
| `Timeline.TweetResultsFromTweetEntries` | src/twitter.ts:102-110 | a value is extracted exactly when some `tweet-` entry yields it: its defined result, or a defined item of an array result that `flatMap` spreads |
| `Timeline.RawTweetsAppend` | src/twitter.ts:100-110 | extraction works instruction by instruction and keeps the order |
| `Timeline.OtherInstructionsIgnored` | src/twitter.ts:105 | an instruction of another kind contributes nothing, whatever entries it carries |
| `Timeline.NonTweetEntriesIgnored` | src/twitter.ts:108 | an entry without the `tweet-` prefix contributes nothing |
| `Timeline.LegacyOf` | src/twitter.ts:117 | the outer `legacy` when it is not nullish, else the wrapped `tweet.legacy`, else undefined; it throws only when the record itself is nullish |
| `Timeline.UserResultOf` | src/twitter.ts:118-121 | the outer `core.user_results.result` wins when present; a `core` without `user_results` throws a `TypeError`; a record with neither path has no user |
| `Timeline.StatusBase` | src/twitter.ts:125-133 | the defaults set `truncated` to false, `source` to the record's source or "NULL", and a missing user to `{id_str: "NULL"}` |
| `Timeline.RebuiltFields` | src/twitter.ts:134-141 | exactly `display_text_range` and `entities` are set after the spread |
| `Timeline.CreateStatusObject` | src/twitter.ts:116-142 | a record converts exactly when both lookups succeed and its legacy payload is truthy, and then into the status built from that payload and user; a nullish record throws a `TypeError`; a throwing user lookup propagates its error before the legacy test; otherwise a falsy legacy fails with "Failed to get legacy" |
| `Timeline.StatusKeepsLegacyFields` | src/twitter.ts:124-140 | in the status object built from a record, its legacy payload and user result (the value `CreateStatusObject` returns on success), every legacy field other than the two rebuilt ones is present and unchanged |
| `Timeline.StatusDefaults` | src/twitter.ts:124-140 | in that status object, `truncated` is false, `source` is the record's own or `'NULL'`, and `user` is `{id_str: 'NULL'}` without a user result, each unless the spread legacy payload carries the same key |
| `Timeline.WrappedRecordUsesInnerLegacy` | src/twitter.ts:117-121 | a `{tweet: {legacy, core}}` record converts, and its status carries the inner legacy fields |
| `Timeline.MissingLegacy` | src/twitter.ts:117-124 | an empty record fails with "Failed to get legacy"; a wrapper without `core` fails earlier with a `TypeError` |
| `Timeline.MapOrThrow` | src/twitter.ts:111-113 | on success, one converted status per record in order; on failure, the error of the first record that throws, all earlier ones having converted |
| `Timeline.OneBadRecordFailsBatch` | src/twitter.ts:111-113 | one record that cannot be converted fails the whole response |
| `Timeline.GetTweetBound` | src/twitter.ts:99-114 | a successful extraction is never longer than the entries' total width (array results count their length), and never longer than the number of `tweet-` entries when no result is an array |
| `Timeline.ArrayResultFlattened` | src/twitter.ts:108-113 | one `tweet-` entry whose result is an array of two records yields two records, and one whose result is an empty array yields none, so `getTweet` succeeds with `[]` |
| `Timeline.GetTweet` | src/twitter.ts:99-114 | success exactly when every extracted record converts, with one status per record in order; a failure is the error of some record that does not convert |
| `Timeline.WaitTweet` | src/twitter.ts:79-97 | a wait resolves with a non-empty batch that is the first poll not ignored, every earlier poll having been empty or tweet-less |
| `Timeline.WaitTakesFirstArrival` | src/twitter.ts:84-95 | a resolved wait takes the first arriving batch and leaves the rest to the next wait; a wait that does not resolve leaves no batch behind |
| `Timeline.QueuePolls` | src/twitter.ts:84-90 | one poll per tick, each carrying `getTweet` of the response shifted off the queue, or nothing |
| `Timeline.WaitOnQueue` | src/twitter.ts:79-97 | over a response queue, after responses that are absent or yield no tweets, `waitTweet` resolves with what `getTweet` makes of the first response with tweets, or crashes with the error of a response that makes it throw |
| `Timeline.WaitAfterIgnored` | src/twitter.ts:84-95 | after `i` ignored polls the wait is decided by poll `i`: its batch when non-empty, its error when `getTweet` threw |
| `Timeline.CollectFrom` | src/twitter.ts:64-71 | batches are non-empty and a prefix of the arrivals; the loop stops for the limit iff enough tweets are held; before the last batch there were fewer than `limit`; a timeout returns everything that arrived; a crash is reported as `Crashed` together with the batches before it (the process itself ends on that unhandled rejection) |
| `Timeline.GetUserTweets` | src/twitter.ts:52-77 | the result is the batches concatenated in arrival order; it reaches `limit` unless the waits ran out; it overshoots by less than the last batch; `limit <= 0` collects nothing |
| `Timeline.TimeoutYieldsWhatWasGathered` | src/twitter.ts:66-70 | a timeout before any batch ends collection without an error and with no tweets |
| `Timeline.GetUserScreenName` | src/twitter.ts:37-49 | success iff the last `/`-segment of the final URL is neither empty, the id, nor `404`, and then it is that segment; otherwise "Failed to get screen name." or, for `404`, "User not found." |
| `Timeline.ProfileRedirect` | src/twitter.ts:37-49 | a redirect to `https://twitter.com/<name>` yields `<name>` |
| `Timeline.NoRedirect` | src/twitter.ts:16-44 | staying on `/i/user/<id>` fails with "Failed to get screen name." |
| `Pipeline.NotifiedPath` | src/main.ts:454-456 | an unset `NOTIFIED_PATH` gives `./data/notified.json`; any set value, even empty, is used |
| `Pipeline.NotifiedPathDiffersFromConfig` | src/main.ts:455 | `main.ts` keeps an empty variable where `config.ts` falls back, and the two defaults differ |
| `Pipeline.FilterEligible` | src/main.ts:471-484 | never longer than the input; every kept tweet is eligible, and every fetched eligible tweet is kept |
| `Pipeline.FilterEligibleMembers` | src/main.ts:472-484 | a tweet passes the filter iff it was fetched, has a non-empty id not yet notified, contains the keyword and is not a retweet |
| `Pipeline.FilterEligibleAppend` | src/main.ts:472-484 | filtering keeps the relative order |
| `Pipeline.Reverse` | src/main.ts:488 | the send order is the fetch order reversed, element by element |
| `Pipeline.ImageUrl` | src/main.ts:496-505 | a tweet has an image iff it has a media list whose first entry has a non-empty `mediaUrlHttps`, and the image is that URL |
| `Pipeline.SendStep` | src/main.ts:507-529 | one send: the message first, then the id's record (when it has an id), never ending on a record |
| `Pipeline.Dispatch` | src/main.ts:488-530 | the ledger grows by exactly the recorded ids, which are exactly the non-empty sent ids; every record directly follows the send of the same id; the k-th message is `MessageFor` of the k-th tweet with an image; all of them are sent on success, a strict prefix on failure, and the failure is the next send's |
| `Pipeline.SeedIds` | src/main.ts:462-467 | the first run seeds every fetched tweet's non-empty id, and nothing else |
| `Pipeline.RecordAll` | src/main.ts:462-467 | seeding records the ids in order and sends nothing |
| `Pipeline.Notify` | src/main.ts:458-530 | the ledger grows by exactly the recorded ids; outside a first run each record follows its send, the recorded ids are the non-empty sent ids, and the messages are those of the eligible tweets with an image, oldest first: all of them on success, a strict prefix on failure |
| `Pipeline.FirstRunSeedsWithoutSending` | src/main.ts:458-469 | a first run sends nothing, cannot fail, and notifies every fetched tweet with an id |
| `Pipeline.EmptyFirstRunStaysFirst` | src/main.ts:459-468 | a first run that finds no id writes no file, so the next run is first again |
| `Pipeline.SeedIdsAllIds` | src/main.ts:462-467 | when every tweet has an id, the first run seeds one id per tweet |
| `Pipeline.SentTweetsEligible` | src/main.ts:472-526 | only fetched, eligible tweets with an image are ever sent |
| `Pipeline.DispatchSucceeds` | src/main.ts:488-530 | with a sink that never fails, the dispatch succeeds |
| `Pipeline.DispatchOldestFirst` | src/main.ts:488-526 | with a sink that never fails, the messages are those of the eligible tweets with an image, in reverse fetch order |
| `Pipeline.RecordedWereSent` | src/main.ts:520-526 | a recorded id was sent: tweets skipped for lack of an image are never recorded |
| `Pipeline.FilterExample` | src/main.ts:478-483 | of a matching post, a notified retweet and an unrelated post, only the first passes |
| `Pipeline.SendOrderOfThree` | src/main.ts:488 | three eligible tweets with images fetched as a, b, c are sent as c, b, a |
| `Pipeline.SecondRunSendsOnlyTheNewPost` | src/main.ts:458-526 | a first run records all fetched ids and sends nothing; the next run, with one new matching post, sends exactly that post and records one more id |
| `Pipeline.DispatchSingle` | src/main.ts:488-526 | one eligible tweet with an image and a working sink gives one send and one more ledger id |
| `Program.FetchOptions` | src/main.ts:419-448 | both fetches try three times with a 2-second base and the default 30-second cap |
| `Program.MainBody` | src/main.ts:388-531 | the ledger grows by exactly the recorded ids; an invalid configuration returns at once and touches nothing; a session, client, user-fetch or timeline-fetch error is rethrown before any effect; a response without a user is an error; otherwise the run is the notification step on the fetched `data.data`, `[]` when absent |
| `Program.ExitCode` | src/main.ts:533-546 | the exit code is 0 or 1, and 0 exactly when `main` did not throw |
| `Program.InvalidConfigExitsZero` | src/main.ts:392-398 | an invalid configuration exits with code 0 and sends and records nothing |
| `Program.UserFetchGivenUp` | src/main.ts:419-431 | three failed user fetches make the process exit with code 1, having sent nothing |
| `Program.FirstRunSendsNothing` | src/main.ts:458-469 | a run without a ledger file sends no message, and if it fails it has done nothing |

## Left out

- The CycleTLS singleton, its initialisation guard and `cleanup` (src/main.ts:24-31, 370-386): these only manage a process resource.
- The CycleTLS call, the JA3 fingerprint, method upper/lower-casing and rebuilding the response `Headers`: they are foreign calls or constants passed through unchanged.
- Embedding proxy credentials in the URL with the WHATWG URL parser: `ProxyFor` keeps the credentials as a pair, and whether `new URL` accepts the server is a boolean input.
- Serialising bodies (`URLSearchParams.toString`, `JSON.stringify`): the model carries the serialised text, not the serialiser.
- The twitter-scraper login, `isLoggedIn`, `getCookies`, the outcome of `getClientFromCookies` (the `client` input), the TwitterOpenApi calls and the Discord sends are oracles. The GraphQL response types are reduced to the fields the code reads. The `Discord` constructor is assumed not to throw.
- `SDNConfiguration` (its `load`/`validate` live in a file that is not part of this model): `main` sees its verdict as the boolean `configValid`.
- Puppeteer pages, navigation and scrolling in `src/twitter.ts` (lines 15-35, 53-62, 73-74, 144-148): the final `location.href` and the event sequence are inputs.
- Timers: `setTimeout`/`setInterval` become the event sequence and recorded sleep lengths; no time passes.
- The numeric `id` fields of `createStatusObject` (`Number(...)` of 64-bit ids, which loses precision) and `toISOString` of `createdAt`: floating point and date formatting; the message carries the raw `createdAt`.
- Logging (`Logger`, `src/__init__.py:10-36`), `pprint`, `src/config.py` (environment reads with `exit(1)`), `src/twitter.class.ts` (a thin API wrapper) and `src/discord.ts` / `send_discord_message` (HTTP): I/O with no decisions the model needs. A Python post that raises is the `sinkOk` input.
- The tweepy search (`get_search`, 20 items): its result is the input tweet sequence.
- The shape of the GraphQL envelope (`data.user.result.timeline_v2.timeline.instructions`): it is taken as its declared type, so a response missing one of those levels (which would throw a `TypeError` inside the poll) is not modelled.
- The polling interval of a `waitTweet` that timed out is never cleared and keeps draining the queue; the collection loop has stopped by then, so nothing it does reaches the value `getUserTweets` returns, but a `getTweet` throw inside it is an unhandled rejection that can end the process after `getUserTweets` has returned.
- The response body of `cycleTLSFetchWithProxy` (src/main.ts:167-177): `response.data` passed through, or stringified, or `''` for undefined/null; it decides nothing the model follows, and `JSON.stringify` is not modelled.
- SessionCache.LoadCachedCookies: JSON numbers are unbounded integers (`JsValue.Num`), so a fractional `savedAt` cannot be represented, and a `savedAt` such as `1e400`, which `JSON.parse` reads as `Infinity` and which makes `Date.now() - savedAt > expiryMs` false and the cache valid forever (src/main.ts:208-212), is not modelled.
- Pipeline.MessageFor: carries the raw `createdAt` and never fails, whereas a `createdAt` that `new Date` cannot parse makes `toISOString()` throw a `RangeError` before the send (src/main.ts:518), failing `main`.
- Auth.GetAuthCookies: assumes the cache write succeeds, whereas a failing `mkdirSync` or `writeFileSync` in `saveCookies` (src/main.ts:229, 236) makes `getAuthCookies` throw after a successful login.

## Findings

| source | as written | input that shows it | evidently intended | confidence | as-written member | corrected member |
|---|---|---|---|---|---|---|
| src/main.ts:63-72 | the first test `h.entries && typeof h.entries === 'function'` also matches a JavaScript array, whose `entries()` yields `[index, pair]`; each pair is stored under its decimal index and the `Array.isArray` branch is dead | `init.headers = [['user-agent', 'X']]`: the map becomes `{"0": ['user-agent','X']}` and the default user agent is sent (`Transport.ArrayUserAgentCounterexample`) | an array of pairs is folded like the other pair shapes, so `user-agent` is `X` | not executed; high (array iteration semantics are standard) | `Transport.BuildOptions` | `Transport.IntendedOptions` |
