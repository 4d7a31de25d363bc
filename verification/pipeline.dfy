/** The body of `main` in `main.ts` once a session exists: fetch the user
    and their tweets (each behind `withRetry`), then either seed the ledger
    (first run) or filter, reverse and dispatch the tweets, recording each id
    after its message was sent.  The API calls and the Discord sink are
    oracles indexed by call number; the ledger is the file state of the
    `Notified` model. */
module Pipeline {
  import opened Wrappers
  import opened JsValue
  import opened Strings
  import opened Notified
  import opened Retry
  import Config

  datatype MediaItem = MediaItem(mediaUrlHttps: Option<string>)
  datatype ExtendedEntities = ExtendedEntities(media: Option<seq<MediaItem>>)
  datatype Legacy = Legacy(idStr: Option<string>, fullText: Option<string>, createdAt: Option<string>,
                           extendedEntities: Option<ExtendedEntities>)
  datatype Tweet = Tweet(restId: string, legacy: Option<Legacy>)

  /** One element of `getUserTweets`' `data.data`: the tweet and the
      author's `user?.legacy?.screenName`. */
  datatype TweetResult = TweetResult(tweet: Tweet, screenName: Option<string>)

  const Keyword: string := "サスケ・ディナー"
  const RetweetMarker: string := "RT @"
  const EmbedColor: int := 0x00_ff_00
  const RateLimitSleepMs: int := 1000
  const DefaultNotifiedPath: string := "./data/notified.json"

  /** `NOTIFIED_PATH ?? './data/notified.json'`. */
  function NotifiedPath(env: Option<string>): (path: string)
    ensures env.Some? ==> path == env.value
    ensures env.None? ==> path == DefaultNotifiedPath
  {
    env.GetOr(DefaultNotifiedPath)
  }

  /** `main.ts` keeps an empty `NOTIFIED_PATH` (`??`) where `config.ts`
      falls back (`||`), and the two defaults differ. */
  lemma NotifiedPathDiffersFromConfig()
    ensures NotifiedPath(Some("")) == ""
    ensures Config.GetPaths(None, Some("")).notified == "./notified.json"
    ensures NotifiedPath(None) != Config.GetPaths(None, None).notified
  {
  }

  /** `legacy?.idStr ?? tweet.restId` */
  function IdOf(t: TweetResult): string {
    if t.tweet.legacy.Some? && t.tweet.legacy.value.idStr.Some? then t.tweet.legacy.value.idStr.value
    else t.tweet.restId
  }

  /** `legacy?.fullText ?? ''` */
  function FullText(t: TweetResult): string {
    if t.tweet.legacy.Some? && t.tweet.legacy.value.fullText.Some? then t.tweet.legacy.value.fullText.value else ""
  }

  /** The filter of step 4: a non-empty id not yet notified, the keyword in
      the text, and not a retweet. */
  predicate Eligible(t: TweetResult, ledger: Ledger) {
    && IdOf(t) != ""
    && !IsNotified(ledger, IdOf(t))
    && Contains(FullText(t), Keyword)
    && !StartsWith(FullText(t), RetweetMarker)
  }

  /** `tweets.filter(...)`, against the ledger as it was before any send. */
  function FilterEligible(tweets: seq<TweetResult>, ledger: Ledger): (r: seq<TweetResult>)
    ensures |r| <= |tweets|
    ensures forall i :: 0 <= i < |r| ==> Eligible(r[i], ledger)
    ensures forall t :: t in tweets && Eligible(t, ledger) ==> t in r
  {
    if |tweets| == 0 then []
    else Kept(tweets[0], ledger) + FilterEligible(tweets[1..], ledger)
  }

  function Kept(t: TweetResult, ledger: Ledger): seq<TweetResult> {
    if Eligible(t, ledger) then [t] else []
  }

  /** A tweet survives the filter exactly when it was fetched and is eligible. */
  lemma {:induction false} FilterEligibleMembers(tweets: seq<TweetResult>, ledger: Ledger)
    ensures forall t :: t in FilterEligible(tweets, ledger) <==> t in tweets && Eligible(t, ledger)
  {
    if |tweets| > 0 {
      FilterEligibleMembers(tweets[1..], ledger);
      assert tweets == [tweets[0]] + tweets[1..];
    }
  }

  /** Filtering keeps the relative order of the tweets. */
  lemma {:induction false} FilterEligibleAppend(a: seq<TweetResult>, b: seq<TweetResult>, ledger: Ledger)
    ensures FilterEligible(a + b, ledger) == FilterEligible(a, ledger) + FilterEligible(b, ledger)
  {
    if |a| == 0 {
      assert a + b == b;
    } else {
      assert (a + b)[0] == a[0] && (a + b)[1..] == a[1..] + b;
      FilterEligibleAppend(a[1..], b, ledger);
      assert FilterEligible(a + b, ledger) == Kept(a[0], ledger) + FilterEligible(a[1..] + b, ledger);
    }
  }

  function Reverse<T>(xs: seq<T>): (r: seq<T>)
    ensures |r| == |xs|
    ensures forall i :: 0 <= i < |xs| ==> r[i] == xs[|xs| - 1 - i]
  {
    if |xs| == 0 then [] else Reverse(xs[1..]) + [xs[0]]
  }

  /** The image of step 5: the first media entry's `mediaUrlHttps`, when
      there is a media list and that URL is non-empty. */
  function ImageUrl(t: TweetResult): (r: Option<string>)
    ensures r.Some? ==> r.value != ""
    ensures r.Some? <==>
              && t.tweet.legacy.Some? && t.tweet.legacy.value.extendedEntities.Some?
              && t.tweet.legacy.value.extendedEntities.value.media.Some?
              && |t.tweet.legacy.value.extendedEntities.value.media.value| > 0
              && t.tweet.legacy.value.extendedEntities.value.media.value[0].mediaUrlHttps.Some?
              && t.tweet.legacy.value.extendedEntities.value.media.value[0].mediaUrlHttps.value != ""
    ensures r.Some? ==> r == t.tweet.legacy.value.extendedEntities.value.media.value[0].mediaUrlHttps
  {
    if t.tweet.legacy.None? || t.tweet.legacy.value.extendedEntities.None? then None
    else
      var media := t.tweet.legacy.value.extendedEntities.value.media;
      if media.None? || |media.value| == 0 then None
      else if media.value[0].mediaUrlHttps.None? || media.value[0].mediaUrlHttps.value == "" then None
      else media.value[0].mediaUrlHttps
  }

  predicate HasImage(t: TweetResult) {
    ImageUrl(t).Some?
  }

  /** The embed sent for a tweet.  `timestamp` carries the raw `createdAt`
      when it is non-empty (its conversion to ISO 8601 is not modelled). */
  datatype Message = Message(title: string, description: string, imageUrl: string, color: int, timestamp: Option<string>)

  function TweetUrl(t: TweetResult): string {
    "https://twitter.com/" + t.screenName.GetOr("unknown") + "/status/" + IdOf(t)
  }

  function MessageFor(t: TweetResult): Message
    requires HasImage(t)
  {
    var createdAt := if t.tweet.legacy.Some? && t.tweet.legacy.value.createdAt.Some? then t.tweet.legacy.value.createdAt.value else "";
    Message(Keyword, TweetUrl(t), ImageUrl(t).value, EmbedColor, if createdAt == "" then None else Some(createdAt))
  }

  /** What the run does to the outside world, in order. */
  datatype Effect = Sent(id: string, message: Message) | Recorded(id: string) | Slept(ms: int)

  function RecordedIds(effects: seq<Effect>): seq<string> {
    if |effects| == 0 then [] else RecordedOf(effects[0]) + RecordedIds(effects[1..])
  }

  function RecordedOf(e: Effect): seq<string> {
    if e.Recorded? then [e.id] else []
  }

  function SentIds(effects: seq<Effect>): (ids: seq<string>)
    ensures |ids| <= |effects|
  {
    if |effects| == 0 then [] else SentOf(effects[0]) + SentIds(effects[1..])
  }

  function SentOf(e: Effect): seq<string> {
    if e.Sent? then [e.id] else []
  }

  /** The `Sent` effects, messages included, in order. */
  function Sends(effects: seq<Effect>): seq<Effect> {
    if |effects| == 0 then [] else SendOf(effects[0]) + Sends(effects[1..])
  }

  function SendOf(e: Effect): seq<Effect> {
    if e.Sent? then [e] else []
  }

  /** The ids among `ids` that are non-empty, in order: those `if (idStr)`
      lets through to `notified.add`. */
  function NonEmptyIds(ids: seq<string>): seq<string> {
    if |ids| == 0 then [] else (if ids[0] != "" then [ids[0]] else []) + NonEmptyIds(ids[1..])
  }

  /** Every `Recorded` directly follows the `Sent` of the same id. */
  ghost predicate RecordAfterSend(effects: seq<Effect>) {
    && (|effects| > 0 ==> !effects[0].Recorded?)
    && forall i, j {:trigger effects[i], effects[j]} ::
         0 <= i && j == i + 1 && j < |effects| && effects[j].Recorded? ==>
           effects[i].Sent? && effects[i].id == effects[j].id
  }

  datatype Run = Run(effects: seq<Effect>, ledger: Ledger, outcome: Result<(), Thrown>)

  /** The dispatch loop over `tweets` (already reversed); `sends` messages
      went out before; `sink(k)` is the outcome of the k-th send. */
  function Dispatch(tweets: seq<TweetResult>, ledger: Ledger, sink: nat -> Result<(), Thrown>, sends: nat): (r: Run)
    ensures Dispatched(ledger, sink, sends, ImageIds(tweets), ImageSends(tweets), r)
    decreases |tweets|
  {
    if |tweets| == 0 then Run([], ledger, Success(()))
    else
      var t := tweets[0];
      ImageIdsCons(t, tweets[1..]);
      ImageSendsCons(t, tweets[1..]);
      assert [t] + tweets[1..] == tweets;
      if !HasImage(t) then
        var r := Dispatch(tweets[1..], ledger, sink, sends);
        r
      else if sink(sends).Failure? then
        var r := Run([], ledger, Failure(sink(sends).error));
        r
      else
        var id := IdOf(t);
        var tail := Dispatch(tweets[1..], if id != "" then AddNotified(ledger, id) else ledger, sink, sends + 1);
        var r := Run(SendStep(id, MessageFor(t)) + tail.effects, tail.ledger, tail.outcome);
        SendThenRest(id, MessageFor(t), ledger, sink, sends, ImageIds(tweets[1..]), ImageSends(tweets[1..]), tail);
        r
  }

  /** What a dispatch from `ledger`, after `sends` sends, over tweets whose
      image ids are `image`, has done: the ledger grew by exactly the
      recorded ids, each recorded right after its send; the sends are the
      image ids in order, all of them when the run succeeds, and a strict
      prefix when it fails, in which case the failure is that of the next
      send; every sent message is the one `expected` holds at its position,
      and every send with a non-empty id is recorded. */
  ghost predicate Dispatched(ledger: Ledger, sink: nat -> Result<(), Thrown>, sends: nat, image: seq<string>,
                             expected: seq<Effect>, r: Run) {
    DispatchedIds(ledger, sink, sends, image, r) && DispatchedMessages(expected, r)
  }

  ghost predicate DispatchedIds(ledger: Ledger, sink: nat -> Result<(), Thrown>, sends: nat, image: seq<string>, r: Run) {
    DispatchedLedger(ledger, r) && DispatchedSent(sink, sends, image, r)
  }

  /** The ledger grows by the recorded ids, each recorded after its send. */
  ghost predicate DispatchedLedger(ledger: Ledger, r: Run) {
    && Ids(r.ledger) == Ids(ledger) + RecordedIds(r.effects)
    && RecordAfterSend(r.effects)
    && (|r.effects| > 0 ==> r.effects[0].Sent?)
  }

  /** The sends made: all of `image` on success, a proper prefix of it before the failing one otherwise. */
  ghost predicate DispatchedSent(sink: nat -> Result<(), Thrown>, sends: nat, image: seq<string>, r: Run) {
    && (r.outcome.Failure? ==> sink(sends + |SentIds(r.effects)|) == Failure(r.outcome.error))
    && (r.outcome.Success? ==> SentIds(r.effects) == image)
    && (r.outcome.Failure? ==> SentIds(r.effects) < image)
  }

  ghost predicate DispatchedMessages(expected: seq<Effect>, r: Run) {
    && RecordedIds(r.effects) == NonEmptyIds(SentIds(r.effects))
    && (r.outcome.Success? ==> Sends(r.effects) == expected)
    && (r.outcome.Failure? ==> Sends(r.effects) < expected)
  }

  /** One successful send in front of the rest of the dispatch. */
  lemma SendThenRest(id: string, message: Message, ledger: Ledger, sink: nat -> Result<(), Thrown>, sends: nat,
                     image: seq<string>, expected: seq<Effect>, tail: Run)
    requires Dispatched(if id != "" then AddNotified(ledger, id) else ledger, sink, sends + 1, image, expected, tail)
    ensures Dispatched(ledger, sink, sends, [id] + image, [Sent(id, message)] + expected,
                       Run(SendStep(id, message) + tail.effects, tail.ledger, tail.outcome))
  {
    SendIdsThenRest(id, message, ledger, sink, sends, image, tail);
    SendMessageThenRest(id, message, expected, tail);
  }

  lemma SendIdsThenRest(id: string, message: Message, ledger: Ledger, sink: nat -> Result<(), Thrown>, sends: nat,
                        image: seq<string>, tail: Run)
    requires DispatchedIds(if id != "" then AddNotified(ledger, id) else ledger, sink, sends + 1, image, tail)
    ensures DispatchedIds(ledger, sink, sends, [id] + image,
                          Run(SendStep(id, message) + tail.effects, tail.ledger, tail.outcome))
  {
    SendLedgerThenRest(id, message, ledger, tail);
    SendSentThenRest(id, message, sink, sends, image, tail);
  }

  lemma SendLedgerThenRest(id: string, message: Message, ledger: Ledger, tail: Run)
    requires DispatchedLedger(if id != "" then AddNotified(ledger, id) else ledger, tail)
    ensures DispatchedLedger(ledger, Run(SendStep(id, message) + tail.effects, tail.ledger, tail.outcome))
  {
    var head := SendStep(id, message);
    RecordedIdsAppend(head, tail.effects);
    RecordAfterSendAppend(head, tail.effects);
    assert (head + tail.effects)[0] == head[0];
    LedgerAfterStep(id, ledger, tail.ledger, RecordedIds(head), RecordedIds(tail.effects));
  }

  /** The ledger after one send is the one before it plus the send's record. */
  lemma LedgerAfterStep(id: string, ledger: Ledger, final: Ledger, head: seq<string>, rest: seq<string>)
    requires head == (if id != "" then [id] else [])
    requires Ids(final) == Ids(if id != "" then AddNotified(ledger, id) else ledger) + rest
    ensures Ids(final) == Ids(ledger) + (head + rest)
  {
    if id != "" {
      assert Ids(AddNotified(ledger, id)) == Ids(ledger) + [id];
    }
  }

  lemma SendSentThenRest(id: string, message: Message, sink: nat -> Result<(), Thrown>, sends: nat,
                         image: seq<string>, tail: Run)
    requires DispatchedSent(sink, sends + 1, image, tail)
    ensures DispatchedSent(sink, sends, [id] + image, Run(SendStep(id, message) + tail.effects, tail.ledger, tail.outcome))
  {
    var head := SendStep(id, message);
    SentIdsAppend(head, tail.effects);
    assert SentIds(head + tail.effects) == [id] + SentIds(tail.effects);
    PrefixCons(id, SentIds(tail.effects), image);
  }

  lemma SendMessageThenRest(id: string, message: Message, expected: seq<Effect>, tail: Run)
    requires DispatchedMessages(expected, tail)
    ensures DispatchedMessages([Sent(id, message)] + expected,
                               Run(SendStep(id, message) + tail.effects, tail.ledger, tail.outcome))
  {
    var head := SendStep(id, message);
    EffectsAppend(head, tail.effects);
    PrefixCons(Sent(id, message), Sends(tail.effects), expected);
    NonEmptyIdsCons(id, SentIds(tail.effects));
  }

  lemma NonEmptyIdsCons(x: string, ids: seq<string>)
    ensures NonEmptyIds([x] + ids) == (if x != "" then [x] else []) + NonEmptyIds(ids)
  {
    assert ([x] + ids)[1..] == ids;
  }

  lemma PrefixCons<T>(x: T, a: seq<T>, b: seq<T>)
    ensures a < b ==> [x] + a < [x] + b
    ensures a == b ==> [x] + a == [x] + b
  {
    if a < b {
      assert ([x] + a)[1..] == a && ([x] + b)[1..] == b;
      assert ([x] + b)[..|[x] + a|] == [x] + b[..|a|];
    }
  }

  /** The effects of one successful send: the message, the record of its
      id (when it has one) and the rate-limit sleep. */
  function SendStep(id: string, message: Message): (head: seq<Effect>)
    ensures SentIds(head) == [id]
    ensures Sends(head) == [Sent(id, message)]
    ensures RecordedIds(head) == (if id != "" then [id] else [])
    ensures RecordAfterSend(head)
    ensures head[0].Sent? && !head[|head| - 1].Recorded?
  {
    var record := if id != "" then [Recorded(id)] else [];
    var head := [Sent(id, message)] + (record + [Slept(RateLimitSleepMs)]);
    StepCollects(id, message, record);
    assert head[0] == Sent(id, message) && head[|head| - 1] == Slept(RateLimitSleepMs);
    assert forall i :: 0 < i < |head| - 1 ==> head[i] == Recorded(id);
    RecordsBetween(head, id);
    head
  }

  lemma StepCollects(id: string, message: Message, record: seq<Effect>)
    requires record == (if id != "" then [Recorded(id)] else [])
    ensures var head := [Sent(id, message)] + (record + [Slept(RateLimitSleepMs)]);
            && SentIds(head) == [id] && Sends(head) == [Sent(id, message)]
            && RecordedIds(head) == (if id != "" then [id] else [])
  {
    EffectsAppend([Sent(id, message)], record + [Slept(RateLimitSleepMs)]);
    EffectsAppend(record, [Slept(RateLimitSleepMs)]);
    SingletonEffect(Sent(id, message));
    SingletonEffect(Slept(RateLimitSleepMs));
    SingletonEffect(Recorded(id));
  }

  /** A send, then at most one record of its id, then something other than a record. */
  lemma RecordsBetween(head: seq<Effect>, id: string)
    requires 2 <= |head| <= 3 && head[0].Sent? && head[0].id == id && !head[|head| - 1].Recorded?
    requires forall i :: 0 < i < |head| - 1 ==> head[i] == Recorded(id)
    ensures RecordAfterSend(head)
  {
    forall i, j | 0 <= i && j == i + 1 && j < |head| && head[j].Recorded?
      ensures head[i].Sent? && head[i].id == head[j].id
    {
      assert head[j] == Recorded(id);
      if i > 0 { assert false; }
    }
  }

  lemma RecordAfterSendAppend(a: seq<Effect>, b: seq<Effect>)
    requires RecordAfterSend(a) && RecordAfterSend(b)
    requires |b| > 0 ==> !b[0].Recorded?
    ensures RecordAfterSend(a + b)
  {
    var ab := a + b;
    forall i, j | 0 <= i && j == i + 1 && j < |ab| && ab[j].Recorded?
      ensures ab[i].Sent? && ab[i].id == ab[j].id
    {
      if j < |a| {
        assert ab[i] == a[i] && ab[j] == a[j];
      } else if i >= |a| {
        assert ab[i] == b[i - |a|] && ab[j] == b[j - |a|];
      } else {
        assert false;
      }
    }
    if |a| == 0 {
      assert ab == b;
    } else {
      assert ab[0] == a[0];
    }
  }

  lemma SingletonEffect(e: Effect)
    ensures SentIds([e]) == (if e.Sent? then [e.id] else [])
    ensures Sends([e]) == (if e.Sent? then [e] else [])
    ensures RecordedIds([e]) == (if e.Recorded? then [e.id] else [])
  {
    assert [e][1..] == [];
  }

  lemma EffectsAppend(a: seq<Effect>, b: seq<Effect>)
    ensures RecordedIds(a + b) == RecordedIds(a) + RecordedIds(b)
    ensures SentIds(a + b) == SentIds(a) + SentIds(b)
    ensures Sends(a + b) == Sends(a) + Sends(b)
  {
    RecordedIdsAppend(a, b);
    SentIdsAppend(a, b);
    SendsAppend(a, b);
  }

  lemma ConcatAssoc<T>(x: seq<T>, y: seq<T>, z: seq<T>)
    ensures x + (y + z) == (x + y) + z
  {
  }

  lemma {:induction false} SendsAppend(a: seq<Effect>, b: seq<Effect>)
    ensures Sends(a + b) == Sends(a) + Sends(b)
  {
    if |a| == 0 {
      assert a + b == b;
    } else {
      assert (a + b)[0] == a[0] && (a + b)[1..] == a[1..] + b;
      SendsAppend(a[1..], b);
      assert Sends(a + b) == SendOf(a[0]) + (Sends(a[1..]) + Sends(b));
      ConcatAssoc(SendOf(a[0]), Sends(a[1..]), Sends(b));
    }
  }

  lemma {:induction false} RecordedIdsAppend(a: seq<Effect>, b: seq<Effect>)
    ensures RecordedIds(a + b) == RecordedIds(a) + RecordedIds(b)
  {
    if |a| == 0 {
      assert a + b == b;
    } else {
      assert (a + b)[0] == a[0] && (a + b)[1..] == a[1..] + b;
      RecordedIdsAppend(a[1..], b);
      assert RecordedIds(a + b) == RecordedOf(a[0]) + (RecordedIds(a[1..]) + RecordedIds(b));
      ConcatAssoc(RecordedOf(a[0]), RecordedIds(a[1..]), RecordedIds(b));
    }
  }

  lemma {:induction false} SentIdsAppend(a: seq<Effect>, b: seq<Effect>)
    ensures SentIds(a + b) == SentIds(a) + SentIds(b)
  {
    if |a| == 0 {
      assert a + b == b;
    } else {
      assert (a + b)[0] == a[0] && (a + b)[1..] == a[1..] + b;
      SentIdsAppend(a[1..], b);
      assert SentIds(a + b) == SentOf(a[0]) + (SentIds(a[1..]) + SentIds(b));
      ConcatAssoc(SentOf(a[0]), SentIds(a[1..]), SentIds(b));
    }
  }

  /** The ids the first run records: every tweet with a non-empty id. */
  function SeedIds(tweets: seq<TweetResult>): (ids: seq<string>)
    ensures forall t :: t in tweets && IdOf(t) != "" ==> IdOf(t) in ids
    ensures forall x :: x in ids ==> x != ""
    ensures forall x :: x in ids ==> exists t :: t in tweets && IdOf(t) == x
  {
    if |tweets| == 0 then []
    else (if IdOf(tweets[0]) != "" then [IdOf(tweets[0])] else []) + SeedIds(tweets[1..])
  }

  function RecordAll(ids: seq<string>): (effects: seq<Effect>)
    ensures RecordedIds(effects) == ids
    ensures SentIds(effects) == []
  {
    if |ids| == 0 then []
    else
      var effects := [Recorded(ids[0])] + RecordAll(ids[1..]);
      EffectsAppend([Recorded(ids[0])], RecordAll(ids[1..]));
      effects
  }

  /** Steps 3 to 5 of `main`: seed on a first run, otherwise filter the
      tweets against the ledger, reverse them and dispatch. */
  function Notify(tweets: seq<TweetResult>, ledger: Ledger, sink: nat -> Result<(), Thrown>): (r: Run)
    ensures Ids(r.ledger) == Ids(ledger) + RecordedIds(r.effects)
    ensures RecordAfterSend(r.effects) || IsFirst(ledger)
    // past the first run: every successful send with an id is recorded, and
    // the messages are those of the eligible tweets with an image, oldest
    // first, all of them unless a send failed
    ensures !IsFirst(ledger) ==> RecordedIds(r.effects) == NonEmptyIds(SentIds(r.effects))
    ensures !IsFirst(ledger) && r.outcome.Success? ==> Sends(r.effects) == ImageSends(Reverse(FilterEligible(tweets, ledger)))
    ensures !IsFirst(ledger) && r.outcome.Failure? ==> Sends(r.effects) < ImageSends(Reverse(FilterEligible(tweets, ledger)))
  {
    if IsFirst(ledger) then
      var ids := SeedIds(tweets);
      Run(RecordAll(ids), AddAll(ledger, ids), Success(()))
    else
      Dispatch(Reverse(FilterEligible(tweets, ledger)), ledger, sink, 0)
  }

  /** A first run sends nothing, cannot fail, and afterwards every fetched
      tweet with an id is notified. */
  lemma FirstRunSeedsWithoutSending(tweets: seq<TweetResult>, ledger: Ledger, sink: nat -> Result<(), Thrown>)
    requires IsFirst(ledger)
    ensures var r := Notify(tweets, ledger, sink);
            && SentIds(r.effects) == []
            && r.outcome.Success?
            && forall t :: t in tweets && IdOf(t) != "" ==> IsNotified(r.ledger, IdOf(t))
  {
    var ids := SeedIds(tweets);
    forall t | t in tweets && IdOf(t) != ""
      ensures IsNotified(Notify(tweets, ledger, sink).ledger, IdOf(t))
    {
      AddAllNotifies(ledger, ids, IdOf(t));
    }
  }

  /** A first run that finds no tweet with an id writes no file, so the
      next run is a first run again. */
  lemma EmptyFirstRunStaysFirst(tweets: seq<TweetResult>, ledger: Ledger, sink: nat -> Result<(), Thrown>)
    requires IsFirst(ledger)
    requires forall t :: t in tweets ==> IdOf(t) == ""
    ensures IsFirst(Notify(tweets, ledger, sink).ledger)
  {
    SeedIdsWithoutIds(tweets);
  }

  lemma {:induction false} SeedIdsWithoutIds(tweets: seq<TweetResult>)
    requires forall t :: t in tweets ==> IdOf(t) == ""
    ensures SeedIds(tweets) == []
  {
    if |tweets| > 0 {
      assert tweets[0] in tweets;
      SeedIdsWithoutIds(tweets[1..]);
    }
  }

  /** Only eligible tweets with an image are ever sent. */
  lemma SentTweetsEligible(tweets: seq<TweetResult>, ledger: Ledger, sink: nat -> Result<(), Thrown>, e: Effect)
    requires !IsFirst(ledger)
    requires e in Notify(tweets, ledger, sink).effects && e.Sent?
    ensures exists t :: t in tweets && Eligible(t, ledger) && HasImage(t) && IdOf(t) == e.id
  {
    var eligible := FilterEligible(tweets, ledger);
    var r := Dispatch(Reverse(eligible), ledger, sink, 0);
    var i :| 0 <= i < |r.effects| && r.effects[i] == e;
    SentIdsContains(r.effects, i);
    var sent := SentIds(r.effects);
    var image := ImageIds(Reverse(eligible));
    assert sent <= image;
    var j :| 0 <= j < |sent| && sent[j] == e.id;
    assert image[j] == e.id;
    var t := ImageIdFrom(Reverse(eligible), j);
    var k :| 0 <= k < |Reverse(eligible)| && Reverse(eligible)[k] == t;
    assert t == eligible[|eligible| - 1 - k];
    FilterEligibleMembers(tweets, ledger);
  }

  /** The tweet behind the `j`-th id of `ImageIds`. */
  function ImageIdFrom(tweets: seq<TweetResult>, j: nat): (t: TweetResult)
    requires j < |ImageIds(tweets)|
    ensures t in tweets && HasImage(t) && IdOf(t) == ImageIds(tweets)[j]
  {
    if HasImage(tweets[0]) && j == 0 then tweets[0]
    else
      var j' := if HasImage(tweets[0]) then j - 1 else j;
      var t := ImageIdFrom(tweets[1..], j');
      t
  }

  /** The ids a dispatch with a sink that never fails sends, in order:
      those of the tweets with an image. */
  function ImageIds(tweets: seq<TweetResult>): seq<string> {
    if |tweets| == 0 then []
    else (if HasImage(tweets[0]) then [IdOf(tweets[0])] else []) + ImageIds(tweets[1..])
  }

  lemma {:induction false} DispatchSucceeds(tweets: seq<TweetResult>, ledger: Ledger, sink: nat -> Result<(), Thrown>, sends: nat)
    requires forall k :: sink(k).Success?
    ensures Dispatch(tweets, ledger, sink, sends).outcome.Success?
    decreases |tweets|
  {
    if |tweets| > 0 {
      var t := tweets[0];
      if !HasImage(t) {
        DispatchSucceeds(tweets[1..], ledger, sink, sends);
      } else {
        var id := IdOf(t);
        DispatchSucceeds(tweets[1..], if id != "" then AddNotified(ledger, id) else ledger, sink, sends + 1);
      }
    }
  }

  /** Oldest first: with a sink that never fails, the messages go out in
      the reverse of the fetch order, tweets without an image skipped. */
  lemma DispatchOldestFirst(tweets: seq<TweetResult>, ledger: Ledger, sink: nat -> Result<(), Thrown>)
    requires !IsFirst(ledger)
    requires forall k :: sink(k).Success?
    ensures var r := Notify(tweets, ledger, sink);
            && r.outcome.Success?
            && SentIds(r.effects) == ImageIds(Reverse(FilterEligible(tweets, ledger)))
            && Sends(r.effects) == ImageSends(Reverse(FilterEligible(tweets, ledger)))
  {
    DispatchSucceeds(Reverse(FilterEligible(tweets, ledger)), ledger, sink, 0);
  }

  /** Ids of tweets skipped for lack of an image are never recorded by the
      dispatch: every recorded id is that of a sent message. */
  lemma {:induction false} RecordedWereSent(effects: seq<Effect>, x: string)
    requires RecordAfterSend(effects)
    requires x in RecordedIds(effects)
    ensures x in SentIds(effects)
  {
    var i := RecordedIndex(effects, x);
    assert i > 0;
    assert effects[i - 1].Sent? && effects[i - 1].id == x;
    SentIdsContains(effects, i - 1);
  }

  function RecordedIndex(effects: seq<Effect>, x: string): (i: nat)
    requires x in RecordedIds(effects)
    ensures i < |effects| && effects[i] == Recorded(x)
  {
    if effects[0] == Recorded(x) then 0
    else
      assert x in RecordedIds(effects[1..]);
      1 + RecordedIndex(effects[1..], x)
  }

  lemma {:induction false} SentIdsContains(effects: seq<Effect>, i: nat)
    requires i < |effects| && effects[i].Sent?
    ensures effects[i].id in SentIds(effects)
  {
    if i > 0 {
      SentIdsContains(effects[1..], i - 1);
    }
  }

  /** The example of a mixed batch: a matching post, a retweet of one, and
      an unrelated post, with the retweet's id already notified: only the
      first passes the filter. */
  const MatchingPost := TweetResult(Tweet("1", Some(Legacy(Some("1"), Some("foo サスケ・ディナー bar"), None, None))), None)
  const RetweetPost := TweetResult(Tweet("2", Some(Legacy(Some("2"), Some("RT @x: サスケ・ディナー"), None, None))), None)
  const UnrelatedPost := TweetResult(Tweet("3", Some(Legacy(Some("3"), Some("unrelated"), None, None))), None)

  lemma FilterExample()
    ensures FilterEligible([MatchingPost, RetweetPost, UnrelatedPost], Some(["2"])) == [MatchingPost]
  {
    var ledger: Ledger := Some(["2"]);
    MatchingPostEligible();
    UnrelatedPostIneligible();
    assert !Eligible(RetweetPost, ledger) by { assert IsNotified(ledger, "2"); }
    FilterCons(UnrelatedPost, [], ledger);
    FilterCons(RetweetPost, [UnrelatedPost], ledger);
    FilterCons(MatchingPost, [RetweetPost, UnrelatedPost], ledger);
  }

  lemma FilterCons(t: TweetResult, rest: seq<TweetResult>, ledger: Ledger)
    ensures FilterEligible([t] + rest, ledger) == (if Eligible(t, ledger) then [t] else []) + FilterEligible(rest, ledger)
  {
    assert ([t] + rest)[1..] == rest;
  }

  lemma MatchingPostEligible()
    ensures Eligible(MatchingPost, Some(["2"]))
  {
    KeywordFound(FullText(MatchingPost), 4);
    assert FullText(MatchingPost)[0] != RetweetMarker[0];
  }

  lemma UnrelatedPostIneligible()
    ensures !Eligible(UnrelatedPost, Some(["2"]))
  {
    KeywordAbsent(FullText(UnrelatedPost));
  }

  lemma KeywordFound(text: string, i: nat)
    requires i + |Keyword| <= |text| && text[i..i + |Keyword|] == Keyword
    ensures Contains(text, Keyword)
  {
    ContainsIffOccurs(text, Keyword);
    assert OccursAt(text, Keyword, i);
  }

  lemma KeywordAbsent(text: string)
    requires Keyword[0] !in text
    ensures !Contains(text, Keyword)
  {
    ContainsNeedsFirstChar(text, Keyword);
  }

  /** When every fetched tweet has an id, the first run seeds exactly one
      id per tweet. */
  lemma {:induction false} SeedIdsAllIds(tweets: seq<TweetResult>)
    requires forall t :: t in tweets ==> IdOf(t) != ""
    ensures |SeedIds(tweets)| == |tweets|
  {
    if |tweets| > 0 {
      assert tweets[0] in tweets;
      SeedIdsAllIds(tweets[1..]);
    }
  }

  /** Fetch order newest first, send order oldest first: three eligible
      tweets with images fetched as `a, b, c` (ids 5, 3, 4, say) are sent as
      `c, b, a` (ids 4, 3, 5). */
  lemma SendOrderOfThree(a: TweetResult, b: TweetResult, c: TweetResult, ledger: Ledger, sink: nat -> Result<(), Thrown>)
    requires !IsFirst(ledger)
    requires Eligible(a, ledger) && Eligible(b, ledger) && Eligible(c, ledger)
    requires HasImage(a) && HasImage(b) && HasImage(c)
    requires forall k :: sink(k).Success?
    ensures SentIds(Notify([a, b, c], ledger, sink).effects) == [IdOf(c), IdOf(b), IdOf(a)]
  {
    FilterAllEligible([a, b, c], ledger);
    DispatchOldestFirst([a, b, c], ledger, sink);
    ReverseThree(a, b, c);
    ImageIdsThree(c, b, a);
  }

  lemma ReverseThree<T>(a: T, b: T, c: T)
    ensures Reverse([a, b, c]) == [c, b, a]
  {
    var rev := Reverse([a, b, c]);
    assert rev[0] == c && rev[1] == b && rev[2] == a;
  }

  lemma ImageIdsThree(a: TweetResult, b: TweetResult, c: TweetResult)
    requires HasImage(a) && HasImage(b) && HasImage(c)
    ensures ImageIds([a, b, c]) == [IdOf(a), IdOf(b), IdOf(c)]
  {
    ImageIdsCons(c, []);
    ImageIdsCons(b, [c]);
    ImageIdsCons(a, [b, c]);
    assert [a] + ([b] + ([c] + [])) == [a, b, c];
  }

  lemma {:induction false} FilterAllEligible(tweets: seq<TweetResult>, ledger: Ledger)
    requires forall t :: t in tweets ==> Eligible(t, ledger)
    ensures FilterEligible(tweets, ledger) == tweets
  {
    if |tweets| > 0 {
      assert tweets[0] in tweets;
      FilterAllEligible(tweets[1..], ledger);
      assert tweets == [tweets[0]] + tweets[1..];
    }
  }

  /** The messages a dispatch with a sink that never fails sends, in
      order: one per tweet with an image, built from that tweet. */
  function ImageSends(tweets: seq<TweetResult>): seq<Effect> {
    if |tweets| == 0 then []
    else (if HasImage(tweets[0]) then [Sent(IdOf(tweets[0]), MessageFor(tweets[0]))] else []) + ImageSends(tweets[1..])
  }

  lemma ImageSendsCons(t: TweetResult, rest: seq<TweetResult>)
    ensures ImageSends([t] + rest) == (if HasImage(t) then [Sent(IdOf(t), MessageFor(t))] else []) + ImageSends(rest)
  {
    assert ([t] + rest)[1..] == rest;
  }

  lemma ImageIdsCons(t: TweetResult, rest: seq<TweetResult>)
    ensures ImageIds([t] + rest) == (if HasImage(t) then [IdOf(t)] else []) + ImageIds(rest)
  {
    assert ([t] + rest)[1..] == rest;
  }

  /** Two consecutive runs: the first (no ledger yet) records every fetched
      id and sends nothing; the second, which fetches one new matching post
      with an image on top of the old ones, sends exactly that post and
      leaves one more id in the ledger. */
  lemma SecondRunSendsOnlyTheNewPost(earlier: seq<TweetResult>, t: TweetResult, sink: nat -> Result<(), Thrown>)
    requires |earlier| > 0
    requires forall u :: u in earlier ==> IdOf(u) != "" && IdOf(u) != IdOf(t)
    requires IdOf(t) != "" && Contains(FullText(t), Keyword) && !StartsWith(FullText(t), RetweetMarker)
    requires HasImage(t)
    requires forall k :: sink(k).Success?
    ensures var first := Notify(earlier, None, sink);
            var second := Notify([t] + earlier, first.ledger, sink);
            && SentIds(first.effects) == []
            && |Ids(first.ledger)| == |earlier|
            && second.outcome.Success?
            && SentIds(second.effects) == [IdOf(t)]
            && Ids(second.ledger) == Ids(first.ledger) + [IdOf(t)]
  {
    var first := Notify(earlier, None, sink);
    SeedIdsAllIds(earlier);
    FirstRunSeedsWithoutSending(earlier, None, sink);
    var ledger := first.ledger;
    assert Ids(ledger) == SeedIds(earlier);
    assert !IsNotified(ledger, IdOf(t));
    OnlyNewPostEligible(earlier, t, ledger);
    DispatchSingle(t, ledger, sink);
  }

  lemma OnlyNewPostEligible(earlier: seq<TweetResult>, t: TweetResult, ledger: Ledger)
    requires forall u :: u in earlier && IdOf(u) != "" ==> IsNotified(ledger, IdOf(u))
    requires Eligible(t, ledger)
    ensures FilterEligible([t] + earlier, ledger) == [t]
  {
    FilterNoneEligible(earlier, ledger);
    FilterCons(t, earlier, ledger);
  }

  /** Dispatching a single tweet with an image through a sink that does
      not fail: one message, its id recorded. */
  lemma DispatchSingle(t: TweetResult, ledger: Ledger, sink: nat -> Result<(), Thrown>)
    requires !IsFirst(ledger) && Eligible(t, ledger) && HasImage(t)
    requires forall k :: sink(k).Success?
    ensures var r := Dispatch(Reverse([t]), ledger, sink, 0);
            && r.outcome.Success?
            && SentIds(r.effects) == [IdOf(t)]
            && Ids(r.ledger) == Ids(ledger) + [IdOf(t)]
  {
    assert Reverse([t]) == [t];
    DispatchSucceeds([t], ledger, sink, 0);
    ImageIdsCons(t, []);
    assert [t] + [] == [t];
    var r := Dispatch([t], ledger, sink, 0);
    assert [t][1..] == [];
    assert r.effects == SendStep(IdOf(t), MessageFor(t)) + [];
  }

  lemma {:induction false} FilterNoneEligible(tweets: seq<TweetResult>, ledger: Ledger)
    requires forall t :: t in tweets ==> !Eligible(t, ledger)
    ensures FilterEligible(tweets, ledger) == []
  {
    if |tweets| > 0 {
      assert tweets[0] in tweets;
      FilterNoneEligible(tweets[1..], ledger);
    }
  }
}
