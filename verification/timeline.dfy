/** Tweet extraction from the intercepted `UserTweets` GraphQL responses
    and the collection loop of `twitter.ts`.  The response envelope follows
    its declared type; the tweet results themselves are untyped (`any`) and
    are JavaScript values.  The browser, the scrolling timer and the wall
    clock are replaced by a sequence of poll events. */
module Timeline {
  import opened Wrappers
  import opened JsValue
  import opened Strings

  /** A timeline entry: its id and, when `content.itemContent` exists, the
      value at `itemContent.tweet_results.result` (possibly `undefined`). */
  datatype Entry = Entry(entryId: string, tweetResult: Option<Value>)

  datatype Instruction = Instruction(kind: string, entries: Option<seq<Entry>>)

  /** `response.data.user.result.timeline_v2.timeline`: its instructions. */
  datatype UserTweetsResponse = UserTweetsResponse(instructions: seq<Instruction>)

  const AddEntriesKind: string := "TimelineAddEntries"
  const TweetEntryPrefix: string := "tweet-"

  /** The entries of the `TimelineAddEntries` instructions, in order; an
      instruction without entries contributes nothing. */
  function AddedEntries(instructions: seq<Instruction>): (r: seq<Entry>)
    ensures forall e :: e in r ==> exists i :: 0 <= i < |instructions| && instructions[i].kind == AddEntriesKind
                                              && instructions[i].entries.Some? && e in instructions[i].entries.value
  {
    if |instructions| == 0 then []
    else
      var ins := instructions[0];
      var rest := AddedEntries(instructions[1..]);
      assert forall e :: e in rest ==> exists i :: 1 <= i < |instructions| && instructions[i].kind == AddEntriesKind
                                                 && instructions[i].entries.Some? && e in instructions[i].entries.value by {
        forall e | e in rest
          ensures exists i :: 1 <= i < |instructions| && instructions[i].kind == AddEntriesKind
                              && instructions[i].entries.Some? && e in instructions[i].entries.value
        {
          var i :| 0 <= i < |instructions[1..]| && instructions[1..][i].kind == AddEntriesKind
                   && instructions[1..][i].entries.Some? && e in instructions[1..][i].entries.value;
          assert instructions[i + 1] == instructions[1..][i];
        }
      }
      (if ins.kind == AddEntriesKind && ins.entries.Some? then ins.entries.value else []) + rest
  }

  predicate IsTweetEntry(e: Entry) {
    StartsWith(e.entryId, TweetEntryPrefix)
  }

  function CountTweetEntries(entries: seq<Entry>): (n: nat)
    ensures n <= |entries|
  {
    if |entries| == 0 then 0
    else (if IsTweetEntry(entries[0]) then 1 else 0) + CountTweetEntries(entries[1..])
  }

  /** What `flatMap` makes of one callback result: an array is spread one
      level (its items, arrays among them, are kept as they are), any other
      value is a single element. */
  function Flattened(v: Value): (r: seq<Value>)
    ensures v.Arr? ==> r == v.items
    ensures !v.Arr? ==> r == [v]
  {
    if v.Arr? then v.items else [v]
  }

  /** `filterUndefined`: the values other than `undefined`, in order. */
  function Defined(vs: seq<Value>): (r: seq<Value>)
    ensures |r| <= |vs|
    ensures forall x :: x in r <==> x in vs && x != Undefined
  {
    if |vs| == 0 then [] else (if vs[0] != Undefined then [vs[0]] else []) + Defined(vs[1..])
  }

  /** `v` is one of the records the entry `e` contributes. */
  predicate Yields(e: Entry, v: Value) {
    IsTweetEntry(e) && e.tweetResult.Some? && v != Undefined && v in Flattened(e.tweetResult.value)
  }

  /** How many elements `flatMap` makes of an entry that passed the
      `tweet-` filter: the length of an array result, one otherwise. */
  function Width(e: Entry): nat {
    if !IsTweetEntry(e) then 0
    else if e.tweetResult.Some? && e.tweetResult.value.Arr? then |e.tweetResult.value.items|
    else 1
  }

  function TotalWidth(entries: seq<Entry>): nat {
    if |entries| == 0 then 0 else Width(entries[0]) + TotalWidth(entries[1..])
  }

  /** No `tweet-` entry has an array as its result. */
  predicate NoArrayResults(entries: seq<Entry>) {
    forall i :: 0 <= i < |entries| && IsTweetEntry(entries[i]) && entries[i].tweetResult.Some? ==>
                  !entries[i].tweetResult.value.Arr?
  }

  /** Without array results every `tweet-` entry is one element wide. */
  lemma {:induction false} WidthWithoutArrays(entries: seq<Entry>)
    requires NoArrayResults(entries)
    ensures TotalWidth(entries) == CountTweetEntries(entries)
  {
    if |entries| > 0 {
      assert forall i :: 0 <= i < |entries[1..]| ==> entries[1..][i] == entries[i + 1];
      WidthWithoutArrays(entries[1..]);
    }
  }

  /** The defined tweet records of the `tweet-` entries, in order: the
      `tweet_results.result` values after `flatMap` and `filterUndefined`. */
  function TweetResults(entries: seq<Entry>): (r: seq<Value>)
    ensures |r| <= TotalWidth(entries)
  {
    if |entries| == 0 then []
    else EntryResult(entries[0]) + TweetResults(entries[1..])
  }

  /** The records of one entry: none unless it is a `tweet-` entry with
      `itemContent`; otherwise its result, flattened, without `undefined`. */
  function EntryResult(e: Entry): (r: seq<Value>)
    ensures |r| <= Width(e)
    ensures forall v :: v in r <==> Yields(e, v)
  {
    if IsTweetEntry(e) && e.tweetResult.Some? then Defined(Flattened(e.tweetResult.value)) else []
  }

  /** A value is extracted exactly when some `tweet-` entry yields it: it is
      that entry's defined result, or a defined item of its array result. */
  lemma {:induction false} TweetResultsFromTweetEntries(entries: seq<Entry>, v: Value)
    ensures v in TweetResults(entries) <==> exists e :: e in entries && Yields(e, v)
  {
    if |entries| > 0 {
      TweetResultsFromTweetEntries(entries[1..], v);
      assert TweetResults(entries) == EntryResult(entries[0]) + TweetResults(entries[1..]);
      if v in TweetResults(entries) && !Yields(entries[0], v) {
        var e :| e in entries[1..] && Yields(e, v);
        assert e in entries;
      }
      if exists e :: e in entries && Yields(e, v) {
        var e :| e in entries && Yields(e, v);
        if !Yields(entries[0], v) {
          var i :| 0 <= i < |entries| && entries[i] == e;
          assert i > 0 && entries[1..][i - 1] == e;
        }
      }
    }
  }

  /** The raw tweet records `getTweet` hands to `createStatusObject`. */
  function RawTweets(response: UserTweetsResponse): seq<Value> {
    TweetResults(AddedEntries(response.instructions))
  }

  lemma {:induction false} AddedEntriesAppend(a: seq<Instruction>, b: seq<Instruction>)
    ensures AddedEntries(a + b) == AddedEntries(a) + AddedEntries(b)
  {
    if |a| == 0 {
      assert a + b == b;
    } else {
      assert (a + b)[0] == a[0] && (a + b)[1..] == a[1..] + b;
      AddedEntriesAppend(a[1..], b);
    }
  }

  lemma {:induction false} TweetResultsAppend(a: seq<Entry>, b: seq<Entry>)
    ensures TweetResults(a + b) == TweetResults(a) + TweetResults(b)
  {
    if |a| == 0 {
      assert a + b == b;
    } else {
      assert (a + b)[0] == a[0] && (a + b)[1..] == a[1..] + b;
      TweetResultsAppend(a[1..], b);
      assert TweetResults(a + b) == EntryResult(a[0]) + TweetResults(a[1..] + b);
    }
  }

  /** Extraction works instruction by instruction and keeps the order:
      the records of two instruction lists are the records of the first
      followed by those of the second. */
  lemma RawTweetsAppend(a: seq<Instruction>, b: seq<Instruction>)
    ensures RawTweets(UserTweetsResponse(a + b)) == RawTweets(UserTweetsResponse(a)) + RawTweets(UserTweetsResponse(b))
  {
    AddedEntriesAppend(a, b);
    TweetResultsAppend(AddedEntries(a), AddedEntries(b));
  }

  /** An instruction of any other kind contributes nothing, whatever entries it carries. */
  lemma OtherInstructionsIgnored(a: seq<Instruction>, ins: Instruction, b: seq<Instruction>)
    requires ins.kind != AddEntriesKind
    ensures RawTweets(UserTweetsResponse(a + [ins] + b)) == RawTweets(UserTweetsResponse(a + b))
  {
    AddedEntriesAppend(a + [ins], b);
    AddedEntriesAppend(a, [ins]);
    AddedEntriesAppend(a, b);
    assert AddedEntries([ins]) == [] by { assert [ins][1..] == []; }
    assert AddedEntries(a + [ins] + b) == AddedEntries(a + b);
  }

  /** A cursor or module entry (id without the `tweet-` prefix) contributes nothing. */
  lemma NonTweetEntriesIgnored(a: seq<Entry>, e: Entry, b: seq<Entry>)
    requires !IsTweetEntry(e)
    ensures TweetResults(a + [e] + b) == TweetResults(a + b)
  {
    TweetResultsAppend(a + [e], b);
    TweetResultsAppend(a, [e]);
    TweetResultsAppend(a, b);
    assert TweetResults([e]) == [] by {
      assert [e][1..] == [];
      assert EntryResult(e) == [];
      assert TweetResults([e]) == EntryResult(e) + TweetResults([]);
    }
    assert TweetResults(a) + [] == TweetResults(a);
  }

  const FailedToGetLegacy: string := "Failed to get legacy"

  /** `tweet.legacy ?? tweet.tweet?.legacy ?? undefined` (throws only when
      `tweet` itself is nullish). */
  function LegacyOf(tweet: Value): (r: Result<Value, Thrown>)
    ensures r.Failure? <==> Nullish(tweet)
    ensures r.Success? && !Nullish(Prop(tweet, "legacy")) ==> r.value == Prop(tweet, "legacy")
    ensures r.Success? && Nullish(Prop(tweet, "legacy")) && !Nullish(OptGet(Prop(tweet, "tweet"), "legacy")) ==>
              r.value == OptGet(Prop(tweet, "tweet"), "legacy")
    ensures r.Success? && Nullish(Prop(tweet, "legacy")) && Nullish(OptGet(Prop(tweet, "tweet"), "legacy")) ==>
              r.value == Undefined
  {
    var outer :- Get(tweet, "legacy");
    if !Nullish(outer) then Success(outer)
    else Success(Coalesce(OptGet(Prop(tweet, "tweet"), "legacy"), Undefined))
  }

  /** `tweet.core?.user_results.result ?? tweet.tweet?.core.user_results.result ?? undefined`.
      The non-optional steps throw a `TypeError` when an intermediate object
      is missing. */
  function UserResultOf(tweet: Value): (r: Result<Value, Thrown>)
    requires !Nullish(tweet)
    ensures r.Failure? ==> r.error.TypeError?
    // the outer path wins when it yields something
    ensures var core := Prop(tweet, "core");
            (!Nullish(core) && !Nullish(Prop(core, "user_results")) && !Nullish(Prop(Prop(core, "user_results"), "result")))
            ==> r == Success(Prop(Prop(core, "user_results"), "result"))
    // `core` without `user_results` is read without `?.` and throws
    ensures var core := Prop(tweet, "core");
            !Nullish(core) && Nullish(Prop(core, "user_results")) ==> r.Failure?
    // neither path exists: no user
    ensures Nullish(Prop(tweet, "core")) && Nullish(Prop(tweet, "tweet")) ==> r == Success(Undefined)
  {
    var core := Prop(tweet, "core");
    var first :- if Nullish(core) then Success(Undefined) else Get(Prop(core, "user_results"), "result");
    if !Nullish(first) then Success(first)
    else
      var inner := Prop(tweet, "tweet");
      if Nullish(inner) then Success(Undefined)
      else
        var userResults :- Get(Prop(inner, "core"), "user_results");
        var result :- Get(userResults, "result");
        Success(Coalesce(result, Undefined))
  }

  /** The object `createStatusObject` builds: defaults first, then the
      legacy payload spread over them, then the two rebuilt fields.  The
      numeric `id` fields (float conversions of the id strings) are not
      modelled. */
  function StatusObject(tweet: Value, legacy: Value, userResult: Value): (r: Value)
    requires !Nullish(tweet) && Truthy(legacy)
    ensures r.Obj?
  {
    Obj(StatusBase(tweet, userResult) + SpreadFields(legacy) + RebuiltFields(legacy))
  }

  /** The fields set before the spread: `source`, `truncated`, `user`. */
  function StatusBase(tweet: Value, userResult: Value): (base: map<string, Value>)
    requires !Nullish(tweet)
    ensures base.Keys == {"source", "truncated", "user"}
    ensures base["truncated"] == Bool(false)
    ensures base["source"] == if Nullish(Prop(tweet, "source")) then Str("NULL") else Prop(tweet, "source")
    ensures userResult == Undefined ==> base["user"] == Obj(map["id_str" := Str("NULL")])
  {
    var source := Coalesce(Prop(tweet, "source"), Str("NULL"));
    var user := Obj(map["id_str" := Coalesce(OptGet(userResult, "rest_id"), Str("NULL"))]
                    + SpreadFields(OptGet(userResult, "legacy")));
    assert userResult == Undefined ==> map["id_str" := Str("NULL")] + map[] == map["id_str" := Str("NULL")];
    map["source" := source, "truncated" := Bool(false), "user" := user]
  }

  /** The fields set after the spread: `display_text_range` (its first two
      elements) and `entities`. */
  function RebuiltFields(legacy: Value): (rebuilt: map<string, Value>)
    requires Truthy(legacy)
    ensures rebuilt.Keys == {"display_text_range", "entities"}
  {
    var range := Prop(legacy, "display_text_range");
    var rangeOut := if Truthy(range) then Arr([Index(range, 0), Index(range, 1)]) else Undefined;
    map["display_text_range" := rangeOut, "entities" := Prop(legacy, "entities")]
  }

  /** `createStatusObject`. */
  function CreateStatusObject(tweet: Value): (r: Result<Value, Thrown>)
    ensures Nullish(tweet) ==> r.Failure? && r.error.TypeError?
    // a record converts exactly when both lookups succeed and the legacy payload is truthy
    ensures r.Success? <==> LegacyOf(tweet).Success? && UserResultOf(tweet).Success? && Truthy(LegacyOf(tweet).value)
    ensures r.Success? ==> r.value == StatusObject(tweet, LegacyOf(tweet).value, UserResultOf(tweet).value)
    // a throwing lookup propagates its error; the user lookup runs before the legacy test
    ensures LegacyOf(tweet).Failure? ==> r == Failure(LegacyOf(tweet).error)
    ensures !Nullish(tweet) && UserResultOf(tweet).Failure? ==> r == Failure(UserResultOf(tweet).error)
    ensures !Nullish(tweet) && UserResultOf(tweet).Success? && !Truthy(LegacyOf(tweet).value) ==>
              r == Failure(Error(FailedToGetLegacy))
  {
    var legacy :- LegacyOf(tweet);
    var userResult :- UserResultOf(tweet);
    if !Truthy(legacy) then Failure(Error(FailedToGetLegacy))
    else Success(StatusObject(tweet, legacy, userResult))
  }

  /** `v` is an object whose own field `k` holds `x`. */
  predicate HasField(v: Value, k: string, x: Value) {
    v.Obj? && k in v.fields && v.fields[k] == x
  }

  /** Every field of the legacy payload reaches the status unchanged,
      except the two that are rebuilt.  With the success case of
      `CreateStatusObject`, this is what a converted record carries. */
  lemma StatusKeepsLegacyFields(tweet: Value, legacy: Value, userResult: Value, k: string)
    requires !Nullish(tweet) && Truthy(legacy)
    requires k in SpreadFields(legacy) && k != "display_text_range" && k != "entities"
    ensures HasField(StatusObject(tweet, legacy, userResult), k, SpreadFields(legacy)[k])
  {
    UnionLookup(StatusBase(tweet, userResult), SpreadFields(legacy), RebuiltFields(legacy), k);
  }

  /** `(base + spread + rebuilt)[k]`: the rightmost map holding `k` wins. */
  lemma UnionLookup(base: map<string, Value>, spread: map<string, Value>, rebuilt: map<string, Value>, k: string)
    requires k in base || k in spread || k in rebuilt
    ensures k in base + spread + rebuilt
    ensures (base + spread + rebuilt)[k] ==
              if k in rebuilt then rebuilt[k] else if k in spread then spread[k] else base[k]
  {
  }

  /** The defaults: `truncated` is false and `source` and `user.id_str` are
      "NULL" when nothing supplies them.  A legacy payload that carries its
      own `truncated`, `source` or `user` key wins over the default, since it
      is spread after them. */
  lemma StatusDefaults(tweet: Value, legacy: Value, userResult: Value)
    requires !Nullish(tweet) && Truthy(legacy)
    ensures var spread := SpreadFields(legacy);
            var status := StatusObject(tweet, legacy, userResult);
            && ("truncated" !in spread ==> HasField(status, "truncated", Bool(false)))
            && ("source" !in spread && Nullish(Prop(tweet, "source")) ==> HasField(status, "source", Str("NULL")))
            && ("source" !in spread && !Nullish(Prop(tweet, "source")) ==> HasField(status, "source", Prop(tweet, "source")))
            && ("user" !in spread && userResult == Undefined ==>
                  HasField(status, "user", Obj(map["id_str" := Str("NULL")])))
  {
    var base := StatusBase(tweet, userResult);
    UnionLookup(base, SpreadFields(legacy), RebuiltFields(legacy), "truncated");
    UnionLookup(base, SpreadFields(legacy), RebuiltFields(legacy), "source");
    UnionLookup(base, SpreadFields(legacy), RebuiltFields(legacy), "user");
  }

  /** A wrapped record, `{tweet: {legacy, core: {user_results: {result}}}}`,
      as the API returns for tweets with visibility results. */
  function Wrapped(legacy: map<string, Value>, user: Value): Value {
    Obj(map["tweet" := Obj(map["legacy" := Obj(legacy),
                               "core" := Obj(map["user_results" := Obj(map["result" := user])])])])
  }

  /** A wrapped record is read through its inner `legacy`: it converts, and
      its status carries the inner legacy fields. */
  lemma WrappedRecordUsesInnerLegacy(legacy: map<string, Value>, user: Value)
    ensures CreateStatusObject(Wrapped(legacy, user)).Success?
    ensures forall k :: k in legacy && k != "display_text_range" && k != "entities" ==>
              HasField(CreateStatusObject(Wrapped(legacy, user)).value, k, legacy[k])
  {
    var tweet := Wrapped(legacy, user);
    var inner := Prop(tweet, "tweet");
    assert Prop(tweet, "legacy") == Undefined && Prop(tweet, "core") == Undefined;
    assert LegacyOf(tweet) == Success(Obj(legacy));
    assert Get(Prop(inner, "core"), "user_results") == Success(Obj(map["result" := user]));
    assert UserResultOf(tweet).Success?;
    assert SpreadFields(Obj(legacy)) == legacy;
    forall k | k in legacy && k != "display_text_range" && k != "entities"
      ensures HasField(CreateStatusObject(tweet).value, k, legacy[k])
    {
      StatusKeepsLegacyFields(tweet, Obj(legacy), UserResultOf(tweet).value, k);
    }
  }

  /** A record with neither `legacy` nor a wrapped one is rejected with
      "Failed to get legacy"; a wrapper that lacks `core` fails earlier,
      with a `TypeError`, because the user lookup runs first. */
  lemma MissingLegacy()
    ensures CreateStatusObject(Obj(map[])) == Failure(Error(FailedToGetLegacy))
    ensures CreateStatusObject(Obj(map["tweet" := Obj(map[])])).Failure?
    ensures CreateStatusObject(Obj(map["tweet" := Obj(map[])])).error.TypeError?
  {
  }

  /** `records.map(convert)` where `convert` may throw: the first record
      that throws throws out of the whole map.  `getTweet` applies it with
      `createStatusObject`. */
  function MapOrThrow(convert: Value -> Result<Value, Thrown>, records: seq<Value>): (r: Result<seq<Value>, Thrown>)
    ensures r.Success? ==> |r.value| == |records|
    ensures r.Success? ==> forall i :: 0 <= i < |records| ==> convert(records[i]) == Success(r.value[i])
    ensures r.Failure? ==> exists i :: 0 <= i < |records| && convert(records[i]) == Failure(r.error)
                                      && forall j :: 0 <= j < i ==> convert(records[j]).Success?
  {
    if |records| == 0 then Success([])
    else
      var head :- convert(records[0]);
      var rest := MapOrThrow(convert, records[1..]);
      if rest.Failure? then
        FirstFailureCons(convert, records, rest.error);
        Failure(rest.error)
      else
        var r := [head] + rest.value;
        assert forall i :: 1 <= i < |records| ==> records[i] == records[1..][i - 1] && r[i] == rest.value[i - 1];
        Success(r)
  }

  /** `records[i]` is the first record whose conversion throws `error`. */
  ghost predicate FirstFailure(convert: Value -> Result<Value, Thrown>, records: seq<Value>, error: Thrown) {
    exists i :: 0 <= i < |records| && convert(records[i]) == Failure(error)
                && forall j :: 0 <= j < i ==> convert(records[j]).Success?
  }

  lemma FirstFailureCons(convert: Value -> Result<Value, Thrown>, records: seq<Value>, error: Thrown)
    requires |records| > 0 && convert(records[0]).Success?
    requires FirstFailure(convert, records[1..], error)
    ensures FirstFailure(convert, records, error)
  {
    var i :| 0 <= i < |records[1..]| && convert(records[1..][i]) == Failure(error)
             && forall j :: 0 <= j < i ==> convert(records[1..][j]).Success?;
    assert convert(records[i + 1]) == Failure(error);
    forall j | 0 <= j < i + 1 ensures convert(records[j]).Success? {
      if j > 0 { assert records[j] == records[1..][j - 1]; }
    }
  }

  /** `getTweet`: one status per extracted record, in order, or the error
      of the first record that does not convert. */
  function GetTweet(response: UserTweetsResponse): (r: Result<seq<Value>, Thrown>)
    ensures r.Success? <==> forall i :: 0 <= i < |RawTweets(response)| ==> CreateStatusObject(RawTweets(response)[i]).Success?
    ensures r.Success? ==> && |r.value| == |RawTweets(response)|
                           && forall i :: 0 <= i < |r.value| ==> Success(r.value[i]) == CreateStatusObject(RawTweets(response)[i])
    ensures r.Failure? ==> exists i :: 0 <= i < |RawTweets(response)| && CreateStatusObject(RawTweets(response)[i]) == Failure(r.error)
  {
    MapOrThrow(CreateStatusObject, RawTweets(response))
  }

  /** A single record without a legacy payload fails the whole response. */
  lemma OneBadRecordFailsBatch(response: UserTweetsResponse, i: nat)
    requires i < |RawTweets(response)| && CreateStatusObject(RawTweets(response)[i]).Failure?
    ensures GetTweet(response).Failure?
  {
  }

  /** A successful extraction yields one status per record: never more
      than the entries' total width, and so never more than the `tweet-`
      entries when no result is an array. */
  lemma GetTweetBound(response: UserTweetsResponse)
    requires GetTweet(response).Success?
    ensures |GetTweet(response).value| <= TotalWidth(AddedEntries(response.instructions))
    ensures NoArrayResults(AddedEntries(response.instructions)) ==>
              |GetTweet(response).value| <= CountTweetEntries(AddedEntries(response.instructions))
  {
    if NoArrayResults(AddedEntries(response.instructions)) {
      WidthWithoutArrays(AddedEntries(response.instructions));
    }
  }

  /** `flatMap` spreads an array result: one `tweet-` entry whose result is
      an array of two records gives two records, and one whose result is an
      empty array gives none (and so no "Failed to get legacy"). */
  lemma ArrayResultFlattened(a: Value, b: Value)
    requires a != Undefined && b != Undefined && !a.Arr?
    ensures var one := [Instruction(AddEntriesKind, Some([Entry("tweet-1", Some(Arr([a, b])))]))];
            && RawTweets(UserTweetsResponse(one)) == [a, b]
            && CountTweetEntries(AddedEntries(one)) == 1
    ensures var empty := [Instruction(AddEntriesKind, Some([Entry("tweet-1", Some(Arr([])))]))];
            GetTweet(UserTweetsResponse(empty)) == Success([])
  {
    var e := Entry("tweet-1", Some(Arr([a, b])));
    var one := [Instruction(AddEntriesKind, Some([e]))];
    assert one[1..] == [];
    assert AddedEntries(one) == [e];
    assert StartsWith(e.entryId, TweetEntryPrefix) by { assert e.entryId[..|TweetEntryPrefix|] == TweetEntryPrefix; }
    assert [a, b][1..] == [b] && [b][1..] == [];
    assert Defined([a, b]) == [a, b];
    assert [e][1..] == [];
    assert TweetResults([e]) == EntryResult(e) + TweetResults([]);
    var z := Entry("tweet-1", Some(Arr([])));
    var empty := [Instruction(AddEntriesKind, Some([z]))];
    assert empty[1..] == [] && [z][1..] == [];
    assert AddedEntries(empty) == [z];
    assert TweetResults([z]) == EntryResult(z) + TweetResults([]);
  }

  /** What the collection loop observes: a poll of the response queue, or
      the wait's ten-second deadline.  A poll carries what `getTweet` made of
      the queued response, if one was queued (see `Polled`). */
  datatype PollEvent = Poll(extracted: Option<Result<seq<Value>, Thrown>>) | Deadline

  /** The poll event of a queue holding `response` (or nothing). */
  function Polled(response: Option<UserTweetsResponse>): (e: PollEvent)
    ensures e.Poll? && (e.extracted.None? <==> response.None?)
    ensures response.Some? ==> e.extracted.value == GetTweet(response.value)
  {
    if response.None? then Poll(None) else Poll(Some(GetTweet(response.value)))
  }

  /** The polls of a response queue as `waitTweet` sees it, one per tick. */
  function QueuePolls(queue: seq<Option<UserTweetsResponse>>): (events: seq<PollEvent>)
    ensures |events| == |queue|
    ensures forall i :: 0 <= i < |queue| ==> events[i] == Polled(queue[i])
  {
    seq(|queue|, i requires 0 <= i < |queue| => Polled(queue[i]))
  }

  /** Nothing queued, or a response from which `getTweet` extracts nothing. */
  predicate Empty(slot: Option<UserTweetsResponse>) {
    slot.None? || GetTweet(slot.value) == Success([])
  }

  /** `waitTweet` over a response queue: it resolves with what `getTweet`
      makes of the first response that yields tweets, after `i + 1` ticks,
      and crashes with the error of a response that makes `getTweet` throw
      before that. */
  lemma WaitOnQueue(queue: seq<Option<UserTweetsResponse>>, i: nat)
    requires i < |queue| && queue[i].Some?
    requires forall j :: 0 <= j < i ==> Empty(queue[j])
    ensures var extracted := GetTweet(queue[i].value);
            && (extracted.Success? && |extracted.value| > 0 ==> WaitTweet(QueuePolls(queue)) == Resolved(extracted.value, i + 1))
            && (extracted.Failure? ==> WaitTweet(QueuePolls(queue)) == Unhandled(extracted.error))
  {
    var events := QueuePolls(queue);
    forall j | 0 <= j < i ensures Ignored(events[j]) {
      assert Empty(queue[j]);
    }
    WaitAfterIgnored(events, i);
  }

  /** After `i` ignored polls, the wait is decided by poll `i`. */
  lemma {:induction false} WaitAfterIgnored(events: seq<PollEvent>, i: nat)
    requires i < |events| && events[i].Poll? && events[i].extracted.Some?
    requires forall j :: 0 <= j < i ==> Ignored(events[j])
    ensures var extracted := events[i].extracted.value;
            && (extracted.Success? && |extracted.value| > 0 ==> WaitTweet(events) == Resolved(extracted.value, i + 1))
            && (extracted.Failure? ==> WaitTweet(events) == Unhandled(extracted.error))
  {
    if i > 0 {
      assert Ignored(events[0]);
      assert forall j :: 0 <= j < i - 1 ==> events[1..][j] == events[j + 1];
      WaitAfterIgnored(events[1..], i - 1);
    }
  }

  /** A poll `waitTweet` lets pass: nothing queued, or no tweets in it. */
  predicate Ignored(e: PollEvent) {
    e.Poll? && (e.extracted.None? || e.extracted.value == Success([]))
  }

  /** How one `waitTweet` ends, with the number of events it consumed.  An
      exception inside the polling callback is an unhandled rejection that
      ends the process (`Unhandled`). */
  datatype Wait = Resolved(batch: seq<Value>, consumed: nat) | Rejected | Unhandled(error: Thrown)

  /** `waitTweet`: resolves with the first non-empty batch, skipping empty
      polls; a deadline (or the end of the events) rejects with a timeout. */
  function WaitTweet(events: seq<PollEvent>): (w: Wait)
    ensures w.Resolved? ==>
              && 1 <= w.consumed <= |events| && |w.batch| > 0
              && events[w.consumed - 1] == Poll(Some(Success(w.batch)))
              && forall j :: 0 <= j < w.consumed - 1 ==> Ignored(events[j])
  {
    if |events| == 0 then Rejected
    else
      match events[0]
      case Deadline => Rejected
      case Poll(None) => SkipFirst(events, WaitTweet(events[1..]))
      case Poll(Some(extracted)) =>
        match extracted
        case Failure(e) => Unhandled(e)
        case Success(tweets) =>
          if |tweets| > 0 then Resolved(tweets, 1) else SkipFirst(events, WaitTweet(events[1..]))
  }

  /** The batch a wait resolves with is the first non-ignored poll's. */
  ghost predicate FirstBatch(events: seq<PollEvent>, w: Wait) {
    w.Resolved? ==>
      && 1 <= w.consumed <= |events| && |w.batch| > 0
      && events[w.consumed - 1] == Poll(Some(Success(w.batch)))
      && forall j :: 0 <= j < w.consumed - 1 ==> Ignored(events[j])
  }

  /** The wait after an ignored poll, counted from before it. */
  function SkipFirst(events: seq<PollEvent>, w: Wait): (r: Wait)
    requires |events| > 0 && Ignored(events[0]) && FirstBatch(events[1..], w)
    ensures FirstBatch(events, r)
  {
    if w.Resolved? then
      var r := Resolved(w.batch, w.consumed + 1);
      assert events[r.consumed - 1] == events[1..][w.consumed - 1];
      assert forall j :: 1 <= j < r.consumed - 1 ==> events[j] == events[1..][j - 1];
      r
    else w
  }

  /** The non-empty batches the events deliver, in arrival order, up to the
      first deadline or crash. */
  function Arrivals(events: seq<PollEvent>): seq<seq<Value>> {
    if |events| == 0 then []
    else
      match events[0]
      case Deadline => []
      case Poll(None) => Arrivals(events[1..])
      case Poll(Some(extracted)) =>
        match extracted
        case Failure(_) => []
        case Success(tweets) => (if |tweets| > 0 then [tweets] else []) + Arrivals(events[1..])
  }

  /** One wait takes the first arrival and leaves the rest for the next. */
  lemma {:induction false} WaitTakesFirstArrival(events: seq<PollEvent>)
    ensures WaitTweet(events).Resolved? ==>
              Arrivals(events) == [WaitTweet(events).batch] + Arrivals(events[WaitTweet(events).consumed..])
    ensures !WaitTweet(events).Resolved? ==> Arrivals(events) == []
  {
    if |events| > 0 && events[0].Poll? {
      if events[0].extracted.None? {
        WaitTakesFirstArrival(events[1..]);
        if WaitTweet(events).Resolved? {
          assert events[1..][WaitTweet(events[1..]).consumed..] == events[WaitTweet(events).consumed..];
        }
      } else if events[0].extracted.value.Success? && |events[0].extracted.value.value| == 0 {
        WaitTakesFirstArrival(events[1..]);
        if WaitTweet(events).Resolved? {
          assert events[1..][WaitTweet(events[1..]).consumed..] == events[WaitTweet(events).consumed..];
        }
      }
    }
  }

  /** Why collection stopped. */
  datatype Ending = LimitReached | TimedOut | Crashed(error: Thrown)

  function Flatten(batches: seq<seq<Value>>): seq<Value> {
    if |batches| == 0 then [] else batches[0] + Flatten(batches[1..])
  }

  /** The loop of `getUserTweets` once `collected` tweets are held: wait for
      batches while fewer than `limit` are held; a timeout ends the loop
      without an error. */
  function CollectFrom(limit: int, collected: nat, events: seq<PollEvent>): (r: (seq<seq<Value>>, Ending))
    ensures forall i :: 0 <= i < |r.0| ==> |r.0[i]| > 0
    ensures r.1.LimitReached? <==> collected + |Flatten(r.0)| >= limit
    ensures |r.0| > 0 ==> collected + |Flatten(r.0)| - |r.0[|r.0| - 1]| < limit
    ensures collected >= limit ==> r == ([], LimitReached)
    ensures r.0 <= Arrivals(events)
    ensures !r.1.LimitReached? ==> r.0 == Arrivals(events)
    decreases |events|
  {
    if collected >= limit then ([], LimitReached)
    else
      var w := WaitTweet(events);
      WaitTakesFirstArrival(events);
      match w
      case Rejected => ([], TimedOut)
      case Unhandled(e) => ([], Crashed(e))
      case Resolved(batch, consumed) =>
        var rest := CollectFrom(limit, collected + |batch|, events[consumed..]);
        ConsCollection(limit, collected, batch, rest, Arrivals(events[consumed..]));
        ([batch] + rest.0, rest.1)
  }

  /** What the loop has produced from `collected` tweets on, against the
      batches `arrivals` the events deliver. */
  ghost predicate Collected(limit: int, collected: nat, arrivals: seq<seq<Value>>, r: (seq<seq<Value>>, Ending)) {
    && (forall i :: 0 <= i < |r.0| ==> |r.0[i]| > 0)
    && (r.1.LimitReached? <==> collected + |Flatten(r.0)| >= limit)
    && (|r.0| > 0 ==> collected + |Flatten(r.0)| - |r.0[|r.0| - 1]| < limit)
    && r.0 <= arrivals
    && (!r.1.LimitReached? ==> r.0 == arrivals)
  }

  /** One more batch in front of what the rest of the loop collected. */
  lemma ConsCollection(limit: int, collected: nat, batch: seq<Value>, rest: (seq<seq<Value>>, Ending), later: seq<seq<Value>>)
    requires collected < limit && |batch| > 0
    requires Collected(limit, collected + |batch|, later, rest)
    requires collected + |batch| >= limit ==> rest == ([], LimitReached)
    ensures Collected(limit, collected, [batch] + later, ([batch] + rest.0, rest.1))
  {
    var batches := [batch] + rest.0;
    assert batches[1..] == rest.0;
    assert Flatten(batches) == batch + Flatten(rest.0);
    assert batches[|batches| - 1] == (if |rest.0| > 0 then rest.0[|rest.0| - 1] else batch);
    forall i | 0 <= i < |batches| ensures |batches[i]| > 0 {
      if i > 0 { assert batches[i] == rest.0[i - 1]; }
    }
  }

  /** The result of `getUserTweets`: the tweets, the batches they came in
      and why collection stopped. */
  datatype Collection = Collection(tweets: seq<Value>, batches: seq<seq<Value>>, ending: Ending)

  /** `getUserTweets`: the concatenation of the batches in arrival order;
      at least `limit` tweets unless the waits ran out, and never more than
      the last batch beyond `limit`. */
  function GetUserTweets(limit: int, events: seq<PollEvent>): (c: Collection)
    ensures c.tweets == Flatten(c.batches)
    ensures c.batches <= Arrivals(events)
    ensures c.ending.LimitReached? <==> |c.tweets| >= limit
    ensures !c.ending.LimitReached? ==> c.batches == Arrivals(events)
    ensures |c.batches| > 0 ==> |c.tweets| < limit + |c.batches[|c.batches| - 1]|
    ensures limit <= 0 ==> c == Collection([], [], LimitReached)
  {
    var r := CollectFrom(limit, 0, events);
    Collection(Flatten(r.0), r.0, r.1)
  }

  /** A timeout with nothing collected is not an error: the result is empty. */
  lemma TimeoutYieldsWhatWasGathered(limit: int, events: seq<PollEvent>)
    requires limit > 0 && |events| > 0 && events[0].Deadline?
    ensures GetUserTweets(limit, events) == Collection([], [], TimedOut)
  {
  }

  const FailedToGetScreenName: string := "Failed to get screen name."
  const UserNotFound: string := "User not found."

  /** The screen-name check of `getUserScreenName` on the page's final
      `location.href`: its last `/`-segment, rejected when empty or equal to
      the id (the page never left `/i/user/<id>`), or when it is `404`. */
  function GetUserScreenName(userId: string, href: string): (r: Result<string, Thrown>)
    ensures r.Success? ==> && r.value != "" && r.value != userId && r.value != "404"
                           && '/' !in r.value && EndsWith(href, r.value)
    ensures r.Success? <==> LastSegment(href, '/') !in {"", userId, "404"}
    ensures r.Failure? ==> r.error == Error(if LastSegment(href, '/') in {"", userId} then FailedToGetScreenName else UserNotFound)
  {
    var screenName := LastSegment(href, '/');
    if screenName == "" || screenName == userId then Failure(Error(FailedToGetScreenName))
    else if screenName == "404" then Failure(Error(UserNotFound))
    else Success(screenName)
  }

  /** A redirect to the profile page yields its screen name. */
  lemma ProfileRedirect(userId: string, name: string)
    requires name != "" && name != userId && name != "404" && '/' !in name
    ensures GetUserScreenName(userId, "https://twitter.com/" + name) == Success(name)
  {
    var prefix := "https://twitter.com/";
    var href := prefix + name;
    assert href[|prefix| - 1] == '/';
    assert forall j :: |prefix| - 1 < j < |href| ==> href[j] == name[j - |prefix|];
    assert LastIndexOf(href, '/') == |prefix| - 1;
    assert href[|prefix|..] == name;
  }

  /** Staying on `/i/user/<id>` is reported as a failure to get the name. */
  lemma NoRedirect(userId: string)
    requires userId != "" && '/' !in userId
    ensures GetUserScreenName(userId, "https://twitter.com/i/user/" + userId) == Failure(Error(FailedToGetScreenName))
  {
    var prefix := "https://twitter.com/i/user/";
    var href := prefix + userId;
    assert href[|prefix| - 1] == '/';
    assert forall j :: |prefix| - 1 < j < |href| ==> href[j] == userId[j - |prefix|];
    assert LastIndexOf(href, '/') == |prefix| - 1;
    assert href[|prefix|..] == userId;
  }
}
