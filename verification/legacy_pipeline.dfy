/** The first Python version of the notifier (`src/__main__.py`): walk the
    search results, skip tweets without media or already in the list loaded
    at start-up, send a message (unless this is the first run) and append
    the id.  The search and the Discord post are inputs: the tweets, and
    `sinkOk(k)` telling whether the k-th post returns (false: it raises). */
module LegacyPipeline {
  import opened Wrappers
  import opened Strings
  import opened PyLedger
  import Notified

  datatype Media = Media(mediaUrlHttps: string)

  /** A search result: its id and `entities["media"]` when that key exists. */
  datatype SearchTweet = SearchTweet(id: nat, media: Option<seq<Media>>, createdAt: string)

  /** What the run does to the outside world, in order. */
  datatype Effect = Sent(url: string, imageUrl: string) | Recorded(id: nat)

  /** Why a run stops early: `entities["media"][0]` on an empty list, or a
      post that raised. */
  datatype Abort = IndexError | SinkRaised

  datatype LegacyRun = LegacyRun(effects: seq<Effect>, file: IdFile<nat>, aborted: Option<Abort>)

  const PermalinkPrefix: string := "https://twitter.com/ekusas55000/status/"

  function Permalink(id: nat): (url: string)
    ensures StartsWith(url, PermalinkPrefix)
  {
    PermalinkPrefix + NatToString(id)
  }

  /** Different tweets get different permalinks. */
  lemma PermalinkInjective(a: nat, b: nat)
    requires Permalink(a) == Permalink(b)
    ensures a == b
  {
    assert NatToString(a) == Permalink(a)[|PermalinkPrefix|..];
    assert NatToString(b) == Permalink(b)[|PermalinkPrefix|..];
    NatToStringInjective(a, b);
  }

  function RecordedIds(effects: seq<Effect>): (ids: seq<nat>)
    ensures |ids| <= |effects|
  {
    if |effects| == 0 then []
    else (if effects[0].Recorded? then [effects[0].id] else []) + RecordedIds(effects[1..])
  }

  lemma {:induction false} RecordedIdsAppend(a: seq<Effect>, b: seq<Effect>)
    ensures RecordedIds(a + b) == RecordedIds(a) + RecordedIds(b)
  {
    if |a| == 0 {
      assert a + b == b;
    } else {
      assert (a + b)[0] == a[0] && (a + b)[1..] == a[1..] + b;
      RecordedIdsAppend(a[1..], b);
    }
  }

  /** A tweet the loop acts on: it has a media key and was not in the list
      loaded at start-up. */
  predicate Qualifies(t: SearchTweet, initial: seq<nat>) {
    t.media.Some? && t.id !in initial
  }

  /** Each `Recorded` directly follows the `Sent` of the same tweet. */
  ghost predicate SendBeforeRecord(effects: seq<Effect>) {
    forall i :: 0 <= i < |effects| && effects[i].Recorded? ==>
      i > 0 && effects[i - 1].Sent? && effects[i - 1].url == Permalink(effects[i].id)
  }

  /** The loop body over the remaining tweets; `sends` posts were made before. */
  function Process(initial: seq<nat>, isFirst: bool, tweets: seq<SearchTweet>, file: IdFile<nat>,
                   sinkOk: nat -> bool, sends: nat): (r: LegacyRun)
    ensures LoadNotifiedIds(r.file) == LoadNotifiedIds(file) + RecordedIds(r.effects)
    ensures forall id :: id in RecordedIds(r.effects) ==> exists t :: t in tweets && Qualifies(t, initial) && t.id == id
    ensures isFirst ==> forall e :: e in r.effects ==> e.Recorded?
    ensures !isFirst ==> SendBeforeRecord(r.effects)
    ensures r.aborted == Some(IndexError) ==> exists t :: t in tweets && Qualifies(t, initial) && |t.media.value| == 0
    ensures r.aborted == Some(SinkRaised) ==> !isFirst
    decreases |tweets|
  {
    if |tweets| == 0 then LegacyRun([], file, None)
    else
      var t := tweets[0];
      assert t in tweets;
      if t.media.None? || t.id in initial then
        var r := Process(initial, isFirst, tweets[1..], file, sinkOk, sends);
        SkipKeeps(initial, isFirst, tweets, file, r);
        r
      else if |t.media.value| == 0 then LegacyRun([], file, Some(IndexError))
      else if !isFirst && !sinkOk(sends) then LegacyRun([], file, Some(SinkRaised))
      else
        var tail := Process(initial, isFirst, tweets[1..], AddNotifiedId(file, t.id), sinkOk,
                            if isFirst then sends else sends + 1);
        ActKeeps(initial, isFirst, tweets, file, tail);
        LegacyRun(Step(isFirst, t) + tail.effects, tail.file, tail.aborted)
  }

  /** The effects of acting on one qualifying tweet. */
  function Step(isFirst: bool, t: SearchTweet): (head: seq<Effect>)
    requires t.media.Some? && |t.media.value| > 0
    ensures RecordedIds(head) == [t.id]
    ensures head[|head| - 1] == Recorded(t.id)
    ensures isFirst <==> |head| == 1
    ensures !isFirst ==> head[0] == Sent(Permalink(t.id), t.media.value[0].mediaUrlHttps)
  {
    var head := (if isFirst then [] else [Sent(Permalink(t.id), t.media.value[0].mediaUrlHttps)]) + [Recorded(t.id)];
    assert head[1..] == [] || head[1..] == [Recorded(t.id)];
    assert [Recorded(t.id)][1..] == [];
    head
  }

  /** What the loop leaves after running over `tweets` from `file`. */
  ghost predicate Processed(initial: seq<nat>, isFirst: bool, tweets: seq<SearchTweet>, file: IdFile<nat>, r: LegacyRun) {
    && LoadNotifiedIds(r.file) == LoadNotifiedIds(file) + RecordedIds(r.effects)
    && (forall id :: id in RecordedIds(r.effects) ==> exists t :: t in tweets && Qualifies(t, initial) && t.id == id)
    && (isFirst ==> forall e :: e in r.effects ==> e.Recorded?)
    && (!isFirst ==> SendBeforeRecord(r.effects))
    && (r.aborted == Some(IndexError) ==> exists t :: t in tweets && Qualifies(t, initial) && |t.media.value| == 0)
    && (r.aborted == Some(SinkRaised) ==> !isFirst)
  }

  /** Skipping the first tweet keeps what the rest did. */
  lemma SkipKeeps(initial: seq<nat>, isFirst: bool, tweets: seq<SearchTweet>, file: IdFile<nat>, r: LegacyRun)
    requires |tweets| > 0 && Processed(initial, isFirst, tweets[1..], file, r)
    ensures Processed(initial, isFirst, tweets, file, r)
  {
    assert forall u :: u in tweets[1..] ==> u in tweets;
  }

  /** Acting on the first tweet, then the rest. */
  lemma ActKeeps(initial: seq<nat>, isFirst: bool, tweets: seq<SearchTweet>, file: IdFile<nat>, tail: LegacyRun)
    requires |tweets| > 0 && Qualifies(tweets[0], initial) && |tweets[0].media.value| > 0
    requires Processed(initial, isFirst, tweets[1..], AddNotifiedId(file, tweets[0].id), tail)
    ensures Processed(initial, isFirst, tweets, file, LegacyRun(Step(isFirst, tweets[0]) + tail.effects, tail.file, tail.aborted))
  {
    var t := tweets[0];
    var head := Step(isFirst, t);
    RecordedIdsAppend(head, tail.effects);
    assert LoadNotifiedIds(AddNotifiedId(file, t.id)) == LoadNotifiedIds(file) + [t.id];
    ActOrigins(initial, tweets, RecordedIds(tail.effects));
    if isFirst {
      StepThenOnlyRecords(t, tail.effects);
    } else {
      StepThenSendBeforeRecord(t, tail.effects);
    }
    if tail.aborted == Some(IndexError) {
      var u :| u in tweets[1..] && Qualifies(u, initial) && |u.media.value| == 0;
      assert u in tweets;
    }
    var r := LegacyRun(head + tail.effects, tail.file, tail.aborted);
    assert LoadNotifiedIds(r.file) == LoadNotifiedIds(file) + RecordedIds(r.effects);
  }

  lemma ActOrigins(initial: seq<nat>, tweets: seq<SearchTweet>, rest: seq<nat>)
    requires |tweets| > 0 && Qualifies(tweets[0], initial)
    requires forall id :: id in rest ==> exists u :: u in tweets[1..] && Qualifies(u, initial) && u.id == id
    ensures forall id :: id in [tweets[0].id] + rest ==> exists u :: u in tweets && Qualifies(u, initial) && u.id == id
  {
    forall id | id in [tweets[0].id] + rest
      ensures exists u :: u in tweets && Qualifies(u, initial) && u.id == id
    {
      if id != tweets[0].id {
        var u :| u in tweets[1..] && Qualifies(u, initial) && u.id == id;
        assert u in tweets;
      } else {
        assert tweets[0] in tweets;
      }
    }
  }

  lemma StepThenOnlyRecords(t: SearchTweet, rest: seq<Effect>)
    requires t.media.Some? && |t.media.value| > 0
    requires forall e :: e in rest ==> e.Recorded?
    ensures forall e :: e in Step(true, t) + rest ==> e.Recorded?
  {
    assert Step(true, t) == [Recorded(t.id)];
  }

  lemma StepThenSendBeforeRecord(t: SearchTweet, rest: seq<Effect>)
    requires t.media.Some? && |t.media.value| > 0
    requires SendBeforeRecord(rest)
    ensures SendBeforeRecord(Step(false, t) + rest)
  {
    var effects := Step(false, t) + rest;
    forall i | 0 <= i < |effects| && effects[i].Recorded?
      ensures i > 0 && effects[i - 1].Sent? && effects[i - 1].url == Permalink(effects[i].id)
    {
      if i >= 2 {
        assert effects[i] == rest[i - 2];
        assert effects[i - 1] == rest[i - 3];
      }
    }
  }

  /** `main`: the list is loaded once; the run is a first run when that
      list is empty (an absent file, or an existing empty one). */
  function LegacyMain(file: IdFile<nat>, tweets: seq<SearchTweet>, sinkOk: nat -> bool): (r: LegacyRun)
    // the file afterwards is the old list with the recorded ids appended
    ensures LoadNotifiedIds(r.file) == LoadNotifiedIds(file) + RecordedIds(r.effects)
    // only media-bearing tweets absent from the list loaded at start-up are recorded
    ensures forall id :: id in RecordedIds(r.effects) ==>
              id !in LoadNotifiedIds(file) && exists t :: t in tweets && t.media.Some? && t.id == id
    // an empty list at start-up posts nothing; otherwise each record follows its post
    ensures |LoadNotifiedIds(file)| == 0 ==> forall e :: e in r.effects ==> e.Recorded?
    ensures |LoadNotifiedIds(file)| > 0 ==> SendBeforeRecord(r.effects)
    ensures r.aborted == Some(SinkRaised) ==> |LoadNotifiedIds(file)| > 0
  {
    var initial := LoadNotifiedIds(file);
    Process(initial, |initial| == 0, tweets, file, sinkOk, 0)
  }

  /** The run expected when nothing aborts: for each qualifying tweet in
      search order, its message (except on a first run) then its id. */
  function ExpectedEffects(initial: seq<nat>, isFirst: bool, tweets: seq<SearchTweet>): seq<Effect>
    requires forall t :: t in tweets && Qualifies(t, initial) ==> |t.media.value| > 0
    decreases |tweets|
  {
    if |tweets| == 0 then []
    else
      var t := tweets[0];
      var head := if Qualifies(t, initial) then Step(isFirst, t) else [];
      head + ExpectedEffects(initial, isFirst, tweets[1..])
  }

  /** With non-empty media lists and a sink that never raises, the loop
      does exactly the expected effects and nothing aborts. */
  lemma {:induction false} ProcessMatchesExpected(initial: seq<nat>, isFirst: bool, tweets: seq<SearchTweet>,
                                                  file: IdFile<nat>, sinkOk: nat -> bool, sends: nat)
    requires forall t :: t in tweets && Qualifies(t, initial) ==> |t.media.value| > 0
    requires forall k :: sinkOk(k)
    ensures Process(initial, isFirst, tweets, file, sinkOk, sends).aborted.None?
    ensures Process(initial, isFirst, tweets, file, sinkOk, sends).effects == ExpectedEffects(initial, isFirst, tweets)
    decreases |tweets|
  {
    if |tweets| > 0 {
      var t := tweets[0];
      assert forall u :: u in tweets[1..] ==> u in tweets;
      assert t in tweets;
      if Qualifies(t, initial) {
        var next := if isFirst then sends else sends + 1;
        ProcessMatchesExpected(initial, isFirst, tweets[1..], AddNotifiedId(file, t.id), sinkOk, next);
        var tail := Process(initial, isFirst, tweets[1..], AddNotifiedId(file, t.id), sinkOk, next);
        assert Process(initial, isFirst, tweets, file, sinkOk, sends)
            == LegacyRun(Step(isFirst, t) + tail.effects, tail.file, tail.aborted);
      } else {
        ProcessMatchesExpected(initial, isFirst, tweets[1..], file, sinkOk, sends);
      }
    }
  }

  /** A first run posts nothing, yet records every qualifying tweet. */
  lemma FirstRunRecordsWithoutSending(tweets: seq<SearchTweet>, sinkOk: nat -> bool)
    requires forall t :: t in tweets && t.media.Some? ==> |t.media.value| > 0
    requires forall k :: sinkOk(k)
    ensures var r := LegacyMain(None, tweets, sinkOk);
            && r.aborted.None?
            && (forall e :: e in r.effects ==> e.Recorded?)
            && r.effects == ExpectedEffects([], true, tweets)
  {
    ProcessMatchesExpected([], true, tweets, None, sinkOk, 0);
  }

  /** An existing but empty list also makes a first run, whereas the
      TypeScript ledger calls that file "not first". */
  lemma EmptyListIsFirstRun(tweets: seq<SearchTweet>, sinkOk: nat -> bool)
    ensures forall e :: e in LegacyMain(Some([]), tweets, sinkOk).effects ==> e.Recorded?
    ensures !Notified.IsFirst(Some([]))
  {
  }

  /** Membership is checked against the list loaded at start-up only: the
      same tweet twice in one search result is posted twice. */
  lemma DuplicateInOneBatchSentTwice(t: SearchTweet, sinkOk: nat -> bool)
    requires t.media.Some? && |t.media.value| > 0 && t.id != 1
    requires forall k :: sinkOk(k)
    ensures var r := LegacyMain(Some([1]), [t, t], sinkOk);
            var m := Sent(Permalink(t.id), t.media.value[0].mediaUrlHttps);
            r.effects == [m, Recorded(t.id), m, Recorded(t.id)]
  {
    ProcessMatchesExpected([1], false, [t, t], Some([1]), sinkOk, 0);
    var m := Sent(Permalink(t.id), t.media.value[0].mediaUrlHttps);
    assert [t, t][1..] == [t];
    assert [t][1..] == [];
    assert ExpectedEffects([1], false, [t]) == [m, Recorded(t.id)];
  }
}
