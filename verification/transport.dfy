/** The request normalisation done by `cycleTLSFetchWithProxy` in
    `main.ts`: the headers object (as written, and as evidently intended),
    the request body, the proxy URL with optional credentials and the user
    agent.  The CycleTLS call itself is not modelled. */
module Transport {
  import opened Wrappers
  import opened JsValue
  import opened Strings

  /** The shapes `init.headers` can take, told apart by the source's tests
      in order: an object with an `entries()` method (a `Headers`), an
      array of pairs, another iterable of pairs, a plain record. */
  datatype HeadersInit =
    | NoHeaders
    | HeadersObject(entries: seq<(string, string)>)
    | PairArray(pairs: seq<(string, string)>)
    | PairIterable(pairs: seq<(string, string)>)
    | PlainRecord(record: map<string, string>)

  /** `for (const [key, value] of pairs) headers[key] = value`: later pairs
      overwrite earlier ones. */
  function FoldPairs(pairs: seq<(string, string)>): (r: map<string, string>)
    ensures forall k :: k in r <==> exists i :: 0 <= i < |pairs| && pairs[i].0 == k
    ensures forall i :: 0 <= i < |pairs| && (forall j :: i < j < |pairs| ==> pairs[j].0 != pairs[i].0) ==>
                          pairs[i].0 in r && r[pairs[i].0] == pairs[i].1
  {
    if |pairs| == 0 then map[]
    else
      var last := pairs[|pairs| - 1];
      var prev := FoldPairs(pairs[..|pairs| - 1]);
      FoldStep(pairs, prev);
      prev[last.0 := last.1]
  }

  /** What a fold has done after `pairs`: exactly their keys, each with
      its last value. */
  ghost predicate Folded(pairs: seq<(string, string)>, r: map<string, string>) {
    && (forall k :: k in r <==> exists i :: 0 <= i < |pairs| && pairs[i].0 == k)
    && (forall i :: 0 <= i < |pairs| && (forall j :: i < j < |pairs| ==> pairs[j].0 != pairs[i].0) ==>
                      pairs[i].0 in r && r[pairs[i].0] == pairs[i].1)
  }

  lemma FoldStep(pairs: seq<(string, string)>, prev: map<string, string>)
    requires |pairs| > 0 && Folded(pairs[..|pairs| - 1], prev)
    ensures Folded(pairs, prev[pairs[|pairs| - 1].0 := pairs[|pairs| - 1].1])
  {
    var init := pairs[..|pairs| - 1];
    var last := pairs[|pairs| - 1];
    var r := prev[last.0 := last.1];
    assert forall i :: 0 <= i < |init| ==> init[i] == pairs[i];
    forall k ensures k in r <==> exists i :: 0 <= i < |pairs| && pairs[i].0 == k {
      if k != last.0 && k !in prev {
        forall i | 0 <= i < |pairs| ensures pairs[i].0 != k {
          if i < |init| { assert init[i].0 != k; }
        }
      }
    }
    forall i | 0 <= i < |pairs| && (forall j :: i < j < |pairs| ==> pairs[j].0 != pairs[i].0)
      ensures pairs[i].0 in r && r[pairs[i].0] == pairs[i].1
    {
      if i < |init| {
        assert pairs[|pairs| - 1].0 != pairs[i].0;
        assert forall j :: i < j < |init| ==> init[j].0 != init[i].0;
      }
    }
  }

  /** Each header name is set to the value of its LAST occurrence. */
  lemma {:induction false} FoldPairsLastWins(pairs: seq<(string, string)>, k: string, v: string)
    ensures FoldPairs(pairs + [(k, v)])[k] == v
    ensures forall k' :: k' != k && k' in FoldPairs(pairs) ==> FoldPairs(pairs + [(k, v)])[k'] == FoldPairs(pairs)[k']
  {
    assert (pairs + [(k, v)])[..|pairs|] == pairs;
  }

  /** The header map the code evidently intends: every pair-carrying shape
      folded by name, a plain record copied.  This is the corrected half of
      the array-headers finding; `HeadersAsWritten` is what the code does. */
  function NormalizeHeaders(h: HeadersInit): (r: map<string, string>)
    ensures h.PlainRecord? ==> r == h.record
    ensures h.NoHeaders? ==> r == map[]
    ensures h.HeadersObject? ==> r == FoldPairs(h.entries)
    ensures h.PairArray? || h.PairIterable? ==> r == FoldPairs(h.pairs)
  {
    match h
    case NoHeaders => map[]
    case HeadersObject(entries) => FoldPairs(entries)
    case PairArray(pairs) => FoldPairs(pairs)
    case PairIterable(pairs) => FoldPairs(pairs)
    case PlainRecord(record) => record
  }

  /** Under the intended fold the three pair-carrying shapes agree; as
      written they do not (see `ArrayHeadersAsWritten`). */
  lemma PairShapesAgree(pairs: seq<(string, string)>)
    ensures NormalizeHeaders(HeadersObject(pairs)) == NormalizeHeaders(PairArray(pairs))
    ensures NormalizeHeaders(PairArray(pairs)) == NormalizeHeaders(PairIterable(pairs))
  {
  }

  /** The array branch AS WRITTEN: a JavaScript array has an `entries()`
      method, so it is caught by the first test and its `entries()` yields
      `[index, pair]`; each pair is stored under its decimal index. */
  function ArrayHeadersAsWritten(pairs: seq<(string, string)>): (r: map<string, (string, string)>)
    ensures forall k :: k in r ==> exists i :: 0 <= i < |pairs| && NatToString(i) == k && r[k] == pairs[i]
  {
    IndexKeyed(pairs)
  }

  /** Headers given as an array of pairs lose their names: no header of the
      name `name` exists afterwards unless `name` is all digits, so in
      particular the `user-agent` header is never seen. */
  lemma ArrayHeadersLoseNames(pairs: seq<(string, string)>, name: string)
    requires !IsDigits(name)
    ensures name !in ArrayHeadersAsWritten(pairs)
  {
  }

  lemma UserAgentNotDigits()
    ensures !IsDigits("user-agent")
  {
    assert !('0' <= "user-agent"[0] <= '9');
  }

  /** The `headers` object as the code builds it: named string values for
      every shape but an array, whose pairs land under their indices. */
  datatype SentHeaders = Named(named: map<string, string>) | ByIndex(byIndex: map<string, (string, string)>)

  function HeadersAsWritten(h: HeadersInit): (r: SentHeaders)
    ensures r.ByIndex? <==> h.PairArray?
    ensures h.PairArray? ==> r.byIndex == ArrayHeadersAsWritten(h.pairs) && "user-agent" !in r.byIndex
    // every other shape is what the intended fold gives
    ensures !h.PairArray? ==> r == Named(NormalizeHeaders(h))
  {
    match h
    case PairArray(pairs) =>
      UserAgentNotDigits();
      ArrayHeadersLoseNames(pairs, "user-agent");
      ByIndex(ArrayHeadersAsWritten(pairs))
    case _ => Named(NormalizeHeaders(h))
  }

  const DefaultUserAgent: string :=
    "Mozilla/5.0 (Windows NT 10.0; Win64; x64) AppleWebKit/537.36 (KHTML, like Gecko) Chrome/135.0.0.0 Safari/537.36"

  /** `headers['user-agent'] || default`: the lower-case header when it is
      non-empty, the fixed Chrome string otherwise. */
  function UserAgent(headers: map<string, string>): (ua: string)
    ensures ua != ""
    ensures "user-agent" in headers && headers["user-agent"] != "" ==> ua == headers["user-agent"]
    ensures ua != DefaultUserAgent ==> "user-agent" in headers && ua == headers["user-agent"]
  {
    if "user-agent" in headers && headers["user-agent"] != "" then headers["user-agent"] else DefaultUserAgent
  }

  /** A `user-agent` pair given last decides the user agent, whatever came
      before it; an empty one falls back to the default. */
  lemma LastUserAgentWins(pairs: seq<(string, string)>, v: string)
    ensures UserAgent(FoldPairs(pairs + [("user-agent", v)])) == (if v != "" then v else DefaultUserAgent)
  {
    FoldPairsLastWins(pairs, "user-agent", v);
  }

  /** `init.body`: a string as is, `URLSearchParams` and other objects in
      their serialised form (the serialisation itself is not modelled). */
  datatype RequestBody =
    | NoBody
    | TextBody(text: string)
    | SearchParamsBody(serialized: string)
    | JsonBody(stringified: string)

  /** The JavaScript value `init.body` holds: `undefined`, a string, or an
      object. */
  function BodyValue(b: RequestBody): Value {
    match b
    case NoBody => Undefined
    case TextBody(text) => Str(text)
    case SearchParamsBody(_) => Obj(map[])
    case JsonBody(_) => Obj(map[])
  }

  /** The body sent: nothing exactly when `init.body` is falsy; otherwise
      the string itself or the object's serialised form. */
  function ChooseBody(b: RequestBody): (r: Option<string>)
    ensures r.None? <==> !Truthy(BodyValue(b))
    ensures r.Some? && BodyValue(b).Str? ==> r.value == BodyValue(b).s
    ensures b.SearchParamsBody? ==> r == Some(b.serialized)
    ensures b.JsonBody? ==> r == Some(b.stringified)
  {
    match b
    case NoBody => None
    case TextBody(text) => if text == "" then None else Some(text)
    case SearchParamsBody(serialized) => Some(serialized)
    case JsonBody(stringified) => Some(stringified)
  }

  predicate HasScheme(s: string) {
    StartsWith(s, "http://") || StartsWith(s, "https://")
  }

  /** A server without a scheme is given `http://`. */
  function NormalizeProxyServer(server: string): (r: string)
    ensures HasScheme(r)
    ensures EndsWith(r, server)
    ensures HasScheme(server) ==> r == server
    ensures !HasScheme(server) ==> r == "http://" + server
  {
    if HasScheme(server) then server else "http://" + server
  }

  lemma NormalizeProxyServerIdempotent(server: string)
    ensures NormalizeProxyServer(NormalizeProxyServer(server)) == NormalizeProxyServer(server)
  {
  }

  /** The proxy handed to CycleTLS: the normalised URL, with the user name
      and password embedded when both are set.  (Embedding them is the URL
      parser's business and is kept as a pair here.) */
  datatype Proxy = Proxy(url: string, credentials: Option<(string, string)>)

  function InvalidProxyMessage(server: string): string {
    "Invalid PROXY_SERVER URL: " + server + ". Expected format: host:port, http://host:port or https://host:port"
  }

  /** `!!v` for an optional environment variable. */
  predicate IsSet(v: Option<string>) {
    v.Some? && v.value != ""
  }

  /** `PROXY_SERVER`, `PROXY_USERNAME`, `PROXY_PASSWORD`, with `urlParses`
      standing for whether `new URL(...)` accepts the normalised server. */
  function ProxyFor(server: Option<string>, username: Option<string>, password: Option<string>, urlParses: bool)
    : (r: Result<Option<Proxy>, Thrown>)
    // an unset or empty server means no proxy
    ensures !IsSet(server) ==> r == Success(None)
    // the only error: both credentials given and the URL parser refusing
    ensures r.Failure? <==> IsSet(server) && IsSet(username) && IsSet(password) && !urlParses
    ensures r.Failure? ==> r.error == Error(InvalidProxyMessage(server.value))
    // a set server always yields a proxy when the call succeeds
    ensures IsSet(server) && r.Success? ==> r.value.Some?
    ensures r.Success? && r.value.Some? ==>
              && IsSet(server)
              && r.value.value.url == NormalizeProxyServer(server.value)
    ensures r.Success? && r.value.Some? && r.value.value.credentials.Some? <==>
              IsSet(server) && IsSet(username) && IsSet(password) && urlParses
    ensures r.Success? && r.value.Some? && r.value.value.credentials.Some? ==>
              r.value.value.credentials.value == (username.value, password.value)
  {
    if !IsSet(server) then Success(None)
    else
      var normalized := NormalizeProxyServer(server.value);
      if IsSet(username) && IsSet(password) then
        if urlParses then Success(Some(Proxy(normalized, Some((username.value, password.value)))))
        else Failure(Error(InvalidProxyMessage(server.value)))
      else Success(Some(Proxy(normalized, None)))
  }

  /** Only half of the credentials is never an error and never attached. */
  lemma HalfCredentialsIgnored(server: string, username: string, urlParses: bool)
    requires server != ""
    ensures ProxyFor(Some(server), Some(username), None, urlParses) == Success(Some(Proxy(NormalizeProxyServer(server), None)))
    ensures ProxyFor(Some(server), Some(username), Some(""), urlParses) == Success(Some(Proxy(NormalizeProxyServer(server), None)))
  {
  }

  /** The options object passed to CycleTLS. */
  datatype RequestOptions = RequestOptions(body: Option<string>, headers: SentHeaders, userAgent: string, proxy: Option<Proxy>)

  /** The options as the code builds them (main.ts:126-139): the headers
      object of `HeadersAsWritten`, whose `user-agent` entry, when there is
      one, is the user agent. */
  function BuildOptions(headers: HeadersInit, body: RequestBody,
                        server: Option<string>, username: Option<string>, password: Option<string>, urlParses: bool)
    : (r: Result<RequestOptions, Thrown>)
    ensures r.Failure? <==> ProxyFor(server, username, password, urlParses).Failure?
    ensures r.Failure? ==> r.error == ProxyFor(server, username, password, urlParses).error
    ensures r.Success? ==> r.value.headers == HeadersAsWritten(headers)
    ensures r.Success? ==> r.value.body == ChooseBody(body)
    ensures r.Success? ==> r.value.proxy == ProxyFor(server, username, password, urlParses).value
    // headers given as an array never set the user agent
    ensures r.Success? && headers.PairArray? ==> r.value.userAgent == DefaultUserAgent
    ensures r.Success? && !headers.PairArray? ==> r.value.userAgent == UserAgent(NormalizeHeaders(headers))
  {
    var sent := HeadersAsWritten(headers);
    var proxy :- ProxyFor(server, username, password, urlParses);
    var ua := match sent
      case Named(named) => UserAgent(named)
      case ByIndex(_) => DefaultUserAgent;
    Success(RequestOptions(ChooseBody(body), sent, ua, proxy))
  }

  /** The options the code evidently intends: every header shape folded by
      name, so an array of pairs sets its headers and user agent too. */
  function IntendedOptions(headers: HeadersInit, body: RequestBody,
                           server: Option<string>, username: Option<string>, password: Option<string>, urlParses: bool)
    : (r: Result<RequestOptions, Thrown>)
    ensures r.Failure? <==> ProxyFor(server, username, password, urlParses).Failure?
    ensures r.Success? ==> r.value.headers == Named(NormalizeHeaders(headers))
    ensures r.Success? ==> r.value.userAgent == UserAgent(NormalizeHeaders(headers))
    ensures r.Success? ==> r.value.body == ChooseBody(body)
    ensures r.Success? ==> r.value.proxy == ProxyFor(server, username, password, urlParses).value
  {
    var h := NormalizeHeaders(headers);
    var proxy :- ProxyFor(server, username, password, urlParses);
    Success(RequestOptions(ChooseBody(body), Named(h), UserAgent(h), proxy))
  }

  /** Under the intended fold, a non-empty `user-agent` pair given last is
      the user agent, whatever pair-carrying shape holds it. */
  lemma LastPairSetsUserAgent(headers: HeadersInit)
    requires headers.HeadersObject? || headers.PairArray? || headers.PairIterable?
    ensures var pairs := if headers.HeadersObject? then headers.entries else headers.pairs;
            |pairs| > 0 && pairs[|pairs| - 1].0 == "user-agent" && pairs[|pairs| - 1].1 != "" ==>
              UserAgent(NormalizeHeaders(headers)) == pairs[|pairs| - 1].1
  {
    var pairs := if headers.HeadersObject? then headers.entries else headers.pairs;
    if |pairs| > 0 && pairs[|pairs| - 1].0 == "user-agent" {
      assert pairs == pairs[..|pairs| - 1] + [pairs[|pairs| - 1]];
      LastUserAgentWins(pairs[..|pairs| - 1], pairs[|pairs| - 1].1);
    }
  }

  /** Only arrays of pairs are affected: for every other header shape the
      code does what is intended. */
  lemma AsWrittenAgreesOffArrays(headers: HeadersInit, body: RequestBody,
                                 server: Option<string>, username: Option<string>, password: Option<string>, urlParses: bool)
    requires !headers.PairArray?
    ensures BuildOptions(headers, body, server, username, password, urlParses)
              == IntendedOptions(headers, body, server, username, password, urlParses)
  {
  }

  /** The concrete input: `[['user-agent', 'X']]` is sent with the default
      user agent as written, and with `X` as intended. */
  lemma ArrayUserAgentCounterexample(body: RequestBody)
    ensures var headers := PairArray([("user-agent", "X")]);
            && BuildOptions(headers, body, None, None, None, true).value.userAgent == DefaultUserAgent
            && "user-agent" !in BuildOptions(headers, body, None, None, None, true).value.headers.byIndex
            && IntendedOptions(headers, body, None, None, None, true).value.userAgent == "X"
  {
    assert [("user-agent", "X")] == [] + [("user-agent", "X")];
  }
}
