/** `config.ts`: the file paths taken from the environment and the
    validation of the parsed configuration file. */
module Config {
  import opened Wrappers
  import opened JsValue

  const DefaultConfigPath: string := "./config.json"
  const DefaultNotifiedPath: string := "./notified.json"

  /** `env || default`: an unset OR empty variable falls back. */
  function PathOr(env: Option<string>, default: string): (path: string)
    ensures env.Some? && env.value != "" ==> path == env.value
    ensures env.None? || env.value == "" ==> path == default
  {
    if env.Some? && env.value != "" then env.value else default
  }

  datatype Paths = Paths(config: string, notified: string)

  /** `PATH`, from `CONFIG_PATH` and `NOTIFIED_PATH`: never an empty path. */
  function GetPaths(configEnv: Option<string>, notifiedEnv: Option<string>): (paths: Paths)
    ensures paths.config != "" && paths.notified != ""
    ensures configEnv.Some? && configEnv.value != "" ==> paths.config == configEnv.value
    ensures notifiedEnv.Some? && notifiedEnv.value != "" ==> paths.notified == notifiedEnv.value
  {
    Paths(PathOr(configEnv, DefaultConfigPath), PathOr(notifiedEnv, DefaultNotifiedPath))
  }

  /** An empty variable is treated as unset. */
  lemma EmptyEnvFallsBack()
    ensures GetPaths(Some(""), Some("")) == GetPaths(None, None) == Paths("./config.json", "./notified.json")
  {
  }

  /** `config.key` in a `&&` chain whose earlier links were truthy. */
  function Member(v: Value, key: string): Value {
    if v.Obj? && key in v.fields then v.fields[key] else Undefined
  }

  /** The five leaf entries a configuration must carry. */
  const RequiredEntries: seq<(string, string)> :=
    [("twitter", "consumerKey"), ("twitter", "consumerSecret"), ("twitter", "targetUserId"),
     ("discord", "token"), ("discord", "channelId")]

  /** `isConfig`: the object and the seven required entries are all truthy.
      Only the five leaves matter: a truthy leaf can only be read out of an
      object, so the three parent tests never decide anything on their own. */
  function IsConfig(config: Value): (valid: bool)
    ensures valid ==> config.Obj? && Member(config, "twitter").Obj? && Member(config, "discord").Obj?
    ensures valid <==> forall i :: 0 <= i < |RequiredEntries| ==>
                         Truthy(Member(Member(config, RequiredEntries[i].0), RequiredEntries[i].1))
  {
    LeavesDecide(config);
    var twitter := Member(config, "twitter");
    var discord := Member(config, "discord");
    && Truthy(config)
    && Truthy(twitter)
    && Truthy(Member(twitter, "consumerKey"))
    && Truthy(Member(twitter, "consumerSecret"))
    && Truthy(Member(twitter, "targetUserId"))
    && Truthy(discord)
    && Truthy(Member(discord, "token"))
    && Truthy(Member(discord, "channelId"))
  }

  /** The five leaf tests, spelt out. */
  lemma LeavesDecide(config: Value)
    ensures (forall i :: 0 <= i < |RequiredEntries| ==>
               Truthy(Member(Member(config, RequiredEntries[i].0), RequiredEntries[i].1)))
            <==> && Truthy(Member(Member(config, "twitter"), "consumerKey"))
                 && Truthy(Member(Member(config, "twitter"), "consumerSecret"))
                 && Truthy(Member(Member(config, "twitter"), "targetUserId"))
                 && Truthy(Member(Member(config, "discord"), "token"))
                 && Truthy(Member(Member(config, "discord"), "channelId"))
  {
    assert RequiredEntries[0] == ("twitter", "consumerKey");
    assert RequiredEntries[1] == ("twitter", "consumerSecret");
    assert RequiredEntries[2] == ("twitter", "targetUserId");
    assert RequiredEntries[3] == ("discord", "token");
    assert RequiredEntries[4] == ("discord", "channelId");
  }

  datatype ProxyConfig = ProxyConfig(host: string, port: int, username: Option<string>, password: Option<string>, protocol: Option<string>)

  /** The declared `Config` shape. */
  datatype TypedConfig = TypedConfig(
    consumerKey: string, consumerSecret: string, targetUserId: string,
    token: string, channelId: string, proxy: Option<ProxyConfig>)

  function OptionalStr(s: Option<string>): Value {
    if s.Some? then Str(s.value) else Undefined
  }

  function ProxyValue(p: ProxyConfig): Value {
    Obj(map["host" := Str(p.host), "port" := Num(p.port), "username" := OptionalStr(p.username),
            "password" := OptionalStr(p.password), "protocol" := OptionalStr(p.protocol)])
  }

  /** The JSON a well-typed configuration file holds. */
  function ToValue(c: TypedConfig): Value {
    var base := map[
      "twitter" := Obj(map["consumerKey" := Str(c.consumerKey), "consumerSecret" := Str(c.consumerSecret),
                           "targetUserId" := Str(c.targetUserId)]),
      "discord" := Obj(map["token" := Str(c.token), "channelId" := Str(c.channelId)])];
    Obj(if c.proxy.Some? then base["proxy" := ProxyValue(c.proxy.value)] else base)
  }

  /** A well-typed configuration passes exactly when none of its five
      strings is empty; the proxy plays no part. */
  lemma TypedConfigValid(c: TypedConfig)
    ensures IsConfig(ToValue(c)) <==>
              c.consumerKey != "" && c.consumerSecret != "" && c.targetUserId != ""
              && c.token != "" && c.channelId != ""
  {
  }

  /** The validator never looks at `proxy`: setting, changing or removing
      it does not change the verdict. */
  lemma ProxyNotInspected(fields: map<string, Value>, proxy: Value)
    ensures IsConfig(Obj(fields["proxy" := proxy])) == IsConfig(Obj(fields))
    ensures IsConfig(Obj(fields - {"proxy"})) == IsConfig(Obj(fields))
  {
  }

  /** Something that is not an object never passes. */
  lemma NonObjectRejected(config: Value)
    requires !config.Obj?
    ensures !IsConfig(config)
  {
  }

  const ConfigNotFound: string := "Config file not found"
  const InvalidConfig: string := "Invalid config"

  /** `getConfig`: a missing file and a failed check are errors with their
      own messages; a file that does not parse throws the parser's error. */
  function GetConfig(file: JsonFile): (r: Result<Value, Thrown>)
    ensures file.Missing? <==> r == Failure(Error(ConfigNotFound))
    ensures file.Unparsable? <==> r == Failure(ParseError)
    ensures r.Success? <==> file.Parsed? && IsConfig(file.content)
    ensures r.Success? ==> r.value == file.content
    ensures file.Parsed? && !IsConfig(file.content) <==> r == Failure(Error(InvalidConfig))
  {
    match file
    case Missing => Failure(Error(ConfigNotFound))
    case Unparsable => Failure(ParseError)
    case Parsed(config) => if IsConfig(config) then Success(config) else Failure(Error(InvalidConfig))
  }

  /** An empty string in a required entry is rejected. */
  lemma EmptyTokenInvalid(c: TypedConfig)
    requires c.token == ""
    ensures GetConfig(Parsed(ToValue(c))) == Failure(Error(InvalidConfig))
  {
  }
}
