/** The cookie cache of `main.ts`: a JSON file holding the two session
    cookies (`auth_token`, `ct0`) and the time they were saved, accepted
    for seven days.  The file system is a `JsonFile` value and the clock a
    `now` parameter in integer milliseconds. */
module SessionCache {
  import opened Wrappers
  import opened JsValue
  import opened Strings

  const DefaultCookieCachePath: string := "./data/twitter-cookies.json"
  const CookieExpiryDays: int := 7
  const ExpiryMs: int := CookieExpiryDays * 24 * 60 * 60 * 1000

  /** The cached record, once it has passed the structural check. */
  datatype CachedCookies = CachedCookies(authToken: string, ct0: string, savedAt: int)

  /** `COOKIE_CACHE_PATH ?? default`: only an unset variable falls back, an
      empty one is kept. */
  function CookieCachePath(env: Option<string>): (path: string)
    ensures env.Some? ==> path == env.value
    ensures env.None? ==> path == DefaultCookieCachePath
  {
    env.GetOr(DefaultCookieCachePath)
  }

  /** `data` is an object holding every field of `record` with the same value. */
  ghost predicate Holds(data: Value, record: Value) {
    data.Obj? && record.Obj? && forall k :: k in record.fields ==> k in data.fields && data.fields[k] == record.fields[k]
  }

  /** The structural check: an object whose `auth_token` and `ct0` are
      strings and whose `savedAt` is a number.  Exactly the objects that
      hold the serialised form of some record pass; `null` never does. */
  function IsValidCachedCookies(data: Value): (valid: bool)
    ensures Nullish(data) ==> !valid
    ensures valid <==> exists c :: Holds(data, ToValue(c))
  {
    ShapeIffHolds(data);
    HasCookieShape(data)
  }

  predicate HasCookieShape(data: Value) {
    && data.Obj?
    && Prop(data, "auth_token").Str?
    && Prop(data, "ct0").Str?
    && Prop(data, "savedAt").Num?
  }

  lemma ShapeIffHolds(data: Value)
    ensures HasCookieShape(data) <==> exists c :: Holds(data, ToValue(c))
  {
    if HasCookieShape(data) {
      var c := CachedCookies(Prop(data, "auth_token").s, Prop(data, "ct0").s, Prop(data, "savedAt").n);
      assert Holds(data, ToValue(c));
    }
    if exists c :: Holds(data, ToValue(c)) {
      var c :| Holds(data, ToValue(c));
      assert "auth_token" in ToValue(c).fields && "ct0" in ToValue(c).fields && "savedAt" in ToValue(c).fields;
    }
  }

  function FromValue(data: Value): CachedCookies
    requires IsValidCachedCookies(data)
  {
    CachedCookies(Prop(data, "auth_token").s, Prop(data, "ct0").s, Prop(data, "savedAt").n)
  }

  /** The object `saveCookies` serialises. */
  function ToValue(c: CachedCookies): Value {
    Obj(map["auth_token" := Str(c.authToken), "ct0" := Str(c.ct0), "savedAt" := Num(c.savedAt)])
  }

  /** A record is still usable at `now` unless MORE than the expiry window
      has passed: exactly at the boundary it is accepted. */
  predicate Fresh(c: CachedCookies, now: int) {
    now - c.savedAt <= ExpiryMs
  }

  /** `loadCachedCookies`: every failure (no file, unreadable JSON, wrong
      shape, expired) collapses to `None`. */
  function LoadCachedCookies(file: JsonFile, now: int): (r: Option<CachedCookies>)
    ensures r.Some? <==> file.Parsed? && IsValidCachedCookies(file.content) && Fresh(FromValue(file.content), now)
    ensures r.Some? ==> r.value == FromValue(file.content)
  {
    match file
    case Missing => None
    case Unparsable => None
    case Parsed(data) =>
      if !IsValidCachedCookies(data) then None
      else if now - Prop(data, "savedAt").n > ExpiryMs then None
      else Some(FromValue(data))
  }

  /** The directory part of the cache path: `path.slice(0, max(0, lastIndexOf('/')))`. */
  function CacheDir(path: string): (dir: string)
    ensures StartsWith(path, dir)
    ensures '/' !in path ==> dir == ""
    ensures '/' in path ==> |dir| < |path| && path[|dir|] == '/' && '/' !in path[|dir| + 1..]
  {
    var i := LastIndexOf(path, '/');
    var dir := path[..if i < 0 then 0 else i];
    assert '/' in path ==> path[i] == '/';
    assert '/' in path ==> forall j :: i < j < |path| ==> path[j] != '/';
    dir
  }

  /** What `saveCookies` does to the file system: the directory it creates
      (only a non-empty one that does not exist yet) and the record written. */
  datatype CookieWrite = CookieWrite(createdDir: Option<string>, record: CachedCookies)

  function SaveCookies(path: string, dirExists: bool, authToken: string, ct0: string, now: int): (w: CookieWrite)
    ensures w.record == CachedCookies(authToken, ct0, now)
    ensures w.createdDir.Some? <==> CacheDir(path) != "" && !dirExists
    ensures w.createdDir.Some? ==> w.createdDir.value == CacheDir(path)
  {
    var dir := CacheDir(path);
    CookieWrite(if dir != "" && !dirExists then Some(dir) else None, CachedCookies(authToken, ct0, now))
  }

  /** What `saveCookies` writes, `loadCachedCookies` reads back intact:
      serialisation loses nothing. */
  lemma ToValueRoundTrip(c: CachedCookies)
    ensures IsValidCachedCookies(ToValue(c))
    ensures FromValue(ToValue(c)) == c
  {
  }

  /** A record saved at `savedAt` is accepted at `now` exactly when no more
      than seven days (604800000 ms) have passed. */
  lemma SaveThenLoad(path: string, dirExists: bool, authToken: string, ct0: string, savedAt: int, now: int)
    ensures var w := SaveCookies(path, dirExists, authToken, ct0, savedAt);
            LoadCachedCookies(Parsed(ToValue(w.record)), now)
              == if now - savedAt <= 604800000 then Some(CachedCookies(authToken, ct0, savedAt)) else None
  {
    ToValueRoundTrip(CachedCookies(authToken, ct0, savedAt));
  }

  /** The expiry test is strict: the last accepted instant is `savedAt + ExpiryMs`. */
  lemma ExpiryBoundary(c: CachedCookies)
    ensures LoadCachedCookies(Parsed(ToValue(c)), c.savedAt + ExpiryMs) == Some(c)
    ensures LoadCachedCookies(Parsed(ToValue(c)), c.savedAt + ExpiryMs + 1) == None
  {
    ToValueRoundTrip(c);
  }

  /** Well-formed tokens do not rescue an expired or malformed record. */
  lemma RejectedWhenStructureWrong(data: Value, now: int)
    requires data.Obj? && !Prop(data, "savedAt").Num?
    ensures LoadCachedCookies(Parsed(data), now) == None
  {
  }

  /** With the default path the directory `./data` is the one created. */
  lemma DefaultCacheDir()
    ensures CacheDir(DefaultCookieCachePath) == "./data"
  {
    var p := DefaultCookieCachePath;
    assert p[6] == '/';
    assert forall j :: 6 < j < |p| ==> p[j] != '/';
    assert LastIndexOf(p, '/') == 6;
  }
}
