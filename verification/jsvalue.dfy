/** The slice of JavaScript's value semantics that the TypeScript sources
    rely on when they handle untyped (`any`/`unknown`) data: truthiness,
    nullish coalescing (`??`), property access with and without optional
    chaining, and object spread (`{...o}`).  Numbers are integers here:
    the sources only compare, store or default them. */
module JsValue {
  import opened Wrappers
  import Strings

  datatype Value =
    | Undefined
    | Null
    | Bool(b: bool)
    | Num(n: int)
    | Str(s: string)
    | Arr(items: seq<Value>)
    | Obj(fields: map<string, Value>)

  /** What a `throw` can carry.  `Error` and `TypeError` are `instanceof
      Error` and carry a message; `ParseError` is the `SyntaxError` that
      `JSON.parse` raises (its text is engine-specific and not modelled);
      `NonError` is any thrown value that is not an `Error` at all. */
  datatype Thrown =
    | Error(message: string)
    | TypeError(message: string)
    | ParseError
    | NonError

  /** A file the source reads and `JSON.parse`s: absent, present but not
      readable as JSON (the read or the parse throws), or parsed. */
  datatype JsonFile = Missing | Unparsable | Parsed(content: Value)

  /** `undefined` or `null`: what `??` and `?.` react to. */
  predicate Nullish(v: Value) {
    v.Undefined? || v.Null?
  }

  /** What `if (v)`, `!v` and `&&` test. */
  predicate Truthy(v: Value) {
    match v
    case Undefined => false
    case Null => false
    case Bool(b) => b
    case Num(n) => n != 0
    case Str(s) => s != ""
    case Arr(_) => true
    case Obj(_) => true
  }

  /** `a ?? b` */
  function Coalesce(a: Value, b: Value): (r: Value)
    ensures !Nullish(a) ==> r == a
    ensures Nullish(a) ==> r == b
  {
    if Nullish(a) then b else a
  }

  /** `v.key` on a value that is not nullish.  Own properties of objects are
      modelled; built-in properties of arrays and strings (`length`, methods)
      are never read by the sources on untyped data and read as `undefined`. */
  function Prop(v: Value, key: string): (r: Value)
    requires !Nullish(v)
    ensures v.Obj? && key in v.fields ==> r == v.fields[key]
    ensures !(v.Obj? && key in v.fields) ==> r == Undefined
  {
    if v.Obj? && key in v.fields then v.fields[key] else Undefined
  }

  const CannotReadProperties: string := "Cannot read properties of undefined or null"

  /** `v.key`: throws a `TypeError` when `v` is nullish. */
  function Get(v: Value, key: string): (r: Result<Value, Thrown>)
    ensures r.Failure? <==> Nullish(v)
    ensures r.Failure? ==> r.error.TypeError?
    ensures r.Success? ==> r.value == Prop(v, key)
  {
    if Nullish(v) then Failure(TypeError(CannotReadProperties)) else Success(Prop(v, key))
  }

  /** `v?.key`: `undefined` when `v` is nullish, never throws. */
  function OptGet(v: Value, key: string): (r: Value)
    ensures Nullish(v) ==> r == Undefined
    ensures !Nullish(v) ==> r == Prop(v, key)
  {
    if Nullish(v) then Undefined else Prop(v, key)
  }

  /** `v[i]` on a value that is not nullish. */
  function Index(v: Value, i: nat): (r: Value)
    requires !Nullish(v)
    ensures v.Arr? && i < |v.items| ==> r == v.items[i]
  {
    match v
    case Arr(items) => if i < |items| then items[i] else Undefined
    case Str(s) => if i < |s| then Str([s[i]]) else Undefined
    case Obj(_) => Prop(v, Strings.NatToString(i))
    case _ => Undefined
  }

  /** The own enumerable properties that `{...v}` copies: an object's
      fields, the indices of an array or string, nothing for the rest. */
  function SpreadFields(v: Value): (r: map<string, Value>)
    ensures v.Obj? ==> r == v.fields
    ensures !(v.Obj? || v.Arr? || v.Str?) ==> r == map[]
  {
    match v
    case Obj(fields) => fields
    case Arr(items) => IndexKeyed(items)
    case Str(s) => IndexKeyed(seq(|s|, i requires 0 <= i < |s| => Str([s[i]])))
    case _ => map[]
  }

  /** The map `{"0": xs[0], "1": xs[1], ...}`: every key is the decimal
      index of the element it holds. */
  function IndexKeyed<T>(xs: seq<T>): (r: map<string, T>)
    ensures forall k :: k in r ==> exists i :: 0 <= i < |xs| && Strings.NatToString(i) == k && r[k] == xs[i]
    ensures |xs| > 0 ==> Strings.NatToString(|xs| - 1) in r
  {
    if |xs| == 0 then map[]
    else IndexKeyed(xs[..|xs| - 1])[Strings.NatToString(|xs| - 1) := xs[|xs| - 1]]
  }
}
