/** The JavaScript values the source handles without a static type: request
    bodies, `JSON.parse` results and response bodies. Numbers are integers. */
module JsValues {
  import opened Wrappers
  import opened Numerals
  import Text

  datatype Value =
    | Undefined
    | Null
    | Bool(b: bool)
    | Num(n: int)
    | Str(s: string)
    | Arr(items: seq<Value>)
    | Obj(fields: map<string, Value>)

  predicate Nullish(v: Value) {
    v.Undefined? || v.Null?
  }

  /** ToBoolean of ECMAScript, section 7.1.2. */
  predicate Truthy(v: Value) {
    match v
    case Undefined => false
    case Null => false
    case Bool(b) => b
    case Num(n) => n != 0
    case Str(s) => s != ""
    case Arr(_) => true
    case Obj(_) => true
  }

  /** `!v || !Array.isArray(v) || v.length === 0` is false: a non-empty array. */
  predicate IsNonEmptyArray(v: Value) {
    v.Arr? && |v.items| > 0
  }

  /** `a || b` */
  function Or(a: Value, b: Value): (r: Value)
    ensures Truthy(a) ==> r == a
    ensures !Truthy(a) ==> r == b
  {
    if Truthy(a) then a else b
  }

  /** `a ?? b` */
  function Coalesce(a: Value, b: Value): (r: Value)
    ensures !Nullish(a) ==> r == a
    ensures Nullish(a) ==> r == b
  {
    if Nullish(a) then b else a
  }

  /** `v[key]` for an own data property; `None` when reading it throws a
      TypeError, which happens exactly when `v` is null or undefined. */
  function Member(v: Value, key: string): (r: Option<Value>)
    ensures r.None? <==> Nullish(v)
  {
    match v
    case Undefined => None
    case Null => None
    case Obj(m) => Some(if key in m then m[key] else Undefined)
    case Arr(xs) =>
      if key == "length" then Some(Num(|xs|))
      else (match ArrayIndex(key)
        case Some(i) => if i < |xs| then Some(xs[i]) else Some(Undefined)
        case None => Some(Undefined))
    case Str(s) =>
      if key == "length" then Some(Num(|s|))
      else (match ArrayIndex(key)
        case Some(i) => if i < |s| then Some(Str([s[i]])) else Some(Undefined)
        case None => Some(Undefined))
    case _ => Some(Undefined)
  }

  /** `v?.[key]`: undefined instead of a TypeError on a nullish `v`. */
  function OptionalMember(v: Value, key: string): (r: Value)
    ensures Nullish(v) ==> r == Undefined
    ensures !Nullish(v) ==> Some(r) == Member(v, key)
  {
    match Member(v, key)
    case None => Undefined
    case Some(x) => x
  }

  /** `String(v)`, which is also what a template literal inserts. */
  function ToStr(v: Value): string
    decreases v
  {
    match v
    case Undefined => "undefined"
    case Null => "null"
    case Bool(b) => if b then "true" else "false"
    case Num(n) => IntToString(n)
    case Str(s) => s
    case Arr(xs) => Text.Join(ElementStrings(xs), ",")
    case Obj(_) => "[object Object]"
  }

  /** What `Array.prototype.join` renders for each element: nullish elements
      become the empty string. */
  function ElementStrings(xs: seq<Value>): (r: seq<string>)
    ensures |r| == |xs|
    decreases xs
  {
    if |xs| == 0 then []
    else [if Nullish(xs[0]) then "" else ToStr(xs[0])] + ElementStrings(xs[1..])
  }

  /** The own properties an array-like value has under its index keys. */
  function IndexProperties(xs: seq<Value>): map<string, Value> {
    if |xs| == 0 then map[]
    else IndexProperties(xs[..|xs| - 1])[NatToString(|xs| - 1) := xs[|xs| - 1]]
  }

  /** Element `i` is found under the key that spells `i`. */
  lemma {:induction false} IndexPropertiesAt(xs: seq<Value>, i: nat)
    requires i < |xs|
    ensures NatToString(i) in IndexProperties(xs)
    ensures IndexProperties(xs)[NatToString(i)] == xs[i]
    decreases |xs|
  {
    var last := |xs| - 1;
    if i < last {
      IndexPropertiesAt(xs[..last], i);
      if NatToString(i) == NatToString(last) {
        NatToStringInjective(i, last);
      }
    }
  }

  function Chars(s: string): (r: seq<Value>)
    ensures |r| == |s| && forall i :: 0 <= i < |s| ==> r[i] == Str([s[i]])
  {
    seq(|s|, i requires 0 <= i < |s| => Str([s[i]]))
  }

  /** The properties an object spread `{...v}` copies from `v`. */
  function Spread(v: Value): map<string, Value> {
    match v
    case Obj(m) => m
    case Arr(xs) => IndexProperties(xs)
    case Str(s) => IndexProperties(Chars(s))
    case _ => map[]
  }
}
