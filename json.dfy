/** The values `res.json()` and `JSON.parse` produce, as the scripts see them.
    An object is its member sequence in `Object.keys` order; since it comes out
    of `JSON.parse`, its keys are distinct. Numbers are integers. */
module Json {
  import opened Wrappers
  import JsText

  datatype Json =
    | JNull
    | JBool(b: bool)
    | JNum(n: int)
    | JStr(s: string)
    | JArr(elems: seq<Json>)
    | JObj(members: seq<Member>)

  datatype Member = Member(key: string, value: Json)

  /** The first member named `key`. */
  function Lookup(ms: seq<Member>, key: string): (r: Option<Json>)
    ensures r.Some? <==> exists i :: 0 <= i < |ms| && ms[i].key == key
    ensures r.Some? ==> exists i :: 0 <= i < |ms| && ms[i] == Member(key, r.value)
  {
    if ms == [] then None
    else if ms[0].key == key then Some(ms[0].value)
    else Lookup(ms[1..], key)
  }

  /** `v[key]` for a property name that only an object can have; `None` is
      `undefined`. */
  function Get(v: Json, key: string): (r: Option<Json>)
    ensures r.Some? ==> v.JObj?
  {
    if v.JObj? then Lookup(v.members, key) else None
  }

  /** `v?.[key]`: `undefined` stays `undefined`. */
  function GetOpt(v: Option<Json>, key: string): Option<Json> {
    if v.Some? then Get(v.value, key) else None
  }

  /** JavaScript truthiness, with `None` for `undefined`. Every array and object
      is truthy, including empty ones. */
  predicate Truthy(v: Option<Json>) {
    match v
    case None => false
    case Some(j) =>
      match j
      case JNull => false
      case JBool(b) => b
      case JNum(n) => n != 0
      case JStr(s) => s != []
      case JArr(_) => true
      case JObj(_) => true
  }

  /** `typeof v === 'object'` for a truthy value: an array or an object. */
  predicate IsObjectLike(v: Json) {
    v.JArr? || v.JObj?
  }

  /** `a || b || ...`: the first truthy operand, `None` when all are falsy. */
  function FirstTruthy(vs: seq<Option<Json>>): (r: Option<Json>)
    ensures r.Some? ==> Truthy(r)
    ensures r.Some? ==> exists i :: (0 <= i < |vs| && vs[i] == r
                                     && forall j :: 0 <= j < i ==> !Truthy(vs[j]))
    ensures r.None? <==> forall i :: 0 <= i < |vs| ==> !Truthy(vs[i])
  {
    if vs == [] then None
    else if Truthy(vs[0]) then vs[0]
    else
      var r := FirstTruthy(vs[1..]);
      assert forall i :: 1 <= i < |vs| ==> vs[i] == vs[1..][i - 1];
      r
  }

  function Join(parts: seq<string>, sep: string): string {
    if parts == [] then []
    else if |parts| == 1 then parts[0]
    else parts[0] + sep + Join(parts[1..], sep)
  }

  /** `String(v)`. An array prints its elements joined by `,`, with `null` as
      the empty string; an object prints as `[object Object]`. */
  function ToStr(v: Json): (r: string)
    ensures v.JStr? ==> r == v.s
    ensures !v.JArr? && Truthy(Some(v)) ==> r != []
    decreases v
  {
    match v
    case JNull => "null"
    case JBool(b) => if b then "true" else "false"
    case JNum(n) => JsText.Decimal(n)
    case JStr(s) => s
    case JArr(es) =>
      Join(seq(|es|, i requires 0 <= i < |es| => if es[i].JNull? then "" else ToStr(es[i])), ",")
    case JObj(_) => "[object Object]"
  }

  /** `(a || b || ... || '').toString()`. */
  function StrOr(vs: seq<Option<Json>>): string {
    match FirstTruthy(vs)
    case None => ""
    case Some(v) => ToStr(v)
  }

  /** `{ ...members, [key]: value }`: an existing member keeps its place and
      takes the new value; otherwise the member is appended. */
  function SetMember(ms: seq<Member>, key: string, value: Json): (r: seq<Member>)
    ensures Lookup(r, key) == Some(value)
    ensures forall k :: k != key ==> Lookup(r, k) == Lookup(ms, k)
    ensures |r| == |ms| + (if Lookup(ms, key).Some? then 0 else 1)
  {
    if ms == [] then [Member(key, value)]
    else if ms[0].key == key then [Member(key, value)] + ms[1..]
    else [ms[0]] + SetMember(ms[1..], key, value)
  }
}
