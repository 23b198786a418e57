/**
 * The JavaScript values that `response.json()` produces and that `res.json()`
 * sends back, with the two JavaScript operations the handlers apply to them:
 * truthiness and reading a property.
 */
module Json {
  import opened Wrappers
  import opened JsText

  /**
   * A parsed JSON value; an object keeps its members in source order, repeated
   * keys included. Reading a member resolves repeats as `JSON.parse` does; the
   * member order and de-duplication of serialising it again are not modelled.
   */
  datatype Json =
    | JNull
    | JBool(b: bool)
    | JNumber(n: real)
    | JString(s: JsString)
    | JArray(items: seq<Json>)
    | JObject(members: seq<(JsString, Json)>)

  /** ECMAScript ToBoolean: null, false, 0 and "" are falsy; arrays and objects are truthy. */
  predicate Truthy(v: Json)
  {
    match v
    case JNull => false
    case JBool(b) => b
    case JNumber(n) => n != 0.0
    case JString(s) => s != []
    case JArray(_) => true
    case JObject(_) => true
  }

  /**
   * The value of the member named `key`, or `None` (undefined) when there is
   * none. When a key is repeated, the last occurrence wins, as with JSON.parse.
   */
  function Member(members: seq<(JsString, Json)>, key: JsString): (r: Option<Json>)
    ensures r.None? <==> forall i :: 0 <= i < |members| ==> members[i].0 != key
    ensures r.Some? ==> exists i :: 0 <= i < |members| && members[i] == (key, r.value)
                                  && forall j :: i < j < |members| ==> members[j].0 != key
  {
    if members == [] then None
    else if members[|members| - 1].0 == key then Some(members[|members| - 1].1)
    else Member(members[..|members| - 1], key)
  }

  /**
   * `v[key]` for a key that no built-in prototype defines (`error` and
   * `message` are such keys): an own member of an object, and undefined for
   * every other non-null value. Reading a property of null throws a TypeError,
   * so the caller deals with `JNull` first.
   */
  function Property(v: Json, key: JsString): (r: Option<Json>)
    requires !v.JNull?
    ensures !v.JObject? ==> r.None?
  {
    if v.JObject? then Member(v.members, key) else None
  }

  /** Whether `v[key]` is truthy; undefined is falsy. */
  predicate TruthyProperty(v: Json, key: JsString)
    requires !v.JNull?
  {
    Property(v, key).Some? && Truthy(Property(v, key).value)
  }
}
