/**
 * Parsed JSON values as the agent's JavaScript sees them.  `JSON.parse` and
 * `JSON.stringify` are not re-implemented: a document is already a `Json`
 * value, and whatever produces one is a parameter of the operations that need it.
 * Objects are maps, so the key order of a JavaScript object is not modelled.
 */
module Json {
  import opened Wrappers

  datatype Json =
    | JNull
    | JBool(b: bool)
    | JNum(n: real)
    | JStr(s: string)
    | JArr(items: seq<Json>)
    | JObj(fields: map<string, Json>)

  /** JavaScript truthiness of a parsed JSON value (JSON has no NaN, so a number is falsy iff it is zero). */
  predicate Truthy(j: Json) {
    match j
    case JNull => false
    case JBool(b) => b
    case JNum(n) => n != 0.0
    case JStr(s) => s != ""
    case JArr(_) => true
    case JObj(_) => true
  }

  /** `typeof v === "object"` and `v` truthy: an object or an array, never null. */
  predicate IsObject(j: Json) {
    j.JObj? || j.JArr?
  }

  /**
   * Reading property `key` of a value that is not null: an own field of an
   * object, and `undefined` (None) for arrays, strings, numbers and booleans,
   * which have no property, own or inherited, of the names the agent reads.
   */
  function Prop(j: Json, key: string): (r: Option<Json>)
    requires j != JNull
    ensures r.Some? <==> j.JObj? && key in j.fields
    ensures r.Some? ==> r.value == j.fields[key]
  {
    if j.JObj? && key in j.fields then Some(j.fields[key]) else None
  }

  /** `x || null` for a property read `x`, where a missing property is `undefined`. */
  function OrNull(x: Option<Json>): (r: Json)
    ensures Truthy(r) <==> x.Some? && Truthy(x.value)
    ensures Truthy(r) ==> r == x.value
    ensures !Truthy(r) ==> r == JNull
  {
    if x.Some? && Truthy(x.value) then x.value else JNull
  }
}
