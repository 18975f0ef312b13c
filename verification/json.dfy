/**
 * A parsed JSON value as `JSON.parse` produces it. Numbers are kept in
 * their `String(value)` form, which is all the panel ever does with them;
 * object members are listed in `Object.keys` order.
 */
module Json {

  datatype Json =
    | JNull
    | JBool(b: bool)
    | JNumber(repr: string)
    | JString(s: string)
    | JArray(items: seq<Json>)
    | JObject(members: seq<Member>)

  datatype Member = Member(key: string, value: Json)

  /** `String(value)` for a boolean. */
  function BoolText(b: bool): string {
    if b then "true" else "false"
  }

  /** The value is an object or an array (`typeof v === 'object' && v !== null`). */
  predicate IsContainer(v: Json) {
    v.JArray? || v.JObject?
  }
}
