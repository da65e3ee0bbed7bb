/** The values a response body can decode to, and the few JavaScript
    operations the pages apply to them: truthiness, property lookup, `||`
    and `??`. */
module JsonValue {
  import opened Optional

  /** A decoded JSON value. Numbers are exact reals (JSON has no NaN and
      no infinities); an object is a map because `JSON.parse` keeps the last
      of repeated keys. */
  datatype Json =
    | JNull
    | JBool(b: bool)
    | JNumber(n: real)
    | JString(s: string)
    | JArray(items: seq<Json>)
    | JObject(fields: map<string, Json>)

  /** JavaScript truthiness: `null`, `false`, `0` and `""` are falsy;
      every other value, arrays and objects included, is truthy. */
  predicate Truthy(j: Json) {
    match j
    case JNull => false
    case JBool(b) => b
    case JNumber(n) => n != 0.0
    case JString(s) => s != ""
    case _ => true
  }

  /** `typeof j === "object" && j !== null`: objects and arrays. */
  predicate IsObjectLike(j: Json) {
    j.JObject? || j.JArray?
  }

  /** `j.key`: the own field of an object; `undefined` (None) for a
      missing field and for every other kind of value. The keys the pages
      read are not names of built-in properties. */
  function Get(j: Json, key: string): Option<Json> {
    if j.JObject? && key in j.fields then Some(j.fields[key]) else None
  }

  /** `v || fallback` for a field that may be undefined. */
  function OrElse(v: Option<Json>, fallback: Json): Json {
    if v.Some? && Truthy(v.value) then v.value else fallback
  }

  /** `v ?? fallback`: only `undefined` and `null` fall back. */
  function Coalesce(v: Option<Json>, fallback: Json): Json {
    if v.Some? && v.value != JNull then v.value else fallback
  }
}
