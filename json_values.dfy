/** Values as JSON.parse produces them, and how JavaScript reads them. */
module JsonValues {
  import opened Outcomes

  datatype Json =
    | JNull
    | JBool(b: bool)
    | JNumber(n: real)
    | JString(s: string)
    | JArray(items: seq<Json>)
    | JObject(fields: map<string, Json>)

  /** JavaScript truthiness of a parsed value: null, false, 0 and "" are falsy. */
  predicate Truthy(j: Json) {
    match j
    case JNull => false
    case JBool(b) => b
    case JNumber(n) => n != 0.0
    case JString(s) => s != ""
    case _ => true
  }

  /** `value.key` on a parsed value other than null: `None` is `undefined`. */
  function Property(j: Json, key: string): Option<Json> {
    if j.JObject? && key in j.fields then Some(j.fields[key]) else None
  }

  /** `value?.key`: `undefined` and `null` give `undefined`. */
  function Chain(o: Option<Json>, key: string): Option<Json> {
    if o.None? || o.value.JNull? then None else Property(o.value, key)
  }
}
