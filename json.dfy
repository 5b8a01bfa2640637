/** The decoded form of a JSON document, as `json.loads` hands it to the
    pipeline (numbers are integers here; floating point is not modelled). */
module Json {
  import opened Wrappers

  datatype Json =
    | JNull
    | JBool(b: bool)
    | JNum(n: int)
    | JStr(s: string)
    | JArr(items: seq<Json>)
    | JObj(fields: map<string, Json>)

  /** Python truthiness of a decoded value (`bool(v)`). */
  predicate Truthy(v: Json) {
    match v
    case JNull => false
    case JBool(b) => b
    case JNum(n) => n != 0
    case JStr(s) => s != []
    case JArr(items) => items != []
    case JObj(fields) => fields != map[]
  }

  /** `d.get(key, default)` on a decoded object. */
  function Get(fields: map<string, Json>, key: string, default: Json): Json {
    if key in fields then fields[key] else default
  }

  /** `(v or "")` for a value the source expects to be a string: the string
      itself, "" for a falsy value, and None for a truthy non-string (whose
      `.strip()` or `write` would raise). */
  function StringOrEmpty(v: Json): (r: Option<string>)
    ensures !Truthy(v) ==> r == Some("")
    ensures v.JStr? ==> r == Some(v.s)
    ensures r.None? <==> Truthy(v) && !v.JStr?
  {
    if !Truthy(v) then Some("") else if v.JStr? then Some(v.s) else None
  }
}
