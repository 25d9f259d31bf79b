/** JSON values as the Python code sees them after parsing. */
module JsonValues {

  datatype Json =
    | Null
    | Bool(b: bool)
    | Number(n: real)
    | Str(s: string)
    | List(items: seq<Json>)
    | Dict(entries: map<string, Json>)

  /** `entries.get(key)` */
  function Get(entries: map<string, Json>, key: string): Json {
    if key in entries then entries[key] else Null
  }

  /** Python's truth value. */
  predicate Truthy(j: Json) {
    match j
    case Null => false
    case Bool(b) => b
    case Number(n) => n != 0.0
    case Str(s) => s != ""
    case List(items) => items != []
    case Dict(entries) => entries != map[]
  }
}
