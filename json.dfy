/**
 * The decoded JSON values a recipe file can hold, and the few Python
 * operations the validator applies to them: `dict.get`, truthiness and
 * hashability.
 */
module Json {

  /** A decoded JSON value. Numbers are kept as exact rationals. */
  datatype Json =
    | Null
    | Bool(b: bool)
    | Num(n: real)
    | Str(s: string)
    | Arr(items: seq<Json>)
    | Obj(fields: map<string, Json>)

  /** The outcome of decoding a file's text: a value, or the decoder's complaint. */
  datatype ParseResult = ParseOk(value: Json) | ParseError(message: string)

  /** `fields.get(key)`: the value stored under `key`, or null when there is none. */
  function Get(fields: map<string, Json>, key: string): Json
  {
    if key in fields then fields[key] else Null
  }

  /** Python truthiness of a decoded value (`bool(v)`). */
  predicate Truthy(v: Json)
  {
    match v
    case Null => false
    case Bool(b) => b
    case Num(n) => n != 0.0
    case Str(s) => s != ""
    case Arr(items) => items != []
    case Obj(fields) => fields != map[]
  }

  /** Values that may be looked up in a Python set: lists and dicts may not. */
  predicate Hashable(v: Json)
  {
    !v.Arr? && !v.Obj?
  }
}
