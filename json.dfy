/**
 * The JSON values that flow through the backend: cells of the analytics
 * tables, fields of the geolocation replies, and the row dictionaries
 * returned to the frontend.
 */
module Json {

  /** A JSON scalar. Python's float is `Float`, its int is `Int`. */
  datatype Value = Null | Bool(b: bool) | Int(i: int) | Float(x: real) | Str(s: string)

  /** A Python dict with string keys, as produced and consumed by the handlers. */
  type Row = map<string, Value>

  /** Python truthiness: None, False, 0, 0.0 and "" are false, everything else is true. */
  predicate Truthy(v: Value) {
    match v
    case Null => false
    case Bool(b) => b
    case Int(i) => i != 0
    case Float(x) => x != 0.0
    case Str(s) => s != ""
  }

  /** `row.get(key, default)`. */
  function Get(row: Row, key: string, default: Value): Value {
    if key in row then row[key] else default
  }
}
