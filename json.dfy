/** Decoded JSON values as Python's `json.loads` produces them, and the few
    pieces of Python semantics on them that the salvage parser and the slide
    normaliser rely on: truth values, the `in` operator and its TypeError. */
module Json {
  import opened Wrappers
  import opened Text

  /** A decoded JSON document. Numbers are kept as integers: the code only
      ever asks whether a number is truthy. Objects are maps, so the order in
      which a Python dict would list its keys is not modelled. */
  datatype JsonValue =
    | JNull
    | JBool(b: bool)
    | JNumber(n: int)
    | JString(s: string)
    | JArray(items: seq<JsonValue>)
    | JObject(fields: map<string, JsonValue>)

  /** Python's truth value of a decoded value (`if x:`, `x and ...`). */
  predicate Truthy(v: JsonValue) {
    match v
    case JNull => false
    case JBool(b) => b
    case JNumber(n) => n != 0
    case JString(s) => s != ""
    case JArray(xs) => xs != []
    case JObject(m) => m != map[]
  }

  /** Python's `key in v` for a string `key`: a dict tests its keys, a list
      its elements, a str its substrings; numbers, booleans and None raise
      TypeError, written here as None. */
  function PyIn(key: string, v: JsonValue): Option<bool> {
    match v
    case JObject(m) => Some(key in m)
    case JArray(xs) => Some(JString(key) in xs)
    case JString(s) => Some(Contains(s, key))
    case _ => None
  }

  /** `key in v` evaluates to True (and does not raise). */
  predicate HasKey(v: JsonValue, key: string) {
    PyIn(key, v) == Some(true)
  }
}
