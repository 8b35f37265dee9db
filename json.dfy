/**
 * The JSON-like values a raw plan is made of before validation: what
 * Python's `json` module would produce (None, bool, int, str, list, dict).
 * Floating-point numbers are not part of this model.
 */
module Json {
  datatype Value =
    | Null
    | Bool(b: bool)
    | Int(i: int)
    | Str(s: string)
    | List(items: seq<Value>)
    | Object(fields: map<string, Value>)
}
