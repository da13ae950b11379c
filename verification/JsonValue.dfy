/** Parsed JSON as Python sees it; the text itself is not modelled. */
module JsonValue {
  datatype Json =
    | Null
    | Bool(flag: bool)
    | Int(number: int)
    | Float(value: real)
    | Text(text: string)
    | List(items: seq<Json>)
    | Object(fields: map<string, Json>)

  /** `set(value) == names` for an object. */
  predicate HasExactly(v: Json, names: set<string>) {
    v.Object? && v.fields.Keys == names
  }

  function Texts(xs: seq<string>): seq<Json> {
    seq(|xs|, i requires 0 <= i < |xs| => Text(xs[i]))
  }
}
