/** The closed value type the diff engine works on: the Ruby representation of
    a parsed JSON document, with integers standing in for all numbers. */
module Json {

  /** nil, true/false, an Integer, a String, an Array, or a Hash with String keys. */
  datatype Json =
    | JNull
    | JBool(b: bool)
    | JInt(i: int)
    | JStr(s: string)
    | JArr(elems: seq<Json>)
    | JObj(fields: map<string, Json>)

  /** Ruby truthiness: every value except nil and false. */
  predicate Truthy(v: Json) {
    !(v.JNull? || v == JBool(false))
  }

  /** A slot of a Ruby Hash that may hold no entry at all. */
  datatype Option<+T> = None | Some(value: T)

  /** The outcome of a Ruby expression that either yields a value or raises
      (NoMethodError, TypeError); the engine never rescues, so Raised ends it. */
  datatype Outcome<+T> = Ok(value: T) | Raised
}
