/**
 * Decoded JSON records as the shipping pipeline sees them: a log record is an
 * object, a map from field name to value, produced by the logger's JSON encoder.
 */
module Json {

  newtype byte = x: int | 0 <= x < 256

  /** A JSON value. Numbers are integers here: the only number the pipeline reads is
      the timestamp, taken in Unix nanoseconds. */
  datatype Value =
    | Null
    | Bool(b: bool)
    | Num(n: int)
    | Str(s: string)
    | List(elems: seq<Value>)
    | Object(members: map<string, Value>)

  /** One decoded record: field name to value. */
  type Fields = map<string, Value>
}
