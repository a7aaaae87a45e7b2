/** The JSON values that the catalog is written to and read from (the text layer is left out). */
module Json {

  /** A decoded JSON document: objects are maps from key to value, arrays are sequences. */
  datatype Value =
    | Null
    | Bool(b: bool)
    | Int(i: int)
    | Str(s: string)
    | Array(items: seq<Value>)
    | Object(fields: map<string, Value>)
}
