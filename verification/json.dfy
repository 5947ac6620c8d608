/** Parsed JSON values, as produced by `json.loads` / `ndjson.loads`. */
module Json {

  /** A JSON value. Floats are kept as an opaque bit pattern: the program only
      ever asks which kind a value is, never does arithmetic on it. Objects keep
      their members in document order. */
  datatype Value =
    | JNull
    | JBool(b: bool)
    | JInt(i: int)
    | JFloat(bits: bv64)
    | JString(s: string)
    | JArray(items: seq<Value>)
    | JObject(members: seq<(string, Value)>)
}
