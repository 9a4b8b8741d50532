/** Values shared by the packages: raw bytes and the untyped JSON tree that
    Go's `encoding/json` produces when it decodes into `interface{}`. */
module Data {

  type Byte = bv8
  type Bytes = seq<Byte>

  /** An untyped JSON document: `nil`, `bool`, a number, `string`,
      `[]interface{}` or `map[string]interface{}` in Go. Numbers are kept as
      integers: no consumer here accepts a number, so Go's `float64` is not
      modelled. */
  datatype Json =
    | JNull
    | JBool(b: bool)
    | JNumber(n: int)
    | JString(s: string)
    | JArray(items: seq<Json>)
    | JObject(fields: map<string, Json>)
}
