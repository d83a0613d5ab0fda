/** Parsed JSON documents, as `JSON.parse` hands them to the decoder. */
module Json {

  import opened Wrappers

  /**
   * A JSON value. Numbers are exact reals: the double-precision rounding
   * that JavaScript applies is not modelled.
   */
  datatype Json =
    | JNull
    | JBool(b: bool)
    | JNumber(n: real)
    | JString(s: string)
    | JArray(items: seq<Json>)
    | JObject(fields: map<string, Json>)

  /** Property access `obj.name`: `undefined` (None) unless obj is an object holding that key. */
  function Field(obj: Json, name: string): Option<Json>
  {
    if obj.JObject? && name in obj.fields then Some(obj.fields[name]) else None
  }
}
