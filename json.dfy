/** The JSON values that flow between the Python stages of the pipeline:
    what `json.load` produces and what the records hold. */
module JsonValues {

  datatype Json =
    | JNull
    | JBool(b: bool)
    | JInt(i: int)
    | JFloat(r: real)
    | JString(s: string)
    | JList(items: seq<Json>)
    | JObject(fields: map<string, Json>)

  /** A catalog record: a JSON object, field name to value. */
  type Record = map<string, Json>

  /** Python's `isinstance(v, (list, dict))`. */
  predicate IsCompound(v: Json) {
    v.JList? || v.JObject?
  }

  /** Python's `row.get(k, None)`: a missing key reads as `None`. */
  function Get(row: Record, k: string): Json {
    if k in row then row[k] else JNull
  }
}
