/** The JSON values the pipeline reads back from its JSON and JSONL files, with
    the Python notions the loaders test them by: truthiness and hashability. */
module Json {

  /** A decoded JSON value (floats are not used by the pipeline and are left out). */
  datatype Json =
    | JNull
    | JBool(b: bool)
    | JInt(i: int)
    | JStr(s: string)
    | JArray(items: seq<Json>)
    | JObject(fields: map<string, Json>)

  /** Python truthiness of the decoded value (`if val:`). */
  predicate Truthy(v: Json) {
    match v
    case JNull => false
    case JBool(b) => b
    case JInt(i) => i != 0
    case JStr(s) => |s| > 0
    case JArray(items) => |items| > 0
    case JObject(fields) => |fields| > 0
  }

  /** Whether the decoded value can be a member of a Python `set` (lists and dicts cannot). */
  predicate Hashable(v: Json) {
    !v.JArray? && !v.JObject?
  }

  /** `d.get(k)`: the value under `k`, or `None` (JSON null) when `k` is absent. */
  function Get(fields: map<string, Json>, k: string): Json {
    if k in fields then fields[k] else JNull
  }

  /** One line of a JSONL file as the loaders see it: blank after `strip()`,
      rejected by `json.loads`, or decoded. */
  datatype Line = Blank | Malformed | Parsed(value: Json)
}
