/** The values `json.loads` produces, with Python truthiness and `dict.get`. */
module JsonModel {
  import opened Types

  /** A parsed JSON value: numbers are integers here (floats are not modelled). */
  datatype Json =
    | JNull
    | JBool(b: bool)
    | JNum(n: int)
    | JStr(s: string)
    | JArr(items: seq<Json>)
    | JObj(fields: map<string, Json>)

  /** A Python `dict` with string keys. */
  type Dict = map<string, Json>

  /** Python truthiness of a JSON value (`None`, `False`, `0`, `""`, `[]`
      and `{}` are falsy). */
  predicate TruthyJson(j: Json)
  {
    match j
    case JNull => false
    case JBool(b) => b
    case JNum(n) => n != 0
    case JStr(s) => |s| > 0
    case JArr(a) => |a| > 0
    case JObj(m) => |m| > 0
  }

  /** `d.get(k)`: the value under `k`, or `None` when the key is missing. */
  function Get(d: Dict, k: string): Option<Json>
  {
    if k in d then Some(d[k]) else None
  }

  /** The value `d.get(k)` is truthy (a missing key reads as `None`). */
  predicate TruthyAt(d: Dict, k: string)
  {
    k in d && TruthyJson(d[k])
  }
}
