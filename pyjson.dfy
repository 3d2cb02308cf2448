/**
  JSON values as the Python handlers see them after `json.loads`, with the
  few pieces of Python semantics the handlers depend on: truthiness (`not x`),
  hashability (a JSON array or object cannot be a dictionary key) and `len`.
  Numbers are integers only; floating point is not modelled.
*/
module PyJson {
  import opened Wrappers

  datatype Json =
    | JNull
    | JBool(b: bool)
    | JInt(i: int)
    | JStr(s: string)
    | JArr(items: seq<Json>)
    | JObj(fields: map<string, Json>)

  /** Python's `bool(x)`: `None`, `False`, `0`, `""`, `[]` and `{}` are false. */
  predicate Truthy(j: Json) {
    match j
    case JNull => false
    case JBool(b) => b
    case JInt(i) => i != 0
    case JStr(s) => s != ""
    case JArr(items) => items != []
    case JObj(fields) => fields != map[]
  }

  /** True when Python can use the value as a dictionary key. */
  predicate Hashable(j: Json) {
    !j.JArr? && !j.JObj?
  }

  /** Python's `len(x)`: defined for strings, lists and dicts, a `TypeError` otherwise. */
  function Len(j: Json): (n: Option<nat>)
    ensures n.Some? <==> (j.JStr? || j.JArr? || j.JObj?)
    ensures j.JStr? ==> n == Some(|j.s|)
  {
    match j
    case JStr(s) => Some(|s|)
    case JArr(items) => Some(|items|)
    case JObj(fields) => Some(|fields|)
    case _ => None
  }

  /** A request body that may be absent: `request.get_json()` returning `None`. */
  type Body = Option<map<string, Json>>

  /** `not data` for a body that is an object or `None`. */
  predicate BodyMissing(body: Body) {
    body.None? || body.value == map[]
  }

  /** `not data or not all(k in data for k in keys)`. */
  predicate LacksAny(body: Body, keys: seq<string>) {
    BodyMissing(body) || !(forall k | k in keys :: k in body.value)
  }
}
