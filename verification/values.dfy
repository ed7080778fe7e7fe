/**
 * Values the pipeline handles: a decoded JSON document (`Json`, objects kept as ordered
 * entry lists because Python dicts keep insertion order) and the values of a normalised
 * event record (`Value`), which are JSON values except for the parsed timestamp.
 */
module Values {
  import opened Wrappers
  import opened Dicts
  import Text

  datatype Json =
    | JNull
    | JBool(b: bool)
    | JInt(i: int)
    | JFloat(f: real)
    | JStr(s: string)
    | JArr(items: seq<Json>)
    | JObj(members: Dict<Json>)

  /** A parsed `datetime` is kept as its instant, in microseconds on one timeline. */
  datatype Value = VJson(j: Json) | VTime(micros: int)

  /** Python's truth value of a decoded JSON value. */
  predicate Truthy(j: Json)
  {
    match j
    case JNull => false
    case JBool(b) => b
    case JInt(i) => i != 0
    case JFloat(f) => f != 0.0
    case JStr(s) => s != []
    case JArr(items) => items != []
    case JObj(members) => members != []
  }

  /** Python's truth value of an event entry; a `datetime` is always true. */
  predicate ValueTruthy(v: Value)
  {
    match v
    case VJson(j) => Truthy(j)
    case VTime(_) => true
  }

  const None_: Value := VJson(JNull)

  /** `d.get(k)` on a decoded object: a missing key reads as `None`. */
  function GetOrNull(m: Dict<Json>, k: string): Json
  {
    match Get(m, k)
    case Some(v) => v
    case None => JNull
  }

  /**
   * Python's `key in container` with a string key: key membership for a dict,
   * substring for a string, element equality for a list; any other container raises
   * `TypeError`, shown as `None`.
   */
  function PyIn(key: string, container: Json): (r: Option<bool>)
    ensures r.Some? <==> container.JObj? || container.JStr? || container.JArr?
  {
    match container
    case JObj(members) => Some(HasKey(members, key))
    case JStr(s) => Some(Text.Contains(s, key))
    case JArr(items) => Some(JStr(key) in items)
    case _ => None
  }
}
