/**
 * The Python library calls the pipeline makes, as parameters: nothing here is modelled
 * beyond its signature, and every operation that needs one of them takes an `Oracles`
 * value. The one property of `str` some lemmas assume is stated by `StrKeepsStrings`.
 */
module Library {
  import opened Wrappers
  import opened Values

  datatype Oracles = Oracles(
    /** `json.loads(line)`: the decoded document, or the text of the exception. */
    loads: string -> Result<Json, string>,
    /** `json.dumps(obj, ensure_ascii=False)`. */
    dumps: Json -> string,
    /** `datetime.fromisoformat(s)`: the instant in microseconds, or `None` when it raises. */
    fromIsoFormat: string -> Option<int>,
    /** `ipaddress.ip_address(v)` returns without raising. */
    isIpAddress: Json -> bool,
    /** Python's `str(v)`. */
    str: Value -> string)

  /** Python's `str(s)` of a string is the string itself. */
  ghost predicate StrKeepsStrings(o: Oracles)
  {
    forall s :: o.str(VJson(JStr(s))) == s
  }
}
