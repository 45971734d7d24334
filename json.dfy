/**
 * JSON values as `json.loads` hands them to the hook. Parsing itself is not
 * modelled: a document that could not be read or parsed is `None` at the
 * call sites, a parsed one is `Some` of one of these values.
 */
module Json {
  import opened Wrappers

  datatype Json =
    | JNull
    | JBool(b: bool)
    | JNum(num: real)
    | JStr(str: string)
    | JArr(elems: seq<Json>)
    | JObj(fields: map<string, Json>)

  /** `dict.get(key)`: the value stored under `key`, if there is one. */
  function Get(fields: map<string, Json>, key: string): Option<Json> {
    if key in fields then Some(fields[key]) else None
  }
}
