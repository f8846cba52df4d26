/** The serialised form of records: a JSON-like tree of nested key/value objects. */
module Json {

  datatype Value =
    | JNull
    | JInt(i: int)
    | JStr(s: string)
    | JList(items: seq<Value>)
    | JObj(fields: map<string, Value>)

  /** `to_dict(only=keys)`: keeps just the listed top-level keys of an object. */
  function Only(v: Value, keys: set<string>): (r: Value)
    ensures v.JObj? ==> r.JObj? && r.fields.Keys == v.fields.Keys * keys
    ensures v.JObj? ==> forall k | k in r.fields :: r.fields[k] == v.fields[k]
    ensures !v.JObj? ==> r == v
  {
    if v.JObj? then JObj(map k | k in v.fields && k in keys :: v.fields[k]) else v
  }

  /** Body of a "not found" response: `{"error": message}`. */
  function ErrorBody(message: string): Value
  {
    JObj(map["error" := JStr(message)])
  }

  /** Body of a rejected write: `{"errors": [message]}`. */
  function ErrorsBody(message: string): Value
  {
    JObj(map["errors" := JList([JStr(message)])])
  }
}
