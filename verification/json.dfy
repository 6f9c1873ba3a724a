/** The Python objects that `json.loads` produces. */
module JsonValue {

  /**
   * A parsed JSON document. Numbers are integers only; objects are
   * dictionaries, so a repeated key keeps only its last value, as a
   * Python `dict` built by `json.loads` does.
   */
  datatype Json =
    | JNull
    | JBool(b: bool)
    | JNum(n: int)
    | JString(str: string)
    | JArray(items: seq<Json>)
    | JObject(fields: map<string, Json>)

  /** Python truth value of the object (`if not x:` tests its negation). */
  predicate Truthy(j: Json) {
    match j
    case JNull => false
    case JBool(b) => b
    case JNum(n) => n != 0
    case JString(s) => |s| > 0
    case JArray(items) => |items| > 0
    case JObject(fields) => |fields| > 0
  }

  /** `type(x).__name__`, as it appears in Python's error messages. */
  function TypeName(j: Json): string {
    match j
    case JNull => "NoneType"
    case JBool(_) => "bool"
    case JNum(_) => "int"
    case JString(_) => "str"
    case JArray(_) => "list"
    case JObject(_) => "dict"
  }

  /** The single-entry object `{"error": message}` used for error bodies. */
  function ErrorBody(message: string): (j: Json)
    ensures j.JObject? && j.fields.Keys == {"error"} && j.fields["error"] == JString(message)
  {
    JObject(map["error" := JString(message)])
  }
}
