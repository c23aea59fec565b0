/** The values that `json_encode` writes and the YAML configuration holds, as a tree instead of bytes. */
module Json {

  /** A PHP array with sequential keys is a `JList`; one with string keys is a `JObj`. */
  datatype Json =
    | JNull
    | JBool(b: bool)
    | JInt(i: int)
    | JStr(s: string)
    | JList(items: seq<Json>)
    | JObj(fields: map<string, Json>)
  {
    /** PHP `isset($value[$key])` for a string key: the key is present and its value is not null. */
    predicate HasSet(key: string) {
      JObj? && key in fields && fields[key] != JNull
    }

    /** PHP truthiness: null, false, 0, "", "0" and the empty array are false, everything else true. */
    predicate Truthy() {
      match this
      case JNull => false
      case JBool(b) => b
      case JInt(i) => i != 0
      case JStr(s) => s != "" && s != "0"
      case JList(items) => |items| > 0
      case JObj(fields) => fields != map[]
    }
  }

  /** The name PHP gives a value's type in a `TypeError`. */
  function TypeName(j: Json): (r: string)
    ensures r == "string" <==> j.JStr?
    ensures r == "array" <==> j.JList? || j.JObj?
  {
    match j
    case JNull => "null"
    case JBool(_) => "bool"
    case JInt(_) => "int"
    case JStr(_) => "string"
    case JList(_) => "array"
    case JObj(_) => "array"
  }
}
