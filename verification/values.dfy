/**
 * The dynamically typed values that flow through the sender: configuration
 * entries, payloads, headers and the outcome mapping are all Python objects.
 */
module Values {

  /** The Python values the sender inspects. Numbers are integers only. */
  datatype Value =
    | VNone
    | VBool(b: bool)
    | VInt(i: int)
    | VStr(s: string)
    | VList(items: seq<Value>)
    | VDict(entries: map<string, Value>)

  /** Python truthiness: `None`, `False`, `0`, and empty strings, lists and dicts are false. */
  predicate Truthy(v: Value) {
    match v
    case VNone => false
    case VBool(b) => b
    case VInt(i) => i != 0
    case VStr(s) => |s| > 0
    case VList(xs) => |xs| > 0
    case VDict(m) => |m| > 0
  }

  /** `isinstance(v, string_types)`. */
  predicate IsText(v: Value) {
    v.VStr?
  }
}
