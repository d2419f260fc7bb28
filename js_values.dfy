/**
 * JavaScript values as the object-model code sees them: a loosely typed
 * attribute value, JavaScript's notion of truthiness, and attribute records
 * keyed by name.
 */
module JsValues {

  datatype Option<T> = None | Some(value: T)

  /**
   * A JavaScript value stored in an attribute record. Numbers are integral
   * here; `Object` stands for any object or array, identified by a tag.
   */
  datatype Value =
    | Undefined
    | Null
    | Bool(b: bool)
    | Number(n: int)
    | NaN
    | Str(s: string)
    | Object(tag: nat)

  /** JavaScript truthiness: undefined, null, false, 0, NaN and '' are falsy. */
  predicate Truthy(v: Value)
  {
    match v
    case Undefined => false
    case Null => false
    case Bool(b) => b
    case Number(n) => n != 0
    case NaN => false
    case Str(s) => s != ""
    case Object(_) => true
  }

  /** An attribute record: a missing key reads as undefined. */
  type Attributes = map<string, Value>

  function Get(a: Attributes, key: string): Value
  {
    if key in a then a[key] else Undefined
  }
}
