/**
 * Dynamically typed JavaScript values, as they appear in the fields of the
 * records the list utilities and form validators inspect.
 */
module JsValue {
  import opened JsText

  /** A field value; numbers are integers here. */
  datatype Value = Undefined | Null | Bool(b: bool) | Num(n: int) | Str(s: string) | Object

  predicate Nullish(v: Value) {
    v.Undefined? || v.Null?
  }

  /** JavaScript truthiness: `false`, `0`, `''`, `null` and `undefined` are falsy. */
  predicate Truthy(v: Value) {
    match v
    case Undefined => false
    case Null => false
    case Bool(b) => b
    case Num(n) => n != 0
    case Str(s) => s != ""
    case Object => true
  }

  /** `value.toString()`, defined for every non-nullish value. */
  function ToString(v: Value): string
    requires !Nullish(v)
  {
    match v
    case Bool(b) => if b then "true" else "false"
    case Num(n) => IntToString(n)
    case Str(s) => s
    case Object => "[object Object]"
  }

  /** A record with string keys; a missing key reads as `undefined`. */
  type Record = map<string, Value>

  function Get(r: Record, field: string): Value {
    if field in r then r[field] else Undefined
  }

  /** What a `catch` clause receives: an `Error` instance or any other thrown value. */
  datatype Thrown = ErrorObject(message: string) | NonError(value: Value)
}
