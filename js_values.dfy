/**
 * The untyped values that arrive in request bodies and socket payloads, before
 * a schema has looked at them. JavaScript numbers are modelled as exact reals.
 */
module JsValues {

  datatype JsValue =
    | JUndefined
    | JNull
    | JBool(b: bool)
    | JNum(x: real)
    | JStr(s: string)
    | JOther            // objects and arrays: no schema here accepts them

  /** `Number.isInteger` on a finite number. */
  predicate IsInteger(x: real) {
    x == x.Floor as real
  }

  /** The JavaScript number holding the integer m. */
  function IntValue(m: int): JsValue {
    JNum(m as real)
  }

  /** JavaScript truthiness: `false`, `0`, `""`, `null` and `undefined` are falsy. */
  predicate Truthy(v: JsValue) {
    match v
    case JUndefined => false
    case JNull => false
    case JBool(b) => b
    case JNum(x) => x != 0.0
    case JStr(s) => s != ""
    case JOther => true
  }
}
