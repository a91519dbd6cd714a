/**
 * Parsed JSON request bodies and the JavaScript notion of truthiness that
 * the validators test with `!value`.
 */
module Json {

  /**
   * A JSON value as the validators see it; `Undefined` is a key the body
   * does not have, `Other` an array or an object (both always truthy).
   */
  datatype Value = Undefined | Null | Str(s: string) | Number(x: real) | Bool(b: bool) | Other

  /** A request body: an object from keys to values. */
  type Body = map<string, Value>

  /** `body.key`: `undefined` when the key is absent. */
  function Field(body: Body, key: string): (v: Value)
    ensures key !in body ==> v == Undefined
    ensures key in body ==> v == body[key]
  {
    if key in body then body[key] else Undefined
  }

  /** JavaScript truthiness: `undefined`, `null`, `""`, `0` and `false` are falsy. */
  predicate Truthy(v: Value) {
    match v
    case Undefined => false
    case Null => false
    case Str(s) => s != ""
    case Number(x) => x != 0.0
    case Bool(b) => b
    case Other => true
  }
}
