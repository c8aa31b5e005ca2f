/**
 * The fragment of JavaScript's strict equality (`===`) that the parser's
 * two guards rely on. Both guards negate a value with `!` first, which
 * always yields a boolean, and then compare that boolean against a value of
 * another type, so neither guard can ever hold.
 */
module Js {

  datatype Value = Undefined | Null | Boolean(b: bool) | Number(n: int)

  /** `a === b`: values of different types are never strictly equal. */
  predicate StrictEquals(a: Value, b: Value) {
    match (a, b)
    case (Undefined, Undefined) => true
    case (Null, Null) => true
    case (Boolean(x), Boolean(y)) => x == y
    case (Number(x), Number(y)) => x == y
    case _ => false
  }

  /** `!v` for a value whose truthiness is `truthy`. */
  function Not(truthy: bool): (r: Value)
    ensures r.Boolean? && r.b == !truthy
  {
    Boolean(!truthy)
  }
}
