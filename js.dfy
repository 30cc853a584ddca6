/** Dynamically typed values as the designer's JavaScript receives them. */
module Js {

  /**
   * A JavaScript value. Numbers are modelled as integers: the code paths in this model
   * only compare, floor or print them.
   */
  datatype JsValue = Undefined | Null | Bool(b: bool) | Num(n: int) | Str(s: string) | Object

  /** JavaScript truthiness: `if (v)`. */
  predicate Truthy(v: JsValue) {
    match v
    case Undefined => false
    case Null => false
    case Bool(b) => b
    case Num(n) => n != 0
    case Str(s) => s != []
    case Object => true
  }
}
