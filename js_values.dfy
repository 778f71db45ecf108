/** The JavaScript values the modelled code inspects, and JavaScript's notion
    of truthiness, which `if (x)` and `x || y` use. */
module JsValues {

  /** A JavaScript value. Numbers are reals with a separate `NaN`; objects
      are their own enumerable properties. */
  datatype JsValue =
    | Undefined
    | Null
    | Bool(b: bool)
    | Num(n: real)
    | NaN
    | Str(s: string)
    | Obj(props: map<string, JsValue>)

  /** The values `if` treats as true: everything except `undefined`, `null`,
      `false`, `0`, `NaN` and the empty string. */
  predicate Truthy(v: JsValue)
  {
    match v
    case Undefined => false
    case Null => false
    case Bool(b) => b
    case Num(n) => n != 0.0
    case NaN => false
    case Str(s) => s != []
    case Obj(_) => true
  }

  /** Property access `obj[name]` on an object literal: a missing property
      reads as `undefined`. */
  function Member(obj: map<string, JsValue>, name: string): JsValue
  {
    if name in obj then obj[name] else Undefined
  }
}
