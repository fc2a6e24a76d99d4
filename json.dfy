/**
 * The JavaScript values a parsed JSON request body can hold, with the two
 * JavaScript notions the route handlers test them by: truthiness and
 * property access.
 */
module Json {

  /** `Undefined` stands for a missing property; numbers are JavaScript doubles, read as reals. */
  datatype Value =
    | Undefined
    | Null
    | Bool(b: bool)
    | Num(n: real)
    | Str(s: string)
    | Arr(items: seq<Value>)
    | Obj(fields: map<string, Value>)

  /** `null` and `undefined`: reading a property of either throws a TypeError. */
  predicate IsNullish(v: Value) {
    v.Undefined? || v.Null?
  }

  /** JavaScript truthiness (`!!v`). A JSON value is never NaN. */
  predicate Truthy(v: Value) {
    match v
    case Undefined => false
    case Null => false
    case Bool(b) => b
    case Num(n) => n != 0.0
    case Str(s) => s != []
    case Arr(_) => true
    case Obj(_) => true
  }

  /**
   * `v.key` for a value that is not nullish, for the property names of the
   * quiz records, none of which a built-in prototype defines.
   */
  function Member(v: Value, key: string): (r: Value)
    requires !IsNullish(v)
    ensures v.Obj? && key in v.fields ==> r == v.fields[key]
    ensures !(v.Obj? && key in v.fields) ==> r == Undefined
  {
    if v.Obj? && key in v.fields then v.fields[key] else Undefined
  }
}
