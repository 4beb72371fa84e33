/** The JavaScript values a request body carries after JSON parsing, with the
    few operators the controllers and services apply to them: truthiness,
    strict equality, `typeof`, `Array.isArray` and property reads. A missing
    property reads as `Undefined`. NaN and the infinities are not modelled. */
module Json {

  datatype Value =
    | Undefined
    | Null
    | Bool(b: bool)
    | Num(n: real)
    | Str(s: string)
    | Arr(items: seq<Value>)
    | Obj(fields: map<string, Value>)

  /** `!!v` */
  predicate Truthy(v: Value) {
    match v
    case Undefined => false
    case Null => false
    case Bool(b) => b
    case Num(n) => n != 0.0
    case Str(s) => s != ""
    case Arr(_) => true
    case Obj(_) => true
  }

  /** `v === null || v === undefined`: reading a property of v throws a TypeError. */
  predicate IsNullish(v: Value) { v.Undefined? || v.Null? }

  /** `typeof v === "object"` (true of null as well). */
  predicate IsObjectType(v: Value) { v.Null? || v.Arr? || v.Obj? }

  /** `v[key]` on a value that is not null or undefined. Arrays, strings,
      numbers and booleans have none of the property names the source reads. */
  function Get(v: Value, key: string): (r: Value)
    requires !IsNullish(v)
    ensures !v.Obj? ==> r == Undefined
    ensures v.Obj? && key !in v.fields ==> r == Undefined
  {
    match v
    case Obj(m) => if key in m then m[key] else Undefined
    case _ => Undefined
  }

  /** `a === b`. Primitive values compare by value. Every array or object in a
      parsed request body is a distinct object, so two of them never compare
      equal. */
  predicate StrictEquals(a: Value, b: Value) {
    match (a, b)
    case (Undefined, Undefined) => true
    case (Null, Null) => true
    case (Bool(x), Bool(y)) => x == y
    case (Num(x), Num(y)) => x == y
    case (Str(x), Str(y)) => x == y
    case _ => false
  }

  /** The name V8 prints for a nullish value in "Cannot read properties of ...". */
  function NullishName(v: Value): string
    requires IsNullish(v)
  {
    if v.Null? then "null" else "undefined"
  }

  /** The message of the TypeError thrown by reading `key` of a nullish value. */
  function CannotRead(v: Value, key: string): string
    requires IsNullish(v)
  {
    "Cannot read properties of " + NullishName(v) + " (reading '" + key + "')"
  }

  /** `{ isValid: true }` or `{ isValid: false, error }`, the result shape of
      every geometry validator of the source. */
  datatype Verdict = Valid | Invalid(error: string)
}
