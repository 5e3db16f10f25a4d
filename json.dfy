/**
 * JavaScript values as the handlers see them after `JSON.parse`, and the few
 * language operations they apply to them: property reads, `typeof`,
 * truthiness, `||`, `===` and `Number(...)`.
 *
 * Numbers are exact reals: JSON text never yields NaN, and IEEE rounding and
 * infinities are not modelled. `Number(...)` on strings, arrays and objects
 * goes through string parsing and `ToPrimitive`; those conversions are
 * abstract functions supplied by the caller, and the second may throw.
 */
module Json {
  import opened Wrappers

  datatype Value =
    | Undefined
    | Null
    | Bool(b: bool)
    | Num(n: real)
    | Str(s: string)
    | Arr(items: seq<Value>)
    | Obj(fields: map<string, Value>)

  /** A document item (a DynamoDB row or a JSON object body). */
  type Item = map<string, Value>

  /** Outcome of `JSON.parse` on a request or message body. */
  datatype Parsed = Json(value: Value) | Malformed(message: string)

  /** True when reading any property of `v` throws a TypeError. */
  predicate ReadThrows(v: Value) {
    v.Null? || v.Undefined?
  }

  /**
   * A read of one of the data properties the handlers use (`id`, `title`,
   * `description`, `price`, `count`, `product_id`) on a value whose property
   * reads do not throw: only a plain object can have them as own properties,
   * so on arrays, strings, numbers and booleans they read as `undefined`.
   * Built-in and inherited properties (`length`, `toString`) are not
   * modelled, as no handler reads them through this function.
   */
  function Field(v: Value, name: string): (r: Value)
    requires !ReadThrows(v)
    ensures !v.Obj? ==> r == Undefined
    ensures v.Obj? && name !in v.fields ==> r == Undefined
  {
    if v.Obj? && name in v.fields then v.fields[name] else Undefined
  }

  /** A field of a document item; a missing attribute reads as `undefined`. */
  function Attr(item: Item, name: string): Value {
    if name in item then item[name] else Undefined
  }

  /** `typeof v` */
  function TypeOf(v: Value): string {
    match v
    case Undefined => "undefined"
    case Null => "object"
    case Bool(_) => "boolean"
    case Num(_) => "number"
    case Str(_) => "string"
    case Arr(_) => "object"
    case Obj(_) => "object"
  }

  /** JavaScript truthiness (`!!v`). */
  predicate Truthy(v: Value) {
    match v
    case Undefined => false
    case Null => false
    case Bool(b) => b
    case Num(n) => n != 0.0
    case Str(s) => s != ""
    case Arr(_) => true
    case Obj(_) => true
  }

  /** `a || b` */
  function Or(a: Value, b: Value): (r: Value)
    ensures Truthy(a) ==> r == a
    ensures !Truthy(a) ==> r == b
  {
    if Truthy(a) then a else b
  }

  /**
   * `a === b`. Arrays and objects that come out of separate deserialisations
   * are distinct references, so they are never strictly equal.
   */
  predicate StrictEquals(a: Value, b: Value) {
    match (a, b)
    case (Undefined, Undefined) => true
    case (Null, Null) => true
    case (Bool(x), Bool(y)) => x == y
    case (Num(x), Num(y)) => x == y
    case (Str(x), Str(y)) => x == y
    case _ => false
  }

  /**
   * What `Number(v)` gives: a number, NaN, or the TypeError thrown when
   * `ToPrimitive` of an array or object finds neither a usable `valueOf`
   * nor a usable `toString`.
   */
  datatype Numeric = Number(n: real) | NaN | Throws(message: string)

  /**
   * The conversions left abstract: parsing a numeric string (absent for
   * NaN), and `ToPrimitive` followed by `Number` on arrays and objects.
   */
  datatype Coercion = Coercion(ofString: string -> Option<real>, ofObject: Value -> Numeric)

  /** `Number(v)`; only an array or an object can make it throw. */
  function ToNumber(v: Value, coerce: Coercion): (r: Numeric)
    ensures v.Num? ==> r == Number(v.n)
    ensures v.Undefined? ==> r.NaN?
    ensures v.Null? ==> r == Number(0.0)
    ensures v.Str? ==> (r.NaN? <==> coerce.ofString(v.s).None?)
    ensures r.Throws? ==> v.Arr? || v.Obj?
  {
    match v
    case Undefined => NaN
    case Null => Number(0.0)
    case Bool(b) => Number(if b then 1.0 else 0.0)
    case Num(n) => Number(n)
    case Str(s) => (match coerce.ofString(s) case None => NaN case Some(n) => Number(n))
    case _ => coerce.ofObject(v)
  }
}
