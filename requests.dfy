/**
 * What the REST views share: the reply they hand back, Python truthiness of
 * a header or query parameter, and the `float()`/`int()`/text conversions
 * they apply to decoded request values.
 */
module Requests {
  import opened Wrappers
  import opened Text
  import opened PyText
  import opened Tables

  /** A view's reply: an HTTP status and a JSON body, or an exception that escapes the view (a 500). */
  datatype Response = Response(status: nat, body: Value) | Raised(error: string)

  /** A one-key JSON object such as `{"error": "..."}`. */
  function Message(key: string, text: string): Value {
    VDict(map[key := VStr(text)])
  }

  /** `get_object_or_404`'s reply when nothing matches. */
  function NotFound(model: string): Response {
    Response(404, Message("detail", "No " + model + " matches the given query."))
  }

  /** Python truthiness of a header or query parameter that may be absent. */
  predicate Truthy(v: Option<string>) {
    v.Some? && v.value != ""
  }

  /**
   * A request value given to a text column or to a lookup on it: JSON null
   * is Python's `None`, which the database keeps as SQL NULL (a lookup on it
   * matches no row of a NOT NULL column, and storing it fails); a string is
   * kept as it is and anything else becomes Python's `str` of it.
   */
  function Column(v: Value, str: Value -> string): (c: Option<string>)
    ensures c.None? <==> v.VNull?
    ensures v.VStr? ==> c == Some(v.s)
    ensures !v.VNull? && !v.VStr? ==> c == Some(str(v))
  {
    if v.VNull? then None else if v.VStr? then Some(v.s) else Some(str(v))
  }

  /** The exception the database raises when a NOT NULL column is given `None`. */
  function NotNullFailed(column: string): string {
    "IntegrityError: NOT NULL constraint failed: " + column
  }

  /** Python's `float(v)` on a decoded request value; `None` is the exception it raises. */
  function ToFloat(v: Value): (r: Option<real>)
    ensures v.VNum? ==> r == Some(v.n)
    ensures v.VStr? ==> r == PyFloat(v.s)
    ensures v.VBool? ==> r == Some(if v.b then 1.0 else 0.0)
    ensures v.VNull? || v.VList? || v.VDict? ==> r == None
  {
    match v
    case VNum(n) => Some(n)
    case VStr(s) => PyFloat(s)
    case VBool(b) => Some(if b then 1.0 else 0.0)
    case _ => None
  }

  /** Python's `int(x)` on a float: the integer part, rounding toward zero. */
  function Truncate(x: real): (n: int)
    ensures 0.0 <= x ==> n as real <= x < n as real + 1.0
    ensures x < 0.0 ==> n as real - 1.0 < x <= n as real
  {
    if x >= 0.0 then x.Floor else -((-x).Floor)
  }

  /** Python's `int(v)`: a number is truncated toward zero, a string must be an integer literal. */
  function ToInt(v: Value): (r: Option<int>)
    ensures v.VStr? ==> r == PyInt(v.s)
    ensures v.VNum? ==> r == Some(Truncate(v.n))
    ensures v.VBool? ==> r == Some(if v.b then 1 else 0)
    ensures v.VNull? || v.VList? || v.VDict? ==> r == None
  {
    match v
    case VNum(n) => Some(Truncate(n))
    case VStr(s) => PyInt(s)
    case VBool(b) => Some(if b then 1 else 0)
    case _ => None
  }

  /**
   * `int()` and `float()` agree: whatever `int()` accepts `float()` accepts
   * too, with the same value except for a number, which `int()` truncates to
   * less than one away from it.
   */
  lemma IntAgreesWithFloat(v: Value)
    ensures ToInt(v).Some? ==> ToFloat(v).Some?
    ensures ToInt(v).Some? && !v.VNum? ==> ToFloat(v) == Some(ToInt(v).value as real)
    ensures v.VNum? ==> -1.0 < ToFloat(v).value - ToInt(v).value as real < 1.0
  {
  }
}
