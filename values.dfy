/**
 * Values shared by every handler: optional columns, the result kinds a handler answers
 * with, JavaScript truthiness of the column values the handlers test, and a stand-in for
 * `parseFloat`.
 */
module Values {

  /** A column or body field that may be null / undefined. */
  datatype Option<+T> = None | Some(value: T) {
    /** `x ?? default` / `x || default` for a field whose present values are all truthy. */
    function GetOr(default: T): T {
      match this
      case Some(v) => v
      case None => default
    }
  }

  /**
   * The non-success answers of a handler: the HTTP status kind and the message it sends.
   * A 500 is an exception caught by the handler's `catch` block.
   */
  datatype Failure =
    | BadRequest(message: string)     // 400
    | Unauthorized(message: string)   // 401
    | Forbidden(message: string)      // 403
    | NotFound(message: string)       // 404
    | ServerError(message: string)    // 500

  /** A handler's answer: a success payload, or one of the failure kinds above. */
  datatype Result<+T> = Ok(value: T) | Err(failure: Failure)

  /** JavaScript truthiness of an optional string: null, undefined and '' are falsy. */
  predicate Truthy(s: Option<string>) {
    s.Some? && s.value != ""
  }

  /** `s || null` on an optional string column. */
  function OrNull(s: Option<string>): (r: Option<string>)
    ensures r.Some? <==> Truthy(s)
    ensures r.Some? ==> r == s
  {
    if Truthy(s) then s else None
  }

  /** `n || 0` on an optional integer column (0 is falsy and maps to itself). */
  function OrZero(n: Option<int>): (r: int)
    ensures n.None? ==> r == 0
    ensures n.Some? ==> r == n.value
  {
    n.GetOr(0)
  }

  /**
   * A dynamically typed request-body field or column value, for the places where the
   * handlers distinguish null, undefined, strings, numbers and booleans.
   */
  datatype FieldValue =
    | Undefined
    | Null
    | Text(text: string)
    | Number(num: real)
    | Flag(flag: bool)

  /** JavaScript truthiness of a dynamically typed value. */
  predicate TruthyValue(v: FieldValue) {
    match v
    case Undefined => false
    case Null => false
    case Text(s) => s != ""
    case Number(x) => x != 0.0
    case Flag(b) => b
  }

  predicate IsDigit(c: char) {
    '0' <= c <= '9'
  }

  /** The value of a string of decimal digits; None when it is empty or holds another character. */
  function DigitsValue(s: string): (r: Option<nat>)
    ensures r.Some? <==> |s| > 0 && forall i :: 0 <= i < |s| ==> IsDigit(s[i])
  {
    if |s| == 0 then None
    else if !IsDigit(s[|s| - 1]) then None
    else if |s| == 1 then Some((s[0] as int - '0' as int) as nat)
    else
      match DigitsValue(s[..|s| - 1])
      case None => None
      case Some(v) => Some(10 * v + (s[|s| - 1] as int - '0' as int))
  }

  /**
   * `parseFloat(v)`, restricted to what the model reads: a number is itself, a string is
   * an optionally negated run of decimal digits, and everything else (null, undefined,
   * booleans, any other string) is NaN, here None.
   */
  function ParseFloat(v: FieldValue): (r: Option<real>)
    ensures v.Number? ==> r == Some(v.num)
    ensures v.Undefined? || v.Null? || v.Flag? ==> r.None?
    ensures v.Text? && v.text == "" ==> r.None?
    ensures v.Text? && DigitsValue(v.text).Some? ==> r == Some(DigitsValue(v.text).value as real)
    ensures v.Text? && |v.text| > 0 && v.text[0] == '-' ==>
              match DigitsValue(v.text[1..])
              case Some(d) => r == Some(-(d as real))
              case None => r.None?
    ensures v.Text? && (|v.text| == 0 || v.text[0] != '-') && DigitsValue(v.text).None? ==> r.None?
    ensures r.Some? && !v.Number? ==> v.Text? && |v.text| > 0
  {
    match v
    case Number(x) => Some(x)
    case Text(s) =>
      if |s| > 0 && s[0] == '-' then
        (match DigitsValue(s[1..])
         case Some(d) => Some(-(d as real))
         case None => None)
      else
        (match DigitsValue(s)
         case Some(d) => Some(d as real)
         case None => None)
    case _ => None
  }
}
