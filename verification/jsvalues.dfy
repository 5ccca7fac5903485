/** JavaScript numbers and `Date` objects as the core sees them. */
module JsValues {

  /** An IEEE double reduced to what matters here: a finite value (held
      exactly), the two infinities, and NaN. */
  datatype Number = Finite(value: real) | PosInfinity | NegInfinity | NaN {

    /** Unary minus. */
    function Negate(): (r: Number)
      ensures Finite? ==> r == Finite(-value)
      ensures NaN? <==> r.NaN?
      ensures PosInfinity? <==> r.NegInfinity?
      ensures NegInfinity? <==> r.PosInfinity?
    {
      match this
      case Finite(v) => Finite(-v)
      case PosInfinity => NegInfinity
      case NegInfinity => PosInfinity
      case NaN => NaN
    }

    /** `this < c`: every comparison with NaN is false. */
    predicate LessThan(c: real) {
      match this
      case Finite(v) => v < c
      case NegInfinity => true
      case PosInfinity => false
      case NaN => false
    }

    /** `this > c`. */
    predicate GreaterThan(c: real) {
      match this
      case Finite(v) => v > c
      case PosInfinity => true
      case NegInfinity => false
      case NaN => false
    }
  }

  /** `a / b` on finite operands (signed zero is not distinguished). */
  function Divide(a: real, b: real): (r: Number)
    ensures b != 0.0 ==> r == Finite(a / b)
    ensures b == 0.0 ==> (r.NaN? <==> a == 0.0)
    ensures b == 0.0 && a > 0.0 ==> r.PosInfinity?
    ensures b == 0.0 && a < 0.0 ==> r.NegInfinity?
  {
    if b != 0.0 then Finite(a / b)
    else if a > 0.0 then PosInfinity
    else if a < 0.0 then NegInfinity
    else NaN
  }

  /** A value that may or may not be a `Date` object: anything that is not a
      `Date`, an invalid `Date` (time value NaN), or a valid one holding
      milliseconds since the epoch. */
  datatype JsDate = NotADate | InvalidDate | ValidDate(ms: int)
}
