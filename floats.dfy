/**
 * Cells of pandas float columns: a finite real, one of the two infinities, or
 * NaN, which is also pandas' marker for a missing number. Arithmetic follows
 * IEEE 754 as numpy applies it, with reals in place of rounded binary values
 * and without signed zeros.
 */
module Floats {
  datatype Value = Num(x: real) | PosInf | NegInf | NaN

  /** Division as numpy performs it element-wise: a non-zero over zero is an infinity, zero over zero is NaN. */
  function Divide(a: Value, b: Value): Value
  {
    match (a, b)
    case (NaN, _) => NaN
    case (_, NaN) => NaN
    case (Num(x), Num(y)) =>
      if y != 0.0 then Num(x / y) else if x > 0.0 then PosInf else if x < 0.0 then NegInf else NaN
    case (Num(_), _) => Num(0.0)
    case (_, Num(y)) => if a.PosInf? == (y >= 0.0) then PosInf else NegInf
    case (_, _) => NaN
  }

  /** Dividing by one changes nothing, whatever the numerator. */
  lemma DivideByOne(a: Value)
    ensures Divide(a, Num(1.0)) == a
  {
  }

  /**
   * The quotient is finite exactly when the numerator is finite and the
   * denominator is a non-zero number or an infinity; a finite quotient of
   * finite operands times the denominator gives back the numerator.
   */
  lemma DivideFinite(a: Value, b: Value)
    ensures Divide(a, b).Num? <==> a.Num? && (b.PosInf? || b.NegInf? || (b.Num? && b.x != 0.0))
    ensures a.Num? && b.Num? && Divide(a, b).Num? ==> Divide(a, b).x * b.x == a.x
  {
  }

  /** Addition; infinities of opposite sign cancel to NaN. */
  function Add(a: Value, b: Value): Value
  {
    match (a, b)
    case (NaN, _) => NaN
    case (_, NaN) => NaN
    case (Num(x), Num(y)) => Num(x + y)
    case (Num(_), _) => b
    case (_, Num(_)) => a
    case (_, _) => if a == b then a else NaN
  }

  /** The position of a non-NaN value in the extended real line. */
  predicate Below(a: Value, b: Value)
  {
    match (a, b)
    case (Num(x), Num(y)) => x < y
    case (NegInf, Num(_)) => true
    case (NegInf, PosInf) => true
    case (Num(_), PosInf) => true
    case (_, _) => false
  }

  /** The comparison `a > b`: false whenever either side is NaN. */
  predicate GreaterThan(a: Value, b: Value)
  {
    Below(b, a)
  }

  /** `Below` is a strict total order on the non-NaN values. */
  lemma BelowOrder(a: Value, b: Value, c: Value)
    ensures !Below(a, a)
    ensures Below(a, b) && Below(b, c) ==> Below(a, c)
    ensures a != NaN && b != NaN && a != b ==> Below(a, b) || Below(b, a)
    ensures Below(a, b) ==> a != NaN && b != NaN && !Below(b, a)
  {
  }

  /** `a > b` never holds when either side is NaN, and between two numbers it is the comparison of reals. */
  lemma GreaterThanSpec(a: Value, b: Value)
    ensures (a == NaN || b == NaN) ==> !GreaterThan(a, b)
    ensures a.Num? && b.Num? ==> (GreaterThan(a, b) <==> a.x > b.x)
    ensures GreaterThan(a, b) ==> !GreaterThan(b, a) && a != b
  {
  }
}
