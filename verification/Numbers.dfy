/** JavaScript numbers without rounding: finite arithmetic is exact, infinities and NaN behave as IEEE 754 says. */
module Numbers {

  datatype Num = NaN | PosInf | NegInf | Finite(value: real)

  function Add(a: Num, b: Num): Num {
    match (a, b)
    case (Finite(x), Finite(y)) => Finite(x + y)
    case (NaN, _) => NaN
    case (_, NaN) => NaN
    case (PosInf, NegInf) => NaN
    case (NegInf, PosInf) => NaN
    case (PosInf, _) => PosInf
    case (_, PosInf) => PosInf
    case (_, _) => NegInf
  }

  /** `>`: false whenever an operand is NaN. */
  predicate Greater(a: Num, b: Num) {
    match (a, b)
    case (Finite(x), Finite(y)) => x > y
    case (PosInf, Finite(_)) => true
    case (PosInf, NegInf) => true
    case (Finite(_), NegInf) => true
    case _ => false
  }
}
