/** The extended reals: Python floats without NaN, seen as exact reals plus
    the two infinities that `float("inf")` and `float("-inf")` produce. */
module ExtReals {

  datatype ExtReal = NegInf | Fin(r: real) | PosInf

  /** Python's `<` on floats: -inf is below every finite value, +inf above. */
  predicate Lt(a: ExtReal, b: ExtReal) {
    match (a, b)
    case (NegInf, NegInf) => false
    case (NegInf, _) => true
    case (Fin(x), Fin(y)) => x < y
    case (Fin(_), PosInf) => true
    case (_, _) => false
  }

  /** Python's `<=` on floats. */
  predicate Le(a: ExtReal, b: ExtReal) {
    a == b || Lt(a, b)
  }

  lemma LtIrreflexive(a: ExtReal)
    ensures !Lt(a, a)
  {
  }

  /** The order is total: `<` fails exactly when `>=` holds. */
  lemma NotLtIsLe(a: ExtReal, b: ExtReal)
    ensures !Lt(a, b) <==> Le(b, a)
  {
  }
}
