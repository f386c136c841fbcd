/// Scores with the two infinities that the engines start their searches from
/// (`f64::NEG_INFINITY`, `f64::INFINITY`, `-Infinity`). Finite values are exact
/// reals; IEEE rounding and NaN are not modelled.
module ExtReals {
  datatype ExtReal = NegInf | Fin(v: real) | PosInf

  /// The total order of the extended reals.
  predicate Le(a: ExtReal, b: ExtReal)
  {
    match (a, b)
    case (NegInf, _) => true
    case (_, PosInf) => true
    case (Fin(x), Fin(y)) => x <= y
    case _ => false
  }

  predicate Lt(a: ExtReal, b: ExtReal)
  {
    Le(a, b) && a != b
  }

  /// `f64::max` on non-NaN operands.
  function Max(a: ExtReal, b: ExtReal): (r: ExtReal)
    ensures Le(a, r) && Le(b, r)
    ensures r == a || r == b
  {
    if Le(a, b) then b else a
  }

  /// `f64::min` on non-NaN operands.
  function Min(a: ExtReal, b: ExtReal): (r: ExtReal)
    ensures Le(r, a) && Le(r, b)
    ensures r == a || r == b
  {
    if Le(a, b) then a else b
  }

  lemma LeTotal(a: ExtReal, b: ExtReal)
    ensures Le(a, b) || Le(b, a)
  {
  }

  lemma LeTransitive(a: ExtReal, b: ExtReal, c: ExtReal)
    requires Le(a, b) && Le(b, c)
    ensures Le(a, c)
  {
  }
}
