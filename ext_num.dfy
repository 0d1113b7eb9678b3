/**
 * Extended real numbers standing in for the `double` values of the block
 * (`FNumber`, `CNumber`): finite values, the two infinities and NaN, with
 * the IEEE 754 rules for comparison and arithmetic but without rounding.
 * `Inf` is `Inf<double>()`.
 */
module ExtNum {

  datatype Num = Fin(r: real) | Inf | NegInf | NaN

  /** A value the data tables hold: a finite number or `Inf<double>()`. */
  predicate Datum(a: Num) { a.Fin? || a.Inf? }

  /** A documented non-negative bound that may be `Inf<double>()`. */
  predicate NonNegBound(a: Num) { (a.Fin? && a.r >= 0.0) || a.Inf? }

  /** IEEE `a < b`: false as soon as a NaN is involved. */
  predicate Lt(a: Num, b: Num) {
    if a.NaN? || b.NaN? then false
    else if a.Fin? && b.Fin? then a.r < b.r
    else (a.NegInf? && !b.NegInf?) || (b.Inf? && !a.Inf?)
  }

  /** IEEE `a == b`: NaN equals nothing, not even itself. */
  predicate Eq(a: Num, b: Num) { !a.NaN? && !b.NaN? && a == b }

  predicate Le(a: Num, b: Num) { Lt(a, b) || Eq(a, b) }
  predicate Gt(a: Num, b: Num) { Lt(b, a) }
  predicate Ge(a: Num, b: Num) { Le(b, a) }

  /** `! x` on a double: x compares equal to zero. */
  predicate IsZero(a: Num) { Eq(a, Fin(0.0)) }

  function Neg(a: Num): Num {
    match a
    case Fin(x) => Fin(-x)
    case Inf => NegInf
    case NegInf => Inf
    case NaN => NaN
  }

  function Add(a: Num, b: Num): (s: Num)
    ensures a.Fin? && b.Fin? ==> s == Fin(a.r + b.r)
    ensures s.NaN? <==> (a.NaN? || b.NaN? || (a.Inf? && b.NegInf?) || (a.NegInf? && b.Inf?))
  {
    if a.NaN? || b.NaN? then NaN
    else if a.Fin? && b.Fin? then Fin(a.r + b.r)
    else if (a.Inf? && b.NegInf?) || (a.NegInf? && b.Inf?) then NaN
    else if a.Inf? || b.Inf? then Inf
    else NegInf
  }

  function Sub(a: Num, b: Num): Num { Add(a, Neg(b)) }

  predicate Positive(a: Num) { a.Inf? || (a.Fin? && a.r > 0.0) }

  function Mul(a: Num, b: Num): (p: Num)
    ensures a.Fin? && b.Fin? ==> p == Fin(a.r * b.r)
    ensures (a.Inf? || a.NegInf?) && IsZero(b) ==> p.NaN?
  {
    if a.NaN? || b.NaN? then NaN
    else if a.Fin? && b.Fin? then Fin(a.r * b.r)
    else if a == Fin(0.0) || b == Fin(0.0) then NaN
    else if Positive(a) == Positive(b) then Inf
    else NegInf
  }

  /** Division by a positive count (e.g. `x / get_NComm()`). */
  function DivBy(a: Num, d: nat): (q: Num)
    requires d > 0
    ensures a.Fin? ==> q == Fin(a.r / d as real)
    ensures !a.Fin? ==> q == a
  {
    if a.Fin? then Fin(a.r / d as real) else a
  }

  /** `std::min( a , b )`, that is `( b < a ) ? b : a`. */
  function Min(a: Num, b: Num): (m: Num)
    ensures m == a || m == b
    ensures !a.NaN? && !b.NaN? ==> Le(m, a) && Le(m, b)
  {
    if Lt(b, a) then b else a
  }

  /** On values that are not NaN, `x >= Inf` holds exactly for `Inf`. */
  lemma GeInfIsInf(x: Num)
    ensures Ge(x, Inf) <==> x.Inf?
  {
  }

  /** The guard `DecCsts > Inf<double>()` of MMCFBlock.cpp:1329 can never be true. */
  lemma NothingExceedsInf(x: Num)
    ensures !Gt(x, Inf)
  {
  }

  /** IEEE equality never identifies distinct values. */
  lemma EqIsIdentity(a: Num, b: Num)
    ensures Eq(a, b) ==> a == b
  {
  }
}
