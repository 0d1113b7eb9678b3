/**
 * The pieces of the abstract representation that MMCFBlock builds but whose
 * behaviour lives in other classes (`MCFBlock`, `BinaryKnapsackBlock`,
 * `ColVariable`, `LinearFunction`, `FRowConstraint`): they appear here only
 * as handles and records of what the block hands to them.
 */
module Abstract {
  import opened ExtNum

  datatype Option<T> = None | Some(value: T)

  /** A `ColVariable *`: `NoVar` is `nullptr`, `FlowVar(k, j)` is
    * `i2p_x( j )` of the flow sub-block of commodity `k`, `ItemVar(j, item)`
    * is `get_Var( item )` of the knapsack sub-block of arc `j`. */
  datatype Var = NoVar | FlowVar(k: nat, j: nat) | ItemVar(j: nat, item: nat)

  /** One `( ColVariable * , double )` coefficient pair of a `LinearFunction`. */
  datatype Term = Term(v: Var, coef: Num)

  /** A value-initialised coefficient pair. */
  const DefaultTerm: Term := Term(NoVar, Fin(0.0))

  /** An `FRowConstraint` `lhs <= sum( coef * v ) <= rhs`, with the dual value
    * that solvers write into it. */
  datatype Row = Row(terms: seq<Term>, lhs: Num, rhs: Num, dual: real)

  /** A default-constructed `FRowConstraint` that has not been set yet. */
  const BlankRow: Row := Row([], NegInf, Inf, 0.0)

  /** A knapsack weight or profit: an exact value, or the penalty magnitude
    * (`Cmax`, `Umax`) that replaces the data of a forbidden commodity. */
  datatype Amount = Exact(v: Num) | Penalty

  /** A sub-block as the block loads it. `x`, `pi` and `dual` are the values
    * that solvers write into the sub-block. */
  datatype SubBlock =
    | McfSub(nNodes: nat, nArcs: nat, startn: seq<nat>, endn: seq<nat>,
             u: seq<Num>, c: seq<Num>, b: seq<Num>, x: seq<real>, pi: seq<real>)
    | KnapsackSub(items: nat, bound: Num, weights: seq<Amount>, costs: seq<Amount>,
                  integral: seq<bool>, sense: bool, x: seq<real>, dual: real)

  /** The exceptions the block throws. */
  datatype Failure = InvalidArgument(what: string) | LogicError(what: string)

  datatype Outcome = Pass | Fail(error: Failure)
}
