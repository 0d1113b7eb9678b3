/**
 * Properties that join the parts of the block: what the preprocessor
 * leaves lets the flow formulation's constraints be built, the rows use
 * the variables the block reports, the knapsack flow is rescaled into the
 * arc's capacity and the fixed costs are the average arc cost.
 */
module BlockProps {
  import opened ExtNum
  import opened Abstract
  import opened ArBits
  import opened Store
  import opened Preprocessing
  import opened PreprocessProps
  import opened Coupling
  import opened Mmcf

  /** The tables a successful `PreProcess` leaves can be preprocessed
    * again, and so are well formed. */
  lemma PreProcessedShape(t: Tables, p: Params)
    requires Preprocessable(t) && PreProcessed(t, p).Done?
    ensures Preprocessable(PreProcessed(t, p).t)
  {
  }

  /** Rows whose arcs all have a finite mutual capacity are built without
    * throwing. */
  lemma FiniteCapacitiesBuild(r: Tables, mcs: seq<Row>)
    requires WellFormed(r) && ActiveReadable(r)
    requires forall i :: 0 <= i < r.nArcs ==> r.uTot[i].Fin?
    ensures MutualRows(r, mcs).error.None?
  {
    MutualRowsExact(r, mcs);
    var arcs := MutualArcs(r);
    forall q | 0 <= q < |arcs|
      ensures !Ge(r.uTot[arcs[q]], Inf)
    {
      assert r.uTot[arcs[q]].Fin?;
    }
  }

  /** The tables a successful `PreProcess` leaves are well formed, and the
    * mutual capacity rows built from them never throw (cpp:1203-1210):
    * every mutual capacity is then finite, when the data and the bounds are
    * sane. */
  lemma PreProcessedRowsBuild(t: Tables, p: Params, mcs: seq<Row>)
    requires Preprocessable(t) && SaneData(t) && PreProcessed(t, p).Done?
    requires NonNegBound(p.incUjk) && NonNegBound(p.decUk) && NonNegBound(p.chgDfct)
    ensures var r := PreProcessed(t, p).t;
      && WellFormed(r) && ActiveReadable(r)
      && MutualRows(r, mcs).error.None?
  {
    var r := PreProcessed(t, p).t;
    PreProcessedShape(t, p);
    ActiveAfterPreProcess(t, p);
    ActiveOkReadable(r);
    SharedCapacitiesFinite(t, p);
    FiniteCapacitiesBuild(r, mcs);
  }

  /** In the flow formulation, the term of commodity `k` in the mutual
    * capacity row of an arc is the variable `get_flow_variable( k , arc )`
    * returns (cpp:1196-1199 against MMCFBlock.h:362-371). */
  lemma MutualRowsUseFlowVariables(bl: MMCFBlock, mcs: seq<Row>)
    requires WellFormed(bl.data) && ActiveReadable(bl.data)
    requires bl.ar & HasVar != 0 && bl.UseFlowRelaxation()
    requires MutualRows(bl.data, mcs).error.None?
    ensures var b := MutualRows(bl.data, mcs); var arcs := MutualArcs(bl.data);
      forall q, k :: 0 <= q < |arcs| && 0 <= k < bl.data.nComm ==>
        b.rows[q].terms[k].v == bl.GetFlowVariable(k, arcs[q]) && b.rows[q].terms[k].coef == Fin(1.0)
  {
    MutualRowsExact(bl.data, mcs);
  }

  /** In the knapsack formulation, every term of the flow conservation row
    * of node `n + 1` for commodity `k` is on the variable
    * `get_flow_variable( k , j )` of its arc `j`, with coefficient `U` or
    * `-U` (cpp:1255-1263 against MMCFBlock.h:362-371). */
  lemma NodeRowsUseFlowVariables(bl: MMCFBlock, k: nat, n: nat)
    requires WellFormed(bl.data) && k < bl.data.nComm && n < bl.data.nNodes
    requires bl.ar & HasVar != 0 && !bl.UseFlowRelaxation()
    ensures var ts := NodeTerms(bl.data, k, n, bl.data.nArcs);
      forall q :: 0 <= q < |ts| ==>
        && ts[q].v.ItemVar? && ts[q].v.j < bl.data.nArcs
        && ts[q].v == bl.GetFlowVariable(k, ts[q].v.j)
        && (ts[q].coef == bl.data.u[k][ts[q].v.j] || ts[q].coef == Neg(bl.data.u[k][ts[q].v.j]))
  {
    NodeTermsExact(bl.data, k, n, bl.data.nArcs);
  }

  /** In the knapsack formulation the flow of a commodity on an arc is its
    * capacity times the item's value, so a value in `[ 0 , 1 ]` gives a
    * flow in `[ 0 , U[ k ][ i ] ]`; the extra item `NComm` is read as it
    * is (MMCFBlock.h:329-333). */
  lemma KnapsackFlowRescaled(bl: MMCFBlock, k: nat, i: nat)
    requires bl.ar & HasVar != 0 && !bl.UseFlowRelaxation() && bl.FlowReadable(k, i)
    requires 0.0 <= bl.vBlock[i].x[k] <= 1.0
    requires k != bl.data.nComm ==> bl.data.u[k][i].Fin? && bl.data.u[k][i].r >= 0.0
    ensures k == bl.data.nComm ==> bl.GetFlow(k, i) == Fin(bl.vBlock[i].x[k])
    ensures k != bl.data.nComm ==>
      && bl.GetFlow(k, i) == Fin(bl.data.u[k][i].r * bl.vBlock[i].x[k])
      && 0.0 <= bl.GetFlow(k, i).r <= bl.data.u[k][i].r
  {
    if k != bl.data.nComm {
      var u := bl.data.u[k][i].r;
      var x := bl.vBlock[i].x[k];
      assert u * x <= u * 1.0 by {
        assert u * (1.0 - x) >= 0.0;
      }
    }
  }

  /** `sum_k C[ k ][ i ] * U[ k ][ i ]` over the first `m` commodities whose
    * cost is finite. */
  function CostSum(t: Tables, i: nat, m: nat): real
    requires CostsReadable(t) && i < t.nArcs && m <= t.nComm
    requires forall k :: 0 <= k < m ==> t.u[k][i].Fin?
  {
    if m == 0 then 0.0
    else if t.c[m - 1][i].Fin? then CostSum(t, i, m - 1) + t.c[m - 1][i].r * t.u[m - 1][i].r
    else CostSum(t, i, m - 1)
  }

  lemma SharedDenominator(a: real, x: real, n: real)
    requires n > 0.0
    ensures a / n + x / n == (a + x) / n
  {
  }

  /** With costs that are finite or `Inf` and finite capacities, `Cmean`
    * is the sum of `C * U` over the commodities of finite cost, divided by
    * `NComm`: the commodities whose arc does not exist add nothing. */
  lemma {:induction false} CostMeanIsAverage(t: Tables, i: nat, m: nat)
    requires CostsReadable(t) && i < t.nArcs && m <= t.nComm && t.nComm > 0
    requires forall k :: 0 <= k < m ==> Datum(t.c[k][i]) && t.u[k][i].Fin?
    ensures CostMean(t, i, m) == Fin(CostSum(t, i, m) / t.nComm as real)
  {
    if m > 0 {
      var k := m - 1;
      CostMeanIsAverage(t, i, k);
      var n := t.nComm as real;
      var a := CostSum(t, i, k);
      assert CostMean(t, i, k) == Fin(a / n);
      if t.c[k][i].Fin? {
        var x := t.c[k][i].r * t.u[k][i].r;
        assert Mul(t.c[k][i], t.u[k][i]) == Fin(x);
        assert DivBy(Fin(x), t.nComm) == Fin(x / n);
        SharedDenominator(a, x, n);
        assert CostSum(t, i, m) == a + x;
        assert CostMean(t, i, m) == Add(Fin(a / n), Fin(x / n));
      } else {
        assert !Lt(t.c[k][i], Inf);
      }
    }
  }

  /** After `chg_fixed_costs( seed , lambda )` the fixed cost of each arc
    * is `lambda` times its average cost (MMCFBlock.h:451-459). */
  lemma FixedCostIsScaledAverage(t: Tables, lambda: real, i: nat)
    requires CostsReadable(t) && i < t.nArcs && t.nComm > 0
    requires forall k :: 0 <= k < t.nComm ==> Datum(t.c[k][i]) && t.u[k][i].Fin?
    ensures FixedCosts(t, lambda)[i] == Fin(lambda * (CostSum(t, i, t.nComm) / t.nComm as real))
  {
    CostMeanIsAverage(t, i, t.nComm);
  }
}
