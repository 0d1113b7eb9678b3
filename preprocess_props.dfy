/**
 * What `PreProcess` (MMCFBlock.cpp:1323-1590) guarantees about the tables
 * it leaves, stated on the functions of `Preprocessing` that define it.
 */
module PreprocessProps {
  import opened ExtNum
  import opened SeqUtil
  import opened Abstract
  import opened Store
  import opened Preprocessing

  /** Data the preprocessor can bound: every deficit is finite or `Inf`
    * (the mark of a node that does not exist, cpp:1346-1351), every cost
    * is finite or `Inf`, and capacities are non-negative or `Inf`. */
  predicate SaneData(t: Tables)
    requires WellFormed(t)
  {
    && (forall k, n :: 0 <= k < |t.b| && 0 <= n < |t.b[k]| ==> Datum(t.b[k][n]))
    && (forall k, j :: 0 <= k < t.nComm && 0 <= j < t.nArcs ==> Datum(t.c[k][j]))
    && (forall k, j :: 0 <= k < t.nComm && 0 <= j < t.nArcs ==> NonNegBound(t.u[k][j]))
    && (forall j :: 0 <= j < t.nArcs ==> NonNegBound(t.uTot[j]))
  }

  /** The flow estimates of the tables after the first two passes. */
  function Bounds(t: Tables, p: Params): (v: seq<Num>)
    requires Preprocessable(t)
    ensures |v| == t.nComm
  {
    FlowEstimates(Cleaned(t), p)
  }

  /** The tables after the mutual pass. */
  function AfterMutual(t: Tables, p: Params): (r: Tables)
    requires Preprocessable(t)
    ensures Preprocessable(r) && ActiveShaped(r)
  {
    MutualPassed(Cleaned(t), p, Bounds(t, p), SumFrom(Bounds(t, p), 0))
  }

  // ---------------------------------------------------------------------
  // Errors (cpp:1327-1330, 1381-1383).

  /** `PreProcess` throws exactly when `ChgDfct` is infinite or a cheap arc
    * has unbounded capacity; the `DecCsts > Inf` guard never fires. */
  lemma PreProcessFails(t: Tables, p: Params)
    requires Preprocessable(t)
    ensures PreProcessed(t, p).Failed? <==> Ge(p.chgDfct, Inf) || EstimateFails(Cleaned(t), p)
    ensures Ge(p.chgDfct, Inf) ==> PreProcessed(t, p) == Failed(InvalidArgument("infinite ChgDfct"), t)
    ensures !Ge(p.chgDfct, Inf) && EstimateFails(Cleaned(t), p) ==>
      PreProcessed(t, p) == Failed(InvalidArgument("negative cost, infinite capacity"), Cleaned(t))
  {
    NothingExceedsInf(p.decCsts);
  }

  // ---------------------------------------------------------------------
  // Passes 1 and 2 (cpp:1347-1359).

  /** After the first two passes an arc touching an infinite-deficit node has
    * infinite cost, an arc of infinite cost has zero capacity, and nothing
    * else has changed. */
  lemma CleanedArcs(t: Tables)
    requires Preprocessable(t)
    ensures var r := Cleaned(t);
      forall k, i :: 0 <= k < t.nComm && 0 <= i < t.nArcs ==>
        && r.c[k][i] == (if DeadEnd(t, k, i) then Inf else t.c[k][i])
        && r.u[k][i] == (if Eq(r.c[k][i], Inf) then Fin(0.0) else t.u[k][i])
    ensures Cleaned(t).uTot == t.uTot && Cleaned(t).b == t.b
  {
  }

  /** The mutual pass keeps both facts for one arc and commodity: it only
    * gives arcs infinite cost together with zero capacity. */
  lemma MutualKeepsDeadArc(t1: Tables, p: Params, tmpv: seq<Num>, maxU: Num, k: nat, i: nat)
    requires Preprocessable(t1) && |t1.active| == t1.nArcs && |tmpv| == t1.nComm && k < t1.nComm && i < t1.nArcs
    requires Eq(t1.c[k][i], Inf) ==> t1.u[k][i] == Fin(0.0)
    ensures var t2 := MutualPassed(t1, p, tmpv, maxU);
      && (t1.c[k][i] == Inf ==> t2.c[k][i] == Inf)
      && (Eq(t2.c[k][i], Inf) ==> t2.u[k][i] == Fin(0.0))
  {
    var t2 := MutualPassed(t1, p, tmpv, maxU);
    assert t2.c[k][i] == SharedCost(t1, p, tmpv, maxU, k, i);
    assert t2.u[k][i] == SharedCap(t1, p, tmpv, maxU, k, i);
  }

  /** So does the individual pass. */
  lemma IndividualKeepsDeadArc(t2: Tables, p: Params, tmpv: seq<Num>, k: nat, i: nat)
    requires Preprocessable(t2) && ActiveShaped(t2) && |tmpv| == t2.nComm && k < t2.nComm && i < t2.nArcs
    requires Eq(t2.c[k][i], Inf) ==> t2.u[k][i] == Fin(0.0)
    ensures var t3 := IndividualPassed(t2, p, tmpv);
      && (t2.c[k][i] == Inf ==> t3.c[k][i] == Inf)
      && (Eq(t3.c[k][i], Inf) ==> t3.u[k][i] == Fin(0.0))
  {
    var t3 := IndividualPassed(t2, p, tmpv);
    assert t3.c[k][i] == SingleCosts(t2, p, tmpv, k)[i];
    assert t3.u[k][i] == SingleCaps(t2, p, tmpv, k)[i];
  }

  /** The mutual and individual passes keep both facts: they only add arcs
    * of infinite cost, and give them zero capacity. */
  lemma DeadArcsStayDead(t: Tables, p: Params)
    requires Preprocessable(t)
    ensures var r := IndividualPassed(AfterMutual(t, p), p, Bounds(t, p));
      forall k, i :: 0 <= k < t.nComm && 0 <= i < t.nArcs ==>
        && (DeadEnd(t, k, i) ==> r.c[k][i] == Inf)
        && (Eq(r.c[k][i], Inf) ==> r.u[k][i] == Fin(0.0))
  {
    var t1 := Cleaned(t);
    var tmpv := Bounds(t, p);
    var t2 := AfterMutual(t, p);
    var t3 := IndividualPassed(t2, p, tmpv);
    CleanedArcs(t);
    forall k: nat, i: nat | k < t.nComm && i < t.nArcs
      ensures DeadEnd(t, k, i) ==> t3.c[k][i] == Inf
      ensures Eq(t3.c[k][i], Inf) ==> t3.u[k][i] == Fin(0.0)
    {
      MutualKeepsDeadArc(t1, p, tmpv, SumFrom(tmpv, 0), k, i);
      IndividualKeepsDeadArc(t2, p, tmpv, k, i);
    }
  }

  /** The final tables keep both facts. */
  lemma DeadArcsStayEmpty(t: Tables, p: Params)
    requires Preprocessable(t) && PreProcessed(t, p).Done?
    ensures var r := PreProcessed(t, p).t;
      forall k, i :: 0 <= k < t.nComm && 0 <= i < t.nArcs ==>
        && (DeadEnd(t, k, i) ==> r.c[k][i] == Inf)
        && (Eq(r.c[k][i], Inf) ==> r.u[k][i] == Fin(0.0))
  {
    DoneParts(t, p);
    DeadArcsStayDead(t, p);
    var t3 := IndividualPassed(AfterMutual(t, p), p, Bounds(t, p));
    var r := PreProcessed(t, p).t;
    assert r.c == t3.c && r.u == t3.u;
  }

  // ---------------------------------------------------------------------
  // Pass 3 (cpp:1365-1391).

  /** The supply of a commodity whose deficits are finite or `Inf` is
    * finite and non-negative: the `Inf` nodes add nothing. */
  lemma {:induction false} SupplyBound(bk: seq<Num>, n: nat)
    requires n <= |bk| && forall m :: 0 <= m < |bk| ==> Datum(bk[m])
    ensures Supply(bk, n).Fin? && Supply(bk, n).r >= 0.0
  {
    if n > 0 {
      SupplyBound(bk, n - 1);
    }
  }

  /** The capacities of the cheap arcs, added to `base`, give a finite value
    * that is at least `base` and exceeds each of them. */
  lemma {:induction false} CheapFlowBound(t: Tables, p: Params, k: nat, base: Num, n: nat)
    requires Preprocessable(t) && SaneData(t) && k < t.nComm && n <= t.nArcs
    requires base.Fin? && base.r >= 0.0 && !Unbounded(t, p, k)
    ensures CheapFlow(t, p, k, base, n).Fin? && CheapFlow(t, p, k, base, n).r >= base.r
    ensures forall j :: 0 <= j < n && CheapArc(t, p, k, j) ==>
      FlowCap(t, k, j).Fin? && FlowCap(t, k, j).r <= CheapFlow(t, p, k, base, n).r - base.r
  {
    if n > 0 {
      CheapFlowBound(t, p, k, base, n - 1);
      if CheapArc(t, p, k, n - 1) {
        var cap := FlowCap(t, k, n - 1);
        assert !Ge(cap, Inf);
        assert cap.Fin? && cap.r >= 0.0;
      }
    }
  }

  /** `tmpv[ k ]` bounds the flow of commodity `k`: it is finite, it covers
    * the total supply of the commodity, and it covers the capacity of every
    * arc that may have negative cost. */
  lemma FlowEstimateBound(t: Tables, p: Params, k: nat)
    requires Preprocessable(t) && SaneData(t) && k < t.nComm && !Unbounded(t, p, k)
    requires p.chgDfct.Fin? && p.chgDfct.r >= 0.0
    ensures FlowEstimate(t, p, k).Fin? && Supply(t.b[k], |t.b[k]|).Fin?
    ensures FlowEstimate(t, p, k).r >= Supply(t.b[k], |t.b[k]|).r >= 0.0
    ensures forall j :: 0 <= j < t.nArcs && CheapArc(t, p, k, j) ==>
      FlowCap(t, k, j).Fin? && FlowCap(t, k, j).r <= FlowEstimate(t, p, k).r
  {
    var bk := t.b[k];
    SupplyBound(bk, |bk|);
    CheapFlowBound(t, p, k, Supply(bk, |bk|), t.nArcs);
    var half := ((t.nNodes + 1) / 2) as real;
    assert half >= 0.0;
    assert half * p.chgDfct.r >= 0.0;
    assert DeficitSlack(t, p) == Fin(half * p.chgDfct.r);
  }

  /** `maxU` is finite and covers every `tmpv[ k ]` when those are finite and
    * non-negative. */
  lemma {:induction false} SumFromBound(v: seq<Num>, m: nat)
    requires m <= |v| && forall k :: 0 <= k < |v| ==> v[k].Fin? && v[k].r >= 0.0
    ensures SumFrom(v, m).Fin? && SumFrom(v, m).r >= 0.0
    ensures forall k :: m <= k < |v| ==> v[k].r <= SumFrom(v, m).r
    decreases |v| - m
  {
    if m < |v| {
      SumFromBound(v, m + 1);
    }
  }

  /** The first two passes keep the data sane. */
  lemma CleanedSane(t: Tables)
    requires Preprocessable(t) && SaneData(t)
    ensures SaneData(Cleaned(t))
  {
    CleanedArcs(t);
  }

  /** Every flow estimate and their sum are finite and non-negative. */
  lemma BoundsFinite(t: Tables, p: Params)
    requires Preprocessable(t) && SaneData(t) && !EstimateFails(Cleaned(t), p)
    requires p.chgDfct.Fin? && p.chgDfct.r >= 0.0
    ensures forall k :: 0 <= k < t.nComm ==> Bounds(t, p)[k].Fin? && Bounds(t, p)[k].r >= 0.0
    ensures SumFrom(Bounds(t, p), 0).Fin?
  {
    CleanedSane(t);
    forall k | 0 <= k < t.nComm
      ensures Bounds(t, p)[k].Fin? && Bounds(t, p)[k].r >= 0.0
    {
      FlowEstimateBound(Cleaned(t), p, k);
    }
    SumFromBound(Bounds(t, p), 0);
  }

  // ---------------------------------------------------------------------
  // Pass 4 (cpp:1397-1446).

  lemma {:induction false} SelectFull(keep: seq<bool>, n: nat)
    requires n <= |keep|
    ensures |Select(keep, n)| == n <==> forall i :: 0 <= i < n ==> keep[i]
  {
    if n > 0 {
      SelectFull(keep, n - 1);
      SelectExact(keep, n - 1);
    }
  }

  /** `Ui` is finite when the flow estimates are and `IncUjk < Inf`. */
  lemma {:induction false} CapFromFinite(t: Tables, p: Params, tmpv: seq<Num>, i: nat, m: nat)
    requires Preprocessable(t) && SaneData(t) && |tmpv| == t.nComm && i < t.nArcs && m <= t.nComm
    requires forall k :: 0 <= k < t.nComm ==> tmpv[k].Fin?
    requires p.incUjk.Fin?
    ensures CapFrom(t, p, tmpv, i, m).Fin?
    decreases t.nComm - m
  {
    if m < t.nComm {
      CapFromFinite(t, p, tmpv, i, m + 1);
    }
  }

  /** The mutual capacity the mutual pass gives one arc is finite. */
  lemma SharedTotalFinite(t: Tables, p: Params, tmpv: seq<Num>, i: nat)
    requires Preprocessable(t) && SaneData(t) && |tmpv| == t.nComm && i < t.nArcs
    requires forall k :: 0 <= k < t.nComm ==> tmpv[k].Fin?
    requires SumFrom(tmpv, 0).Fin?
    requires NonNegBound(p.incUjk) && NonNegBound(p.decUk)
    ensures SharedTotal(t, p, tmpv, SumFrom(tmpv, 0), i).Fin?
  {
    if Lt(p.incUjk, Inf) {
      CapFromFinite(t, p, tmpv, i, 0);
    }
    assert SharedBound(t, p, tmpv, SumFrom(tmpv, 0), i).Fin?;
  }

  /** After the mutual pass every mutual capacity is finite, when the data
    * and the bounds are sane. */
  lemma MutualCapacitiesFinite(t: Tables, p: Params)
    requires Preprocessable(t) && SaneData(t) && !EstimateFails(Cleaned(t), p)
    requires p.chgDfct.Fin? && p.chgDfct.r >= 0.0
    requires NonNegBound(p.incUjk) && NonNegBound(p.decUk)
    ensures forall i :: 0 <= i < t.nArcs ==> AfterMutual(t, p).uTot[i].Fin?
  {
    var t1 := Cleaned(t);
    var tmpv := Bounds(t, p);
    BoundsFinite(t, p);
    CleanedSane(t);
    forall i | 0 <= i < t.nArcs
      ensures AfterMutual(t, p).uTot[i].Fin?
    {
      SharedTotalFinite(t1, p, tmpv, i);
      assert AfterMutual(t, p).uTot[i] == SharedTotal(t1, p, tmpv, SumFrom(tmpv, 0), i);
    }
  }

  /** After `PreProcess` every mutual capacity `UTot[ i ]` is finite
    * (cpp:1406-1407, 1430-1431), when the data and the bounds are sane. */
  lemma SharedCapacitiesFinite(t: Tables, p: Params)
    requires Preprocessable(t) && SaneData(t) && PreProcessed(t, p).Done?
    requires NonNegBound(p.incUjk) && NonNegBound(p.decUk) && NonNegBound(p.chgDfct)
    ensures forall i :: 0 <= i < t.nArcs ==> PreProcessed(t, p).t.uTot[i].Fin?
  {
    DoneParts(t, p);
    assert !EstimateFails(Cleaned(t), p) && p.chgDfct.Fin? && p.chgDfct.r >= 0.0;
    MutualCapacitiesFinite(t, p);
    assert PreProcessed(t, p).t.uTot == AfterMutual(t, p).uTot;
  }

  /** The list the mutual pass builds: the binding arcs in ascending order,
    * followed by the sentinel unless every arc is binding. */
  lemma MutualList(t: Tables, p: Params)
    requires Preprocessable(t)
    ensures var t2 := AfterMutual(t, p);
      var keep := BindingFlags(Cleaned(t), p, Bounds(t, p), SumFrom(Bounds(t, p), 0));
      && t2.nCnst == |Select(keep, t.nArcs)|
      && (t2.nCnst == t2.nArcs <==> forall i :: 0 <= i < t.nArcs ==> keep[i])
      && forall i :: 0 <= i < t.nArcs ==> (keep[i] <==> i in t2.active[..t2.nCnst])
  {
    var t1 := Cleaned(t);
    var tmpv := Bounds(t, p);
    var keep := BindingFlags(t1, p, tmpv, SumFrom(tmpv, 0));
    SelectExact(keep, t.nArcs);
    SelectFull(keep, t.nArcs);
    SharedListShape(t1, p, tmpv, SumFrom(tmpv, 0));
    var t2 := AfterMutual(t, p);
    assert t2.active[..t2.nCnst] == Select(keep, t.nArcs);
  }

  /** In the mutual pass, an arc whose mutual capacity is zero and may not
    * grow loses every commodity and gets no constraint; the individual pass
    * keeps it so. */
  lemma PrunedArcStaysEmpty(t: Tables, p: Params, i: nat)
    requires Preprocessable(t) && i < t.nArcs
    requires IsZero(p.incUk) && IsZero(t.uTot[i])
    ensures var t2 := AfterMutual(t, p);
      var t3 := IndividualPassed(t2, p, Bounds(t, p));
      && (forall k :: 0 <= k < t.nComm ==> t3.c[k][i] == Inf && t3.u[k][i] == Fin(0.0))
      && t2.nCnst < t2.nArcs && i !in t2.active[..t2.nCnst]
  {
    var t1 := Cleaned(t);
    var tmpv := Bounds(t, p);
    var t2 := AfterMutual(t, p);
    var keep := BindingFlags(t1, p, tmpv, SumFrom(tmpv, 0));
    CleanedArcs(t);
    assert SharedFate(t1, p, tmpv, SumFrom(tmpv, 0), i).Pruned?;
    MutualList(t, p);
    assert !keep[i];
    var t3 := IndividualPassed(t2, p, tmpv);
    forall k | 0 <= k < t.nComm
      ensures t3.c[k][i] == Inf && t3.u[k][i] == Fin(0.0)
    {
      assert t2.c[k][i] == Inf && t2.u[k][i] == Fin(0.0);
      assert t3.c[k][i] == SingleCosts(t2, p, tmpv, k)[i];
      assert t3.u[k][i] == SingleCaps(t2, p, tmpv, k)[i];
    }
  }

  /** An arc whose mutual capacity is zero and may not grow does not exist
    * for any commodity and has no mutual capacity constraint. */
  lemma ZeroSharedCapacityRemovesArc(t: Tables, p: Params, i: nat)
    requires Preprocessable(t) && PreProcessed(t, p).Done? && i < t.nArcs
    requires IsZero(p.incUk) && IsZero(t.uTot[i])
    ensures var r := PreProcessed(t, p).t;
      && (forall k :: 0 <= k < t.nComm ==> r.c[k][i] == Inf && r.u[k][i] == Fin(0.0))
      && r.active != [] && i !in r.active[..r.nCnst]
  {
    DoneParts(t, p);
    PrunedArcStaysEmpty(t, p, i);
    var t2 := AfterMutual(t, p);
    var t3 := IndividualPassed(t2, p, Bounds(t, p));
    var r := PreProcessed(t, p).t;
    assert r.c == t3.c && r.u == t3.u && r.nCnst == t2.nCnst;
    assert r.active == t2.active;
  }

  /** The list of mutual capacity constraints: empty exactly when every arc
    * has one, otherwise the binding arcs in ascending order followed by the
    * sentinel (cpp:1445-1446, 1523-1524). */
  lemma ActiveAfterPreProcess(t: Tables, p: Params)
    requires Preprocessable(t) && PreProcessed(t, p).Done?
    ensures var r := PreProcessed(t, p).t;
      && ActiveOk(r) && r.nCnst <= r.nArcs
      && (r.active == [] <==> r.nCnst == r.nArcs)
      && r.nCnst == |Select(BindingFlags(Cleaned(t), p, Bounds(t, p), SumFrom(Bounds(t, p), 0)), t.nArcs)|
      && forall i :: 0 <= i < t.nArcs ==>
           (SharedFate(Cleaned(t), p, Bounds(t, p), SumFrom(Bounds(t, p), 0), i).Binding? <==>
            (r.active == [] || i in r.active[..r.nCnst]))
  {
    DoneParts(t, p);
    MutualList(t, p);
    var t2 := AfterMutual(t, p);
    var r := PreProcessed(t, p).t;
    assert r.nCnst == t2.nCnst && r.nArcs == t2.nArcs;
    assert r.active == if t2.nCnst >= t2.nArcs then [] else t2.active;
    var t1 := Cleaned(t);
    var tmpv := Bounds(t, p);
    var keep := BindingFlags(t1, p, tmpv, SumFrom(tmpv, 0));
    assert ActiveOk(r) by {
      if r.active != [] {
        assert ActiveShaped(t2);
      }
    }
    forall i | 0 <= i < t.nArcs
      ensures SharedFate(t1, p, tmpv, SumFrom(tmpv, 0), i).Binding? <==> (r.active == [] || i in r.active[..r.nCnst])
    {
      assert keep[i] == SharedFate(t1, p, tmpv, SumFrom(tmpv, 0), i).Binding?;
    }
  }

  // ---------------------------------------------------------------------
  // Pass 5 (cpp:1450-1520).

  /** A list built by `ActiveList` is empty exactly when every index is kept;
    * otherwise it holds the kept indices in ascending order and then the
    * sentinel. */
  lemma ActiveListShape(keep: seq<bool>, n: nat)
    requires n <= |keep| && n < IndexInf
    ensures ActiveList(keep, n) == [] <==> forall i :: 0 <= i < n ==> keep[i]
    ensures var l := ActiveList(keep, n);
      l != [] ==>
        && |l| == |Select(keep, n)| + 1 && l[|l| - 1] == IndexInf
        && StrictlyAscending(l[..|l| - 1])
        && (forall i :: 0 <= i < n ==> (keep[i] <==> i in l[..|l| - 1]))
  {
    SelectExact(keep, n);
    SelectFull(keep, n);
    var s := Select(keep, n);
    if |s| < n {
      assert ActiveList(keep, n)[..|s|] == s;
    }
  }

  /** The individual pass on any tables: `ActiveK[ k ]` lists exactly the
    * arcs it keeps, and `NamesK` adds up their numbers. */
  lemma IndividualListsOf(t2: Tables, p: Params, tmpv: seq<Num>)
    requires Preprocessable(t2) && ActiveShaped(t2) && |tmpv| == t2.nComm
    ensures var r := IndividualPassed(t2, p, tmpv);
      && r.namesK[0] == t2.namesK[0]
      && forall k :: 0 <= k < t2.nComm ==>
           var keep := KeptFlags(t2, p, tmpv, k);
           && r.activeK[k] == ActiveList(keep, t2.nArcs)
           && r.namesK[k + 1] == r.namesK[k] + |Select(keep, t2.nArcs)|
  {
    var r := IndividualPassed(t2, p, tmpv);
    var counts := KeptCounts(t2, p, tmpv);
    var chain := NamesChain(t2.namesK[0], counts);
    assert r.namesK == chain + t2.namesK[t2.nComm + 1..];
    forall k | 0 <= k < t2.nComm
      ensures r.namesK[k + 1] == r.namesK[k] + counts[k]
    {
      assert r.namesK[k] == chain[k] && r.namesK[k + 1] == chain[k + 1];
    }
  }

  /** The individual pass: `ActiveK[ k ]` lists exactly the arcs it keeps,
    * and `NamesK` adds up their numbers. */
  lemma IndividualLists(t: Tables, p: Params)
    requires Preprocessable(t)
    ensures var t2 := AfterMutual(t, p);
      var r := IndividualPassed(t2, p, Bounds(t, p));
      && r.namesK[0] == t.namesK[0]
      && forall k :: 0 <= k < t.nComm ==>
           var keep := KeptFlags(t2, p, Bounds(t, p), k);
           && r.activeK[k] == ActiveList(keep, t.nArcs)
           && r.namesK[k + 1] == r.namesK[k] + |Select(keep, t.nArcs)|
  {
    var t2 := AfterMutual(t, p);
    assert t2.nComm == t.nComm && t2.nArcs == t.nArcs && t2.namesK == t.namesK;
    IndividualListsOf(t2, p, Bounds(t, p));
  }

  /** `ActiveK[ k ]` lists exactly the arcs the individual pass keeps, and
    * `NamesK[ k + 1 ] = NamesK[ k ] + cnt` with `cnt` their number. */
  lemma IndividualAfterPreProcess(t: Tables, p: Params)
    requires Preprocessable(t) && PreProcessed(t, p).Done?
    ensures var r := PreProcessed(t, p).t;
      && r.namesK[0] == t.namesK[0]
      && forall k :: 0 <= k < t.nComm ==>
           var keep := KeptFlags(AfterMutual(t, p), p, Bounds(t, p), k);
           && r.activeK[k] == ActiveList(keep, t.nArcs)
           && r.namesK[k + 1] == r.namesK[k] + |Select(keep, t.nArcs)|
  {
    DoneLists(t, p);
    IndividualLists(t, p);
  }

  /** A successful `PreProcess` leaves the lists of the individual pass. */
  lemma DoneLists(t: Tables, p: Params)
    requires Preprocessable(t) && PreProcessed(t, p).Done?
    ensures var t3 := IndividualPassed(AfterMutual(t, p), p, Bounds(t, p));
      PreProcessed(t, p).t.activeK == t3.activeK && PreProcessed(t, p).t.namesK == t3.namesK
  {
    DoneParts(t, p);
  }

  // ---------------------------------------------------------------------
  // Pass 7 (cpp:1527-1582).

  /** The scan from row `k` keeps the flags of the rows before `k`, sets the
    * flag of a later row when it was set or the row equals an earlier row
    * whose final flag is clear, and reports whether it set any. */
  lemma {:induction false} ScanCopiesExact(rows: seq<seq<Num>>, flags: seq<bool>, k: nat)
    requires |flags| == |rows|
    ensures var res := ScanCopies(rows, flags, k);
      && (forall j :: 0 <= j < k && j < |rows| ==> res.0[j] == flags[j])
      && (forall j :: k <= j < |rows| ==>
            (res.0[j] <==> flags[j] || exists i :: 0 <= i < j && !res.0[i] && RowEq(rows[j], rows[i])))
      && (res.1 <==> exists j, i :: k <= j < |rows| && 0 <= i < j && !res.0[i] && RowEq(rows[j], rows[i]))
    decreases |rows| - k
  {
    if k < |rows| {
      var found := EarlierCopy(rows, flags, k);
      var next := if found then flags[k := true] else flags;
      ScanCopiesExact(rows, next, k + 1);
      var res := ScanCopies(rows, flags, k);
      assert res.0 == ScanCopies(rows, next, k + 1).0;
      assert forall j :: 0 <= j < k ==> res.0[j] == flags[j];
      assert res.0[k] == next[k];
      if found {
        var i :| 0 <= i < k && !flags[i] && RowEq(rows[k], rows[i]);
        assert !res.0[i];
      } else {
        assert !exists i :: 0 <= i < k && !res.0[i] && RowEq(rows[k], rows[i]);
      }
    }
  }

  /** Each flag vector that `PreProcess` leaves, for flags that start out
    * clear: row 0 is flagged exactly when `firstIsCopy` (for `U`: when
    * `U[ 0 ] == UTot`), a later row exactly when it equals an earlier row
    * that is not flagged, and the vector is empty exactly when no row is. */
  lemma CopyFlagsExact(rows: seq<seq<Num>>, init: seq<bool>, firstIsCopy: bool)
    requires |rows| >= 1 && forall j :: 0 <= j < |init| ==> !init[j]
    ensures var f := CopyFlags(rows, init, firstIsCopy);
      && (f == [] <==> !firstIsCopy && forall j, i :: 1 <= j < |rows| && 0 <= i < j ==> !RowEq(rows[j], rows[i]))
      && (f != [] ==>
            && |f| == |rows| && (f[0] <==> firstIsCopy)
            && forall j :: 1 <= j < |rows| ==>
                 (f[j] <==> exists i :: 0 <= i < j && !f[i] && RowEq(rows[j], rows[i])))
  {
    var f0 := Resize(init, |rows|, false);
    var f1 := if firstIsCopy then f0[0 := true] else f0;
    assert forall j :: 1 <= j < |rows| ==> !f1[j];
    ScanCopiesExact(rows, f1, 1);
    var res := ScanCopies(rows, f1, 1);
    if !firstIsCopy && !res.1 {
      forall j, i | 1 <= j < |rows| && 0 <= i < j
        ensures !RowEq(rows[j], rows[i])
      {
        if RowEq(rows[j], rows[i]) {
          // either row i is unflagged, or it is itself a copy of an earlier
          // unflagged row: both contradict that no flag was set
          assert false;
        }
      }
    }
  }
}
