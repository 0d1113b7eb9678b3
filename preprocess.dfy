/**
 * `MMCFBlock::PreProcess` (MMCFBlock.cpp:1323-1590) on the tables of the
 * block. Each pass over the tables is specified by a function from tables to
 * tables, computed by a method whose loops follow the source's loops; the
 * whole preprocessor is the composition of the passes.
 */
module Preprocessing {
  import opened ExtNum
  import opened SeqUtil
  import opened Abstract
  import opened Store

  /** What the preprocessor reads: well-formed tables with at least one
    * commodity (`U[ 0 ]` is read at cpp:1548), deficits for every
    * commodity, the per-commodity lists that `CmnIntlz` sizes, and node
    * names that are valid offsets from `StrtNme`. */
  predicate Preprocessable(t: Tables) {
    && WellFormed(t) && t.nComm >= 1 && |t.b| == t.nComm
    && t.nArcs < IndexInf
    && |t.activeK| >= t.nComm && |t.namesK| >= t.nComm + 1
    && (forall i :: 0 <= i < t.nArcs ==> t.strtNme <= t.startn[i] && t.startn[i] - t.strtNme < t.nNodes)
    && (forall i :: 0 <= i < t.nArcs ==> t.strtNme <= t.endn[i] && t.endn[i] - t.strtNme < t.nNodes)
  }

  // ---------------------------------------------------------------------
  // Pass 1 (cpp:1347-1351): arcs touching a node with infinite deficit do
  // not exist.

  /** Arc `i` of commodity `k` has an endpoint whose deficit is `Inf`. */
  predicate DeadEnd(t: Tables, k: nat, i: nat)
    requires Preprocessable(t) && k < t.nComm && i < t.nArcs
  {
    Eq(t.b[k][t.startn[i] - t.strtNme], Inf) || Eq(t.b[k][t.endn[i] - t.strtNme], Inf)
  }

  function DeadArcsRemoved(t: Tables): (r: Tables)
    requires Preprocessable(t)
    ensures Preprocessable(r)
  {
    t.(c := seq(t.nComm, k requires 0 <= k < t.nComm =>
              seq(t.nArcs, i requires 0 <= i < t.nArcs =>
                if DeadEnd(t, k, i) then Inf else t.c[k][i])))
  }

  method RemoveDeadArcs(t: Tables) returns (r: Tables)
    requires Preprocessable(t)
    ensures r == DeadArcsRemoved(t)
  {
    var c := t.c;
    for k := 0 to t.nComm
      invariant |c| == t.nComm
      invariant forall k' :: 0 <= k' < k ==> c[k'] == DeadArcsRemoved(t).c[k']
      invariant forall k' :: k <= k' < t.nComm ==> c[k'] == t.c[k']
    {
      var row := c[k];
      for i := 0 to t.nArcs
        invariant |row| == t.nArcs
        invariant forall a :: 0 <= a < i ==> row[a] == (if DeadEnd(t, k, a) then Inf else t.c[k][a])
        invariant forall a :: i <= a < t.nArcs ==> row[a] == t.c[k][a]
      {
        if Eq(t.b[k][t.startn[i] - t.strtNme], Inf) || Eq(t.b[k][t.endn[i] - t.strtNme], Inf) {
          row := row[i := Inf];
        }
      }
      c := c[k := row];
    }
    r := t.(c := c);
  }

  // ---------------------------------------------------------------------
  // Pass 2 (cpp:1356-1359): non-existent arcs have zero capacity.

  function DeadCapacitiesCleared(t: Tables): (r: Tables)
    requires Preprocessable(t)
    ensures Preprocessable(r)
  {
    t.(u := seq(t.nComm, k requires 0 <= k < t.nComm =>
              seq(t.nArcs, i requires 0 <= i < t.nArcs =>
                if Eq(t.c[k][i], Inf) then Fin(0.0) else t.u[k][i])))
  }

  method ClearDeadCapacities(t: Tables) returns (r: Tables)
    requires Preprocessable(t)
    ensures r == DeadCapacitiesCleared(t)
  {
    var u := t.u;
    for k := 0 to t.nComm
      invariant |u| == t.nComm
      invariant forall k' :: 0 <= k' < k ==> u[k'] == DeadCapacitiesCleared(t).u[k']
      invariant forall k' :: k <= k' < t.nComm ==> u[k'] == t.u[k']
    {
      var row := u[k];
      for i := 0 to t.nArcs
        invariant |row| == t.nArcs
        invariant forall a :: 0 <= a < i ==> row[a] == (if Eq(t.c[k][a], Inf) then Fin(0.0) else t.u[k][a])
        invariant forall a :: i <= a < t.nArcs ==> row[a] == t.u[k][a]
      {
        if Eq(t.c[k][i], Inf) {
          row := row[i := Fin(0.0)];
        }
      }
      u := u[k := row];
    }
    r := t.(u := u);
  }

  // ---------------------------------------------------------------------
  // Pass 3 (cpp:1365-1391): a rough bound tmpv[ k ] on the flow of each
  // commodity on any arc, and their sum maxU.

  /** The total supply `- sum of B[ k ][ n ] < 0` over the first `n` nodes. */
  function Supply(bk: seq<Num>, n: nat): Num
    requires n <= |bk|
  {
    if n == 0 then Fin(0.0)
    else if Lt(bk[n - 1], Fin(0.0)) then Sub(Supply(bk, n - 1), bk[n - 1])
    else Supply(bk, n - 1)
  }

  /** Arc `j` may have a negative reduced cost for commodity `k`. */
  predicate CheapArc(t: Tables, p: Params, k: nat, j: nat)
    requires Preprocessable(t) && k < t.nComm && j < t.nArcs
  {
    Lt(t.c[k][j], p.decCsts)
  }

  /** `std::min( U[ k ][ j ] , UTot[ j ] )`: the most flow of `k` arc `j` takes. */
  function FlowCap(t: Tables, k: nat, j: nat): Num
    requires Preprocessable(t) && k < t.nComm && j < t.nArcs
  {
    Min(t.u[k][j], t.uTot[j])
  }

  /** `base` plus the capacities of the cheap arcs among the first `n`. */
  function CheapFlow(t: Tables, p: Params, k: nat, base: Num, n: nat): Num
    requires Preprocessable(t) && k < t.nComm && n <= t.nArcs
  {
    if n == 0 then base
    else if CheapArc(t, p, k, n - 1) then Add(CheapFlow(t, p, k, base, n - 1), FlowCap(t, k, n - 1))
    else CheapFlow(t, p, k, base, n - 1)
  }

  /** Some cheap arc of commodity `k` has unbounded capacity (cpp:1382). */
  predicate Unbounded(t: Tables, p: Params, k: nat)
    requires Preprocessable(t) && k < t.nComm
  {
    exists j :: 0 <= j < t.nArcs && CheapArc(t, p, k, j) && Ge(FlowCap(t, k, j), Inf)
  }

  predicate EstimateFails(t: Tables, p: Params)
    requires Preprocessable(t)
  {
    exists k :: 0 <= k < t.nComm && Unbounded(t, p, k)
  }

  /** `( ( NNodes + 1 ) / 2 ) * ChgDfct`, with `Index` division. */
  function DeficitSlack(t: Tables, p: Params): Num {
    Mul(Fin(((t.nNodes + 1) / 2) as real), p.chgDfct)
  }

  function FlowEstimate(t: Tables, p: Params, k: nat): Num
    requires Preprocessable(t) && k < t.nComm
  {
    Add(CheapFlow(t, p, k, Supply(t.b[k], |t.b[k]|), t.nArcs), DeficitSlack(t, p))
  }

  function FlowEstimates(t: Tables, p: Params): (v: seq<Num>)
    requires Preprocessable(t)
    ensures |v| == t.nComm
  {
    seq(t.nComm, k requires 0 <= k < t.nComm => FlowEstimate(t, p, k))
  }

  /** `v[ m ] + ... + v[ |v| - 1 ]`, added from the last entry down. */
  function SumFrom(v: seq<Num>, m: nat): Num
    requires m <= |v|
    decreases |v| - m
  {
    if m == |v| then Fin(0.0) else Add(SumFrom(v, m + 1), v[m])
  }

  /** The supply of commodity `k`, computed by the loop of cpp:1370-1374. */
  method ComputeSupply(bk: seq<Num>) returns (maxUk: Num)
    ensures maxUk == Supply(bk, |bk|)
  {
    maxUk := Fin(0.0);
    for n := 0 to |bk|
      invariant maxUk == Supply(bk, n)
    {
      if Lt(bk[n], Fin(0.0)) {
        maxUk := Sub(maxUk, bk[n]);
      }
    }
  }

  /** The estimate of commodity `k` (cpp:1368-1390); `ok` is false when the
    * source throws "negative cost, infinite capacity". */
  method EstimateCommodity(t: Tables, p: Params, k: nat) returns (est: Num, ok: bool)
    requires Preprocessable(t) && k < t.nComm
    ensures ok <==> !Unbounded(t, p, k)
    ensures ok ==> est == FlowEstimate(t, p, k)
  {
    var maxUk := ComputeSupply(t.b[k]);
    ghost var base := maxUk;
    for j := 0 to t.nArcs
      invariant maxUk == CheapFlow(t, p, k, base, j)
      invariant forall j' :: 0 <= j' < j ==> !(CheapArc(t, p, k, j') && Ge(FlowCap(t, k, j'), Inf))
    {
      var tMF := Min(t.u[k][j], t.uTot[j]);
      if Lt(t.c[k][j], p.decCsts) {
        if Ge(tMF, Inf) {
          assert CheapArc(t, p, k, j) && Ge(FlowCap(t, k, j), Inf);
          return Fin(0.0), false;
        }
        maxUk := Add(maxUk, tMF);
      }
    }
    est := Add(maxUk, Mul(Fin(((t.nNodes + 1) / 2) as real), p.chgDfct));
    ok := true;
  }

  /** The loop of cpp:1366-1391 over the commodities, last one first. */
  method EstimateFlows(t: Tables, p: Params) returns (tmpv: seq<Num>, maxU: Num, ok: bool)
    requires Preprocessable(t)
    ensures ok <==> !EstimateFails(t, p)
    ensures ok ==> tmpv == FlowEstimates(t, p) && maxU == SumFrom(tmpv, 0)
  {
    tmpv := seq(t.nComm, _ => Fin(0.0));
    maxU := Fin(0.0);
    var k := t.nComm;
    while k > 0
      invariant 0 <= k <= t.nComm && |tmpv| == t.nComm
      invariant forall k' :: k <= k' < t.nComm ==> tmpv[k'] == FlowEstimate(t, p, k') && !Unbounded(t, p, k')
      invariant maxU == SumFrom(FlowEstimates(t, p), k)
    {
      k := k - 1;
      var est, good := EstimateCommodity(t, p, k);
      if !good {
        return tmpv, maxU, false;
      }
      tmpv := tmpv[k := est];
      maxU := Add(maxU, est);
    }
    assert tmpv == FlowEstimates(t, p);
    ok := true;
  }


  // ---------------------------------------------------------------------
  // Pass 4 (cpp:1397-1446): mutual capacity constraints that can never bind
  // are dropped, the remaining ones are listed in `Active`, and every `UTot`
  // gets a finite value.

  /** What the mutual pass decides for an arc: it does not exist, its mutual
    * capacity constraint is redundant and `UTot` becomes `cap`, or the
    * constraint may bind. */
  datatype Shared = Pruned | Loose(cap: Num) | Binding

  /** `U[ m ][ i ] ... U[ NComm - 1 ][ i ]` bounded by the flow estimates, added
    * from the last commodity down (cpp:1414-1418). */
  function CapFrom(t: Tables, p: Params, tmpv: seq<Num>, i: nat, m: nat): Num
    requires Preprocessable(t) && |tmpv| == t.nComm && i < t.nArcs && m <= t.nComm
    decreases t.nComm - m
  {
    if m == t.nComm then Fin(0.0)
    else Add(CapFrom(t, p, tmpv, i, m + 1),
             if Eq(t.u[m][i], Inf) then tmpv[m] else Min(tmpv[m], Add(t.u[m][i], p.incUjk)))
  }

  /** `Ui`: the most flow of all commodities together that arc `i` can carry. */
  function SharedBound(t: Tables, p: Params, tmpv: seq<Num>, maxU: Num, i: nat): Num
    requires Preprocessable(t) && |tmpv| == t.nComm && i < t.nArcs
  {
    if Lt(p.incUjk, Inf) then CapFrom(t, p, tmpv, i, 0) else maxU
  }

  function SharedFate(t: Tables, p: Params, tmpv: seq<Num>, maxU: Num, i: nat): Shared
    requires Preprocessable(t) && |tmpv| == t.nComm && i < t.nArcs
  {
    if IsZero(p.incUk) && IsZero(t.uTot[i]) then Pruned
    else if Eq(p.decUk, Inf) then (if Eq(t.uTot[i], Inf) then Loose(maxU) else Binding)
    else if Ge(t.uTot[i], Sub(SharedBound(t, p, tmpv, maxU, i), p.decUk)) then Loose(SharedBound(t, p, tmpv, maxU, i))
    else Binding
  }

  function BindingFlags(t: Tables, p: Params, tmpv: seq<Num>, maxU: Num): (keep: seq<bool>)
    requires Preprocessable(t) && |tmpv| == t.nComm
    ensures |keep| == t.nArcs
  {
    seq(t.nArcs, i requires 0 <= i < t.nArcs => SharedFate(t, p, tmpv, maxU, i).Binding?)
  }

  function SharedCost(t: Tables, p: Params, tmpv: seq<Num>, maxU: Num, k: nat, i: nat): Num
    requires Preprocessable(t) && |tmpv| == t.nComm && k < t.nComm && i < t.nArcs
  {
    if SharedFate(t, p, tmpv, maxU, i).Pruned? then Inf else t.c[k][i]
  }

  function SharedCap(t: Tables, p: Params, tmpv: seq<Num>, maxU: Num, k: nat, i: nat): Num
    requires Preprocessable(t) && |tmpv| == t.nComm && k < t.nComm && i < t.nArcs
  {
    if SharedFate(t, p, tmpv, maxU, i).Pruned? then Fin(0.0) else t.u[k][i]
  }

  function SharedTotal(t: Tables, p: Params, tmpv: seq<Num>, maxU: Num, i: nat): Num
    requires Preprocessable(t) && |tmpv| == t.nComm && i < t.nArcs
  {
    match SharedFate(t, p, tmpv, maxU, i)
    case Loose(cap) => cap
    case _ => t.uTot[i]
  }

  function SharedCosts(t: Tables, p: Params, tmpv: seq<Num>, maxU: Num): (m: seq<seq<Num>>)
    requires Preprocessable(t) && |tmpv| == t.nComm
    ensures |m| == t.nComm && forall k :: 0 <= k < t.nComm ==> |m[k]| == t.nArcs
  {
    seq(t.nComm, k requires 0 <= k < t.nComm =>
      seq(t.nArcs, i requires 0 <= i < t.nArcs => SharedCost(t, p, tmpv, maxU, k, i)))
  }

  function SharedCaps(t: Tables, p: Params, tmpv: seq<Num>, maxU: Num): (m: seq<seq<Num>>)
    requires Preprocessable(t) && |tmpv| == t.nComm
    ensures |m| == t.nComm && forall k :: 0 <= k < t.nComm ==> |m[k]| == t.nArcs
  {
    seq(t.nComm, k requires 0 <= k < t.nComm =>
      seq(t.nArcs, i requires 0 <= i < t.nArcs => SharedCap(t, p, tmpv, maxU, k, i)))
  }

  function SharedTotals(t: Tables, p: Params, tmpv: seq<Num>, maxU: Num): (v: seq<Num>)
    requires Preprocessable(t) && |tmpv| == t.nComm
    ensures |v| == t.nArcs
  {
    seq(t.nArcs, i requires 0 <= i < t.nArcs => SharedTotal(t, p, tmpv, maxU, i))
  }

  /** `Active` after the mutual pass: the binding arcs, then what was left
    * there before, with the sentinel after the binding arcs. */
  function SharedList(t: Tables, p: Params, tmpv: seq<Num>, maxU: Num): (a: seq<nat>)
    requires Preprocessable(t) && |t.active| == t.nArcs && |tmpv| == t.nComm
    ensures |a| == t.nArcs
  {
    var keep := BindingFlags(t, p, tmpv, maxU);
    SelectExact(keep, t.nArcs);
    var listed := Select(keep, t.nArcs);
    var active := listed + t.active[|listed|..];
    if |listed| < t.nArcs then active[|listed| := IndexInf] else active
  }

  /** The list the mutual pass leaves is ascending and ends with the sentinel. */
  lemma SharedListShape(t: Tables, p: Params, tmpv: seq<Num>, maxU: Num)
    requires Preprocessable(t) && |t.active| == t.nArcs && |tmpv| == t.nComm
    ensures var listed := Select(BindingFlags(t, p, tmpv, maxU), t.nArcs);
      && |listed| <= t.nArcs
      && SharedList(t, p, tmpv, maxU)[..|listed|] == listed
      && (|listed| < t.nArcs ==> SharedList(t, p, tmpv, maxU)[|listed|] == IndexInf)
      && StrictlyAscending(listed)
      && (forall j :: 0 <= j < |listed| ==> listed[j] < t.nArcs)
  {
    SelectExact(BindingFlags(t, p, tmpv, maxU), t.nArcs);
  }

  function MutualPassed(t: Tables, p: Params, tmpv: seq<Num>, maxU: Num): (r: Tables)
    requires Preprocessable(t) && |t.active| == t.nArcs && |tmpv| == t.nComm
    ensures Preprocessable(r) && ActiveShaped(r)
  {
    SharedListShape(t, p, tmpv, maxU);
    t.(c := SharedCosts(t, p, tmpv, maxU), u := SharedCaps(t, p, tmpv, maxU),
       uTot := SharedTotals(t, p, tmpv, maxU),
       nCnst := |Select(BindingFlags(t, p, tmpv, maxU), t.nArcs)|,
       active := SharedList(t, p, tmpv, maxU))
  }

  /** `Ui` as the loop of cpp:1413-1420 computes it. */
  method ComputeSharedBound(t: Tables, p: Params, tmpv: seq<Num>, maxU: Num, i: nat) returns (ui: Num)
    requires Preprocessable(t) && |tmpv| == t.nComm && i < t.nArcs
    ensures ui == SharedBound(t, p, tmpv, maxU, i)
  {
    ui := Fin(0.0);
    if Lt(p.incUjk, Inf) {
      var k := t.nComm;
      while k > 0
        invariant 0 <= k <= t.nComm
        invariant ui == CapFrom(t, p, tmpv, i, k)
      {
        k := k - 1;
        if Eq(t.u[k][i], Inf) {
          ui := Add(ui, tmpv[k]);
        } else {
          ui := Add(ui, Min(tmpv[k], Add(t.u[k][i], p.incUjk)));
        }
      }
    } else {
      ui := maxU;
    }
  }

  /** Column `i` of every row set to `v` (the loop of cpp:1399-1402). */
  method SetColumn(m: seq<seq<Num>>, i: nat, v: Num, ghost width: nat) returns (r: seq<seq<Num>>)
    requires i < width && forall k :: 0 <= k < |m| ==> |m[k]| == width
    ensures |r| == |m| && forall k :: 0 <= k < |r| ==> |r[k]| == width
    ensures forall k, a :: 0 <= k < |m| && 0 <= a < width ==> r[k][a] == if a == i then v else m[k][a]
  {
    r := m;
    var k := |m|;
    while k > 0
      invariant 0 <= k <= |m| && |r| == |m|
      invariant forall k' :: 0 <= k' < |r| ==> |r[k']| == width
      invariant forall k', a :: 0 <= k' < |m| && 0 <= a < width ==>
        r[k'][a] == if a == i && k' >= k then v else m[k'][a]
    {
      k := k - 1;
      r := r[k := r[k][i := v]];
    }
  }

  /** The first `i` columns of `m` hold `f`, the others those of `orig`. */
  ghost predicate ColumnsSoFar(m: seq<seq<Num>>, orig: seq<seq<Num>>, f: seq<seq<Num>>, i: nat, width: nat)
    requires |orig| == |f| && (forall k :: 0 <= k < |orig| ==> |orig[k]| == width && |f[k]| == width)
  {
    && |m| == |orig| && (forall k :: 0 <= k < |m| ==> |m[k]| == width)
    && forall k, a :: 0 <= k < |m| && 0 <= a < width ==> m[k][a] == if a < i then f[k][a] else orig[k][a]
  }

  /** Updating column `i` to its final value extends `ColumnsSoFar` by one. */
  lemma ColumnsAdvance(m: seq<seq<Num>>, m': seq<seq<Num>>, orig: seq<seq<Num>>, f: seq<seq<Num>>, i: nat, width: nat)
    requires |orig| == |f| && (forall k :: 0 <= k < |orig| ==> |orig[k]| == width && |f[k]| == width)
    requires i < width && ColumnsSoFar(m, orig, f, i, width)
    requires |m'| == |m| && (forall k :: 0 <= k < |m'| ==> |m'[k]| == width)
    requires forall k, a :: 0 <= k < |m| && 0 <= a < width ==> m'[k][a] == if a == i then f[k][i] else m[k][a]
    ensures ColumnsSoFar(m', orig, f, i + 1, width)
  {
  }

  /** The state of the loop of cpp:1397-1446 after its first `i` arcs. */
  ghost predicate MutualSoFar(t: Tables, p: Params, tmpv: seq<Num>, maxU: Num, i: nat,
                              c: seq<seq<Num>>, u: seq<seq<Num>>, uTot: seq<Num>,
                              active: seq<nat>, nCnst: nat)
    requires Preprocessable(t) && |t.active| == t.nArcs && |tmpv| == t.nComm && i <= t.nArcs
  {
    && ColumnsSoFar(c, t.c, SharedCosts(t, p, tmpv, maxU), i, t.nArcs)
    && ColumnsSoFar(u, t.u, SharedCaps(t, p, tmpv, maxU), i, t.nArcs)
    && |uTot| == t.nArcs && |active| == t.nArcs
    && (forall a :: 0 <= a < t.nArcs ==> uTot[a] == if a < i then SharedTotal(t, p, tmpv, maxU, a) else t.uTot[a])
    && nCnst == |Select(BindingFlags(t, p, tmpv, maxU), i)| && nCnst <= i
    && active[..nCnst] == Select(BindingFlags(t, p, tmpv, maxU), i)
    && active[nCnst..] == t.active[nCnst..]
  }

  /** The step on the costs and capacities of arc `i`. */
  lemma ColumnsStep(t: Tables, p: Params, tmpv: seq<Num>, maxU: Num, i: nat,
                    c: seq<seq<Num>>, u: seq<seq<Num>>, c': seq<seq<Num>>, u': seq<seq<Num>>)
    requires Preprocessable(t) && |tmpv| == t.nComm && i < t.nArcs
    requires ColumnsSoFar(c, t.c, SharedCosts(t, p, tmpv, maxU), i, t.nArcs)
    requires ColumnsSoFar(u, t.u, SharedCaps(t, p, tmpv, maxU), i, t.nArcs)
    requires SharedFate(t, p, tmpv, maxU, i).Pruned? ==>
      && |c'| == t.nComm && (forall k :: 0 <= k < t.nComm ==> |c'[k]| == t.nArcs)
      && |u'| == t.nComm && (forall k :: 0 <= k < t.nComm ==> |u'[k]| == t.nArcs)
      && (forall k, a :: 0 <= k < t.nComm && 0 <= a < t.nArcs ==> c'[k][a] == if a == i then Inf else c[k][a])
      && (forall k, a :: 0 <= k < t.nComm && 0 <= a < t.nArcs ==> u'[k][a] == if a == i then Fin(0.0) else u[k][a])
    requires !SharedFate(t, p, tmpv, maxU, i).Pruned? ==> c' == c && u' == u
    ensures ColumnsSoFar(c', t.c, SharedCosts(t, p, tmpv, maxU), i + 1, t.nArcs)
    ensures ColumnsSoFar(u', t.u, SharedCaps(t, p, tmpv, maxU), i + 1, t.nArcs)
  {
    var sc, su := SharedCosts(t, p, tmpv, maxU), SharedCaps(t, p, tmpv, maxU);
    assert forall k :: 0 <= k < t.nComm ==> sc[k][i] == SharedCost(t, p, tmpv, maxU, k, i);
    assert forall k :: 0 <= k < t.nComm ==> su[k][i] == SharedCap(t, p, tmpv, maxU, k, i);
    ColumnsAdvance(c, c', t.c, sc, i, t.nArcs);
    ColumnsAdvance(u, u', t.u, su, i, t.nArcs);
  }

  /** The step on `Active` and `NCnst` for arc `i`. */
  lemma ListStep(t: Tables, p: Params, tmpv: seq<Num>, maxU: Num, i: nat,
                 active: seq<nat>, nCnst: nat, active': seq<nat>, nCnst': nat)
    requires Preprocessable(t) && |t.active| == t.nArcs && |tmpv| == t.nComm && i < t.nArcs
    requires |active| == t.nArcs
    requires nCnst == |Select(BindingFlags(t, p, tmpv, maxU), i)| && nCnst <= i
    requires active[..nCnst] == Select(BindingFlags(t, p, tmpv, maxU), i)
    requires active[nCnst..] == t.active[nCnst..]
    requires SharedFate(t, p, tmpv, maxU, i).Binding? ==> active' == active[nCnst := i] && nCnst' == nCnst + 1
    requires !SharedFate(t, p, tmpv, maxU, i).Binding? ==> active' == active && nCnst' == nCnst
    ensures |active'| == t.nArcs
    ensures nCnst' == |Select(BindingFlags(t, p, tmpv, maxU), i + 1)| && nCnst' <= i + 1
    ensures active'[..nCnst'] == Select(BindingFlags(t, p, tmpv, maxU), i + 1)
    ensures active'[nCnst'..] == t.active[nCnst'..]
  {
    var keep := BindingFlags(t, p, tmpv, maxU);
    assert keep[i] == SharedFate(t, p, tmpv, maxU, i).Binding?;
    if keep[i] {
      assert active'[..nCnst'] == active[..nCnst] + [i];
      assert active'[nCnst'..] == active[nCnst'..];
    }
  }

  /** One iteration of the loop of cpp:1397-1446, on arc `i`. */
  method SqueezeArc(t: Tables, p: Params, tmpv: seq<Num>, maxU: Num, i: nat,
                    c: seq<seq<Num>>, u: seq<seq<Num>>, uTot: seq<Num>, active: seq<nat>, nCnst: nat)
    returns (c': seq<seq<Num>>, u': seq<seq<Num>>, uTot': seq<Num>, active': seq<nat>, nCnst': nat)
    requires Preprocessable(t) && |t.active| == t.nArcs && |tmpv| == t.nComm && i < t.nArcs
    requires MutualSoFar(t, p, tmpv, maxU, i, c, u, uTot, active, nCnst)
    ensures MutualSoFar(t, p, tmpv, maxU, i + 1, c', u', uTot', active', nCnst')
  {
    ghost var fate := SharedFate(t, p, tmpv, maxU, i);
    assert uTot[i] == t.uTot[i];
    c', u', uTot', active', nCnst' := c, u, uTot, active, nCnst;
    if IsZero(p.incUk) && IsZero(uTot[i]) {
      c' := SetColumn(c, i, Inf, t.nArcs);
      u' := SetColumn(u, i, Fin(0.0), t.nArcs);
    } else if Eq(p.decUk, Inf) {
      if Eq(uTot[i], Inf) {
        uTot' := uTot[i := maxU];
      } else {
        active' := active[nCnst := i];
        nCnst' := nCnst + 1;
      }
    } else {
      var ui := ComputeSharedBound(t, p, tmpv, maxU, i);
      if Ge(uTot[i], Sub(ui, p.decUk)) {
        uTot' := uTot[i := ui];
      } else {
        active' := active[nCnst := i];
        nCnst' := nCnst + 1;
      }
    }
    ColumnsStep(t, p, tmpv, maxU, i, c, u, c', u');
    ListStep(t, p, tmpv, maxU, i, active, nCnst, active', nCnst');
    assert uTot'[i] == SharedTotal(t, p, tmpv, maxU, i);
  }

  /** The state after the last arc, with the sentinel, is the mutual pass. */
  lemma MutualAssembled(t: Tables, p: Params, tmpv: seq<Num>, maxU: Num,
                        c: seq<seq<Num>>, u: seq<seq<Num>>, uTot: seq<Num>, active: seq<nat>, nCnst: nat)
    requires Preprocessable(t) && |t.active| == t.nArcs && |tmpv| == t.nComm
    requires MutualSoFar(t, p, tmpv, maxU, t.nArcs, c, u, uTot, active, nCnst)
    ensures t.(c := c, u := u, uTot := uTot, nCnst := nCnst,
               active := if nCnst < t.nArcs then active[nCnst := IndexInf] else active)
            == MutualPassed(t, p, tmpv, maxU)
  {
    var keep := BindingFlags(t, p, tmpv, maxU);
    SelectExact(keep, t.nArcs);
    assert active == Select(keep, t.nArcs) + t.active[nCnst..] by {
      assert active == active[..nCnst] + active[nCnst..];
    }
    var sc, su := SharedCosts(t, p, tmpv, maxU), SharedCaps(t, p, tmpv, maxU);
    assert forall k :: 0 <= k < t.nComm ==> c[k] == sc[k];
    assert forall k :: 0 <= k < t.nComm ==> u[k] == su[k];
    assert uTot == SharedTotals(t, p, tmpv, maxU);
  }

  /** The loop of cpp:1397-1446, then the sentinel of cpp:1445-1446. */
  method SqueezeMutual(t: Tables, p: Params, tmpv: seq<Num>, maxU: Num) returns (r: Tables)
    requires Preprocessable(t) && |t.active| == t.nArcs && |tmpv| == t.nComm
    ensures r == MutualPassed(t, p, tmpv, maxU)
  {
    var c, u, uTot := t.c, t.u, t.uTot;
    var active: seq<nat> := t.active;
    var nCnst: nat := 0;
    for i := 0 to t.nArcs
      invariant MutualSoFar(t, p, tmpv, maxU, i, c, u, uTot, active, nCnst)
    {
      c, u, uTot, active, nCnst := SqueezeArc(t, p, tmpv, maxU, i, c, u, uTot, active, nCnst);
    }
    MutualAssembled(t, p, tmpv, maxU, c, u, uTot, active, nCnst);
    if nCnst < t.nArcs {
      active := active[nCnst := IndexInf];
    }
    r := t.(c := c, u := u, uTot := uTot, nCnst := nCnst, active := active);
  }

  // ---------------------------------------------------------------------
  // Pass 5 (cpp:1451-1520): individual capacities that can never bind are
  // squeezed, arcs without capacity are dropped, and the remaining
  // individual capacity constraints are listed in `ActiveK[ k ]`.

  /** Arc `i` has a mutual capacity constraint. */
  predicate ActiveArc(t: Tables, i: nat)
    requires t.nCnst <= |t.active|
  {
    i in t.active[..t.nCnst]
  }

  /** What the individual pass decides for arc `i` of commodity `k`: it did
    * not exist, it is dropped, its capacity is redundant and becomes `cap`,
    * or its individual capacity constraint is kept. */
  datatype Single = Absent | Dropped | Clamped(cap: Num) | Kept

  function SingleFate(t: Tables, p: Params, tmpv: seq<Num>, k: nat, i: nat): Single
    requires Preprocessable(t) && ActiveShaped(t) && |tmpv| == t.nComm && k < t.nComm && i < t.nArcs
  {
    if Eq(t.c[k][i], Inf) then Absent
    else if IsZero(p.incUjk) && IsZero(t.u[k][i]) then Dropped
    else if Lt(p.decUjk, Inf) && Ge(t.u[k][i], Add(tmpv[k], p.decUjk)) then Clamped(Min(tmpv[k], t.uTot[i]))
    else if Lt(p.decUjk, Inf) && Lt(p.incUk, Inf) && ActiveArc(t, i)
            && Ge(t.u[k][i], Add(Add(t.uTot[i], p.incUk), p.decUjk)) then Clamped(t.uTot[i])
    else Kept
  }

  function KeptFlags(t: Tables, p: Params, tmpv: seq<Num>, k: nat): (keep: seq<bool>)
    requires Preprocessable(t) && ActiveShaped(t) && |tmpv| == t.nComm && k < t.nComm
    ensures |keep| == t.nArcs
  {
    seq(t.nArcs, i requires 0 <= i < t.nArcs => SingleFate(t, p, tmpv, k, i).Kept?)
  }

  function SingleCosts(t: Tables, p: Params, tmpv: seq<Num>, k: nat): (row: seq<Num>)
    requires Preprocessable(t) && ActiveShaped(t) && |tmpv| == t.nComm && k < t.nComm
    ensures |row| == t.nArcs
  {
    seq(t.nArcs, i requires 0 <= i < t.nArcs =>
      if SingleFate(t, p, tmpv, k, i).Dropped? then Inf else t.c[k][i])
  }

  function SingleCaps(t: Tables, p: Params, tmpv: seq<Num>, k: nat): (row: seq<Num>)
    requires Preprocessable(t) && ActiveShaped(t) && |tmpv| == t.nComm && k < t.nComm
    ensures |row| == t.nArcs
  {
    seq(t.nArcs, i requires 0 <= i < t.nArcs =>
      match SingleFate(t, p, tmpv, k, i)
      case Clamped(cap) => cap
      case _ => t.u[k][i])
  }

  /** A list of the kept indices ended by the sentinel; empty when every
    * index is kept (cpp:1513-1518). */
  function ActiveList(keep: seq<bool>, n: nat): seq<nat>
    requires n <= |keep|
  {
    var s := Select(keep, n);
    if |s| >= n then [] else s + [IndexInf]
  }

  function KeptCounts(t: Tables, p: Params, tmpv: seq<Num>): (counts: seq<nat>)
    requires Preprocessable(t) && ActiveShaped(t) && |tmpv| == t.nComm
    ensures |counts| == t.nComm
  {
    seq(t.nComm, k requires 0 <= k < t.nComm => |Select(KeptFlags(t, p, tmpv, k), t.nArcs)|)
  }

  /** `NamesK[ 0 .. |counts| ]` as cpp:1511 fills it: each entry is the
    * previous one plus the count of its commodity. */
  function NamesChain(n0: nat, counts: seq<nat>): (r: seq<nat>)
    ensures |r| == |counts| + 1 && r[0] == n0
    ensures forall k :: 0 <= k < |counts| ==> r[k + 1] == r[k] + counts[k]
  {
    if |counts| == 0 then [n0]
    else
      var prev := NamesChain(n0, counts[..|counts| - 1]);
      prev + [prev[|counts| - 1] + counts[|counts| - 1]]
  }

  function IndividualPassed(t: Tables, p: Params, tmpv: seq<Num>): (r: Tables)
    requires Preprocessable(t) && ActiveShaped(t) && |tmpv| == t.nComm
    ensures Preprocessable(r) && ActiveShaped(r)
  {
    t.(c := seq(t.nComm, k requires 0 <= k < t.nComm => SingleCosts(t, p, tmpv, k)),
       u := seq(t.nComm, k requires 0 <= k < t.nComm => SingleCaps(t, p, tmpv, k)),
       activeK := seq(|t.activeK|, k requires 0 <= k < |t.activeK| =>
                    if k < t.nComm then ActiveList(KeptFlags(t, p, tmpv, k), t.nArcs) else t.activeK[k]),
       namesK := NamesChain(t.namesK[0], KeptCounts(t, p, tmpv)) + t.namesK[t.nComm + 1..])
  }

  /** The cursor `count1` of cpp:1459-1461 walks `Active` in step with `i`:
    * `Active[ count1 ] == i` exactly when arc `i` is listed there. */
  lemma CursorStep(t: Tables, count1: nat, i: nat)
    requires ActiveShaped(t) && i < t.nArcs && count1 <= i && count1 <= t.nCnst
    requires forall j :: 0 <= j < count1 ==> t.active[j] < i
    requires forall j :: count1 <= j < t.nCnst ==> t.active[j] >= i
    ensures (t.active[count1] == i) <==> ActiveArc(t, i)
    ensures var next := if t.active[count1] == i then count1 + 1 else count1;
      && next <= t.nCnst
      && (forall j :: 0 <= j < next ==> t.active[j] < i + 1)
      && (forall j :: next <= j < t.nCnst ==> t.active[j] >= i + 1)
  {
    var listed := t.active[..t.nCnst];
    assert forall j :: 0 <= j < t.nCnst ==> listed[j] == t.active[j];
    if count1 < t.nCnst {
      assert forall j :: count1 < j < t.nCnst ==> t.active[count1] < t.active[j] by {
        forall j | count1 < j < t.nCnst ensures t.active[count1] < t.active[j] {
          assert listed[count1] < listed[j];
        }
      }
      if t.active[count1] != i {
        assert forall j :: 0 <= j < t.nCnst ==> listed[j] != i;
      }
    } else {
      assert forall j :: 0 <= j < t.nCnst ==> listed[j] != i;
    }
  }

  /** The first `i` entries of `m` hold those of `f`, the others those of `orig`. */
  ghost predicate RowSoFar(m: seq<Num>, orig: seq<Num>, f: seq<Num>, i: nat) {
    && |m| == |orig| == |f|
    && forall a :: 0 <= a < |m| ==> m[a] == if a < i then f[a] else orig[a]
  }

  lemma RowAdvance(m: seq<Num>, orig: seq<Num>, f: seq<Num>, i: nat)
    requires RowSoFar(m, orig, f, i) && i < |m|
    ensures RowSoFar(m[i := f[i]], orig, f, i + 1)
  {
  }

  /** `row[ ..cnt ]` lists the kept indices below `i`. */
  ghost predicate ListSoFar(keep: seq<bool>, i: nat, row: seq<nat>, cnt: nat)
    requires i <= |keep|
  {
    cnt == |Select(keep, i)| && cnt <= i && cnt <= |row| && row[..cnt] == Select(keep, i)
  }

  lemma ListAdvance(keep: seq<bool>, i: nat, row: seq<nat>, cnt: nat, row': seq<nat>, cnt': nat)
    requires i < |keep| && |row| == |keep| && ListSoFar(keep, i, row, cnt)
    requires keep[i] ==> row' == row[cnt := i] && cnt' == cnt + 1
    requires !keep[i] ==> row' == row && cnt' == cnt
    ensures |row'| == |keep| && ListSoFar(keep, i + 1, row', cnt')
  {
    SelectExact(keep, i + 1);
    if keep[i] {
      assert row'[..cnt'] == row[..cnt] + [i];
    }
  }

  /** `count1` is the number of listed mutual constraints on arcs below `i`. */
  ghost predicate CursorSoFar(t: Tables, i: nat, count1: nat) {
    && count1 <= i && count1 <= t.nCnst && t.nCnst <= |t.active|
    && (forall j :: 0 <= j < count1 ==> t.active[j] < i)
    && (forall j :: count1 <= j < t.nCnst ==> t.active[j] >= i)
  }

  /** The state of the loop of cpp:1457-1509 on commodity `k` after its
    * first `i` arcs. */
  ghost predicate SingleSoFar(t: Tables, p: Params, tmpv: seq<Num>, k: nat, i: nat,
                              ck: seq<Num>, uk: seq<Num>, row: seq<nat>, cnt: nat, count1: nat)
    requires Preprocessable(t) && ActiveShaped(t) && |tmpv| == t.nComm && k < t.nComm && i <= t.nArcs
  {
    && RowSoFar(ck, t.c[k], SingleCosts(t, p, tmpv, k), i)
    && RowSoFar(uk, t.u[k], SingleCaps(t, p, tmpv, k), i)
    && |row| == t.nArcs
    && ListSoFar(KeptFlags(t, p, tmpv, k), i, row, cnt)
    && CursorSoFar(t, i, count1)
  }

  /** Applying the fate of arc `i` extends `SingleSoFar` by one. */
  lemma SingleStep(t: Tables, p: Params, tmpv: seq<Num>, k: nat, i: nat,
                   ck: seq<Num>, uk: seq<Num>, row: seq<nat>, cnt: nat, count1: nat,
                   ck': seq<Num>, uk': seq<Num>, row': seq<nat>, cnt': nat, count1': nat)
    requires Preprocessable(t) && ActiveShaped(t) && |tmpv| == t.nComm && k < t.nComm && i < t.nArcs
    requires SingleSoFar(t, p, tmpv, k, i, ck, uk, row, cnt, count1)
    requires count1' == if t.active[count1] == i then count1 + 1 else count1
    requires ck' == if SingleFate(t, p, tmpv, k, i).Dropped? then ck[i := Inf] else ck
    requires uk' == match SingleFate(t, p, tmpv, k, i) case Clamped(v) => uk[i := v] case _ => uk
    requires SingleFate(t, p, tmpv, k, i).Kept? ==> row' == row[cnt := i] && cnt' == cnt + 1
    requires !SingleFate(t, p, tmpv, k, i).Kept? ==> row' == row && cnt' == cnt
    ensures SingleSoFar(t, p, tmpv, k, i + 1, ck', uk', row', cnt', count1')
  {
    var costs, caps := SingleCosts(t, p, tmpv, k), SingleCaps(t, p, tmpv, k);
    assert ck' == ck[i := costs[i]];
    assert uk' == uk[i := caps[i]];
    RowAdvance(ck, t.c[k], costs, i);
    RowAdvance(uk, t.u[k], caps, i);
    var keep := KeptFlags(t, p, tmpv, k);
    assert keep[i] == SingleFate(t, p, tmpv, k, i).Kept?;
    ListAdvance(keep, i, row, cnt, row', cnt');
    CursorStep(t, count1, i);
  }

  /** One iteration of the loop of cpp:1457-1509, on arc `i` of commodity `k`. */
  method SqueezeSingle(t: Tables, p: Params, tmpv: seq<Num>, k: nat, i: nat,
                       ck: seq<Num>, uk: seq<Num>, row: seq<nat>, cnt: nat, count1: nat)
    returns (ck': seq<Num>, uk': seq<Num>, row': seq<nat>, cnt': nat, count1': nat)
    requires Preprocessable(t) && ActiveShaped(t) && |tmpv| == t.nComm && k < t.nComm && i < t.nArcs
    requires SingleSoFar(t, p, tmpv, k, i, ck, uk, row, cnt, count1)
    ensures SingleSoFar(t, p, tmpv, k, i + 1, ck', uk', row', cnt', count1')
  {
    CursorStep(t, count1, i);
    assert ck[i] == t.c[k][i] && uk[i] == t.u[k][i] && cnt < |row|;
    ck', uk', row', cnt', count1' := ck, uk, row, cnt, count1;
    var ai := t.active[count1] == i;
    if ai {
      count1' := count1 + 1;
    }
    if Eq(ck[i], Inf) {
    } else if IsZero(p.incUjk) && IsZero(uk[i]) {
      ck' := ck[i := Inf];
    } else if Lt(p.decUjk, Inf) && Ge(uk[i], Add(tmpv[k], p.decUjk)) {
      uk' := uk[i := Min(tmpv[k], t.uTot[i])];
    } else if Lt(p.decUjk, Inf) && Lt(p.incUk, Inf) && ai && Ge(uk[i], Add(Add(t.uTot[i], p.incUk), p.decUjk)) {
      uk' := uk[i := t.uTot[i]];
    } else {
      row' := row[cnt := i];
      cnt' := cnt + 1;
    }
    SingleStep(t, p, tmpv, k, i, ck, uk, row, cnt, count1, ck', uk', row', cnt', count1');
  }

  /** The loop of cpp:1457-1509 on commodity `k`, then the end of its
    * active list (cpp:1513-1518). `count2` of the source always equals
    * `cnt`, so one counter stands for both. */
  method SqueezeCommodity(t: Tables, p: Params, tmpv: seq<Num>, k: nat)
    returns (ck: seq<Num>, uk: seq<Num>, ak: seq<nat>, cnt: nat)
    requires Preprocessable(t) && ActiveShaped(t) && |tmpv| == t.nComm && k < t.nComm
    ensures ck == SingleCosts(t, p, tmpv, k) && uk == SingleCaps(t, p, tmpv, k)
    ensures ak == ActiveList(KeptFlags(t, p, tmpv, k), t.nArcs)
    ensures cnt == |Select(KeptFlags(t, p, tmpv, k), t.nArcs)|
  {
    ck, uk := t.c[k], t.u[k];
    var row: seq<nat> := seq(t.nArcs, _ => 0);
    cnt := 0;
    var count1 := 0;
    for i := 0 to t.nArcs
      invariant SingleSoFar(t, p, tmpv, k, i, ck, uk, row, cnt, count1)
    {
      ck, uk, row, cnt, count1 := SqueezeSingle(t, p, tmpv, k, i, ck, uk, row, cnt, count1);
    }
    SelectExact(KeptFlags(t, p, tmpv, k), t.nArcs);
    if cnt >= t.nArcs {
      ak := [];
    } else {
      ak := row[..cnt + 1][cnt := IndexInf];
      assert ak == row[..cnt] + [IndexInf];
    }
  }

  /** The rows of the first `k` commodities hold their final values. */
  ghost predicate RowsSoFar(t: Tables, p: Params, tmpv: seq<Num>, k: nat,
                            c: seq<seq<Num>>, u: seq<seq<Num>>, activeK: seq<seq<nat>>)
    requires Preprocessable(t) && ActiveShaped(t) && |tmpv| == t.nComm && k <= t.nComm
  {
    && |c| == t.nComm && |u| == t.nComm && |activeK| == |t.activeK|
    && (forall k' :: 0 <= k' < k ==> c[k'] == SingleCosts(t, p, tmpv, k') && u[k'] == SingleCaps(t, p, tmpv, k'))
    && (forall k' :: 0 <= k' < k ==> activeK[k'] == ActiveList(KeptFlags(t, p, tmpv, k'), t.nArcs))
    && (forall k' :: k <= k' < t.nComm ==> c[k'] == t.c[k'] && u[k'] == t.u[k'])
    && (forall k' :: k <= k' < |activeK| ==> activeK[k'] == t.activeK[k'])
  }

  /** `NamesK[ 0 .. k ]` holds the running sums of the first `k` counts. */
  ghost predicate NamesSoFar(n0: nat, counts: seq<nat>, k: nat, names: seq<nat>, orig: seq<nat>)
    requires k <= |counts| && |counts| + 1 <= |orig|
  {
    && |names| == |orig|
    && names[..k + 1] == NamesChain(n0, counts[..k])
    && names[k + 1..] == orig[k + 1..]
  }

  lemma NamesStep(n0: nat, counts: seq<nat>, k: nat, names: seq<nat>, orig: seq<nat>)
    requires k < |counts| && |counts| + 1 <= |orig|
    requires NamesSoFar(n0, counts, k, names, orig)
    ensures NamesSoFar(n0, counts, k + 1, names[k + 1 := names[k] + counts[k]], orig)
  {
    assert counts[..k + 1][..k] == counts[..k];
    var names' := names[k + 1 := names[k] + counts[k]];
    assert names'[..k + 2] == names[..k + 1] + [names[k] + counts[k]];
  }

  /** The state of the loop of cpp:1451-1520 after its first `k` commodities. */
  ghost predicate IndividualSoFar(t: Tables, p: Params, tmpv: seq<Num>, k: nat,
                                  c: seq<seq<Num>>, u: seq<seq<Num>>, activeK: seq<seq<nat>>, namesK: seq<nat>)
    requires Preprocessable(t) && ActiveShaped(t) && |tmpv| == t.nComm && k <= t.nComm
  {
    RowsSoFar(t, p, tmpv, k, c, u, activeK) && NamesSoFar(t.namesK[0], KeptCounts(t, p, tmpv), k, namesK, t.namesK)
  }

  lemma IndividualAssembled(t: Tables, p: Params, tmpv: seq<Num>,
                            c: seq<seq<Num>>, u: seq<seq<Num>>, activeK: seq<seq<nat>>, namesK: seq<nat>)
    requires Preprocessable(t) && ActiveShaped(t) && |tmpv| == t.nComm
    requires IndividualSoFar(t, p, tmpv, t.nComm, c, u, activeK, namesK)
    ensures t.(c := c, u := u, activeK := activeK, namesK := namesK) == IndividualPassed(t, p, tmpv)
  {
    var counts := KeptCounts(t, p, tmpv);
    assert counts[..t.nComm] == counts;
    assert namesK == namesK[..t.nComm + 1] + namesK[t.nComm + 1..];
    var r := IndividualPassed(t, p, tmpv);
    assert c == r.c;
    assert u == r.u;
    assert activeK == r.activeK;
  }

  /** Storing the results for commodity `k` extends `IndividualSoFar` by one. */
  lemma IndividualStep(t: Tables, p: Params, tmpv: seq<Num>, k: nat,
                       c: seq<seq<Num>>, u: seq<seq<Num>>, activeK: seq<seq<nat>>, namesK: seq<nat>,
                       ck: seq<Num>, uk: seq<Num>, ak: seq<nat>, cnt: nat)
    requires Preprocessable(t) && ActiveShaped(t) && |tmpv| == t.nComm && k < t.nComm
    requires IndividualSoFar(t, p, tmpv, k, c, u, activeK, namesK)
    requires ck == SingleCosts(t, p, tmpv, k) && uk == SingleCaps(t, p, tmpv, k)
    requires ak == ActiveList(KeptFlags(t, p, tmpv, k), t.nArcs)
    requires cnt == |Select(KeptFlags(t, p, tmpv, k), t.nArcs)|
    ensures IndividualSoFar(t, p, tmpv, k + 1, c[k := ck], u[k := uk], activeK[k := ak],
                            namesK[k + 1 := namesK[k] + cnt])
  {
    NamesStep(t.namesK[0], KeptCounts(t, p, tmpv), k, namesK, t.namesK);
  }

  /** The loop of cpp:1451-1520 over the commodities. */
  method SqueezeIndividual(t: Tables, p: Params, tmpv: seq<Num>) returns (r: Tables)
    requires Preprocessable(t) && ActiveShaped(t) && |tmpv| == t.nComm
    ensures r == IndividualPassed(t, p, tmpv)
  {
    var c, u, activeK, namesK := t.c, t.u, t.activeK, t.namesK;
    for k := 0 to t.nComm
      invariant IndividualSoFar(t, p, tmpv, k, c, u, activeK, namesK)
    {
      var ck, uk, ak, cnt := SqueezeCommodity(t, p, tmpv, k);
      IndividualStep(t, p, tmpv, k, c, u, activeK, namesK, ck, uk, ak, cnt);
      c := c[k := ck];
      u := u[k := uk];
      activeK := activeK[k := ak];
      namesK := namesK[k + 1 := namesK[k] + cnt];
    }
    IndividualAssembled(t, p, tmpv, c, u, activeK, namesK);
    r := t.(c := c, u := u, activeK := activeK, namesK := namesK);
  }

  // ---------------------------------------------------------------------
  // Pass 7 (cpp:1527-1582): rows of `B`, `U` and `C` equal to an earlier row
  // that is not itself a copy are flagged as copies.

  /** Row `k` equals an earlier row not flagged as a copy. */
  predicate EarlierCopy(rows: seq<seq<Num>>, flags: seq<bool>, k: nat)
    requires k < |rows| == |flags|
  {
    exists i :: 0 <= i < k && !flags[i] && RowEq(rows[k], rows[i])
  }

  /** The flags after the scan of rows `k ..`, and whether a copy was found. */
  function ScanCopies(rows: seq<seq<Num>>, flags: seq<bool>, k: nat): (res: (seq<bool>, bool))
    requires |flags| == |rows|
    ensures |res.0| == |rows|
    decreases |rows| - k
  {
    if k >= |rows| then (flags, false)
    else if EarlierCopy(rows, flags, k) then (ScanCopies(rows, flags[k := true], k + 1).0, true)
    else ScanCopies(rows, flags, k + 1)
  }

  /** What one of `BIsCpy`, `UIsCpy`, `CIsCpy` becomes: resized,
    * row 0 flagged when `firstIsCopy` (only for `U`, cpp:1550-1554), the scan
    * from row 1, and cleared when no flag was set by this call. */
  function CopyFlags(rows: seq<seq<Num>>, init: seq<bool>, firstIsCopy: bool): seq<bool>
    requires firstIsCopy ==> |rows| >= 1
  {
    var f0 := Resize(init, |rows|, false);
    var f1 := if firstIsCopy then f0[0 := true] else f0;
    var res := ScanCopies(rows, f1, 1);
    if firstIsCopy || res.1 then res.0 else []
  }

  function CopiesFlagged(t: Tables): (r: Tables)
    requires Preprocessable(t)
    ensures Preprocessable(r)
  {
    t.(bIsCpy := CopyFlags(t.b, t.bIsCpy, false),
       uIsCpy := CopyFlags(t.u, t.uIsCpy, RowEq(t.u[0], t.uTot)),
       cIsCpy := CopyFlags(t.c, t.cIsCpy, false))
  }

  /** One of the three loops of cpp:1527-1582. The copy of row `i` into row
    * `k` leaves the rows as they were, since the two are equal. */
  method DetectCopies(rows: seq<seq<Num>>, init: seq<bool>, firstIsCopy: bool)
    returns (rows': seq<seq<Num>>, flags: seq<bool>)
    requires firstIsCopy ==> |rows| >= 1
    ensures rows' == rows
    ensures flags == CopyFlags(rows, init, firstIsCopy)
  {
    rows' := rows;
    flags := Resize(init, |rows|, false);
    var cpy := false;
    if firstIsCopy {
      flags := flags[0 := true];
      cpy := true;
    }
    ghost var goal := ScanCopies(rows, flags, 1);
    var k := 1;
    while k < |rows|
      invariant 1 <= k && |flags| == |rows| && rows' == rows
      invariant ScanCopies(rows, flags, k).0 == goal.0
      invariant (cpy || ScanCopies(rows, flags, k).1) == (firstIsCopy || goal.1)
    {
      var found := false;
      for i := 0 to k
        invariant rows' == rows && !found
        invariant forall i' :: 0 <= i' < i ==> !(!flags[i'] && RowEq(rows[k], rows[i']))
      {
        if !flags[i] && RowEq(rows'[k], rows'[i]) {
          RowEqIsIdentity(rows'[k], rows'[i]);
          rows' := rows'[k := rows'[i]];
          found := true;
          break;
        }
      }
      if found {
        flags := flags[k := true];
        cpy := true;
      }
      k := k + 1;
    }
    if !cpy {
      flags := [];
    }
  }

  // ---------------------------------------------------------------------
  // The whole preprocessor.

  /** The outcome of `PreProcess`: the tables it leaves, and the exception
    * it throws if any. After a throw the tables are as far as the loops got. */
  datatype PreResult = Done(t: Tables) | Failed(error: Failure, t: Tables)

  /** The tables after `Active.resize( NArcs )` and the first two passes. */
  function Cleaned(t: Tables): (r: Tables)
    requires Preprocessable(t)
    ensures Preprocessable(r) && |r.active| == r.nArcs
  {
    DeadCapacitiesCleared(DeadArcsRemoved(t.(active := Resize(t.active, t.nArcs, 0))))
  }

  function PreProcessed(t: Tables, p: Params): PreResult
    requires Preprocessable(t)
  {
    if Ge(p.chgDfct, Inf) then Failed(InvalidArgument("infinite ChgDfct"), t)
    else if Gt(p.decCsts, Inf) then Failed(InvalidArgument("infinite DecCsts"), t)
    else
      var t1 := Cleaned(t);
      if EstimateFails(t1, p) then Failed(InvalidArgument("negative cost, infinite capacity"), t1)
      else
        var tmpv := FlowEstimates(t1, p);
        var t2 := MutualPassed(t1, p, tmpv, SumFrom(tmpv, 0));
        var t3 := IndividualPassed(t2, p, tmpv);
        var t4 := if t3.nCnst >= t3.nArcs then t3.(active := []) else t3;
        Done(CopiesFlagged(t4))
  }

  /** `PreProcess` on the tables (cpp:1323-1590). */
  method PreProcessTables(t: Tables, p: Params) returns (r: PreResult)
    requires Preprocessable(t)
    ensures r == PreProcessed(t, p)
  {
    if Ge(p.chgDfct, Inf) {
      return Failed(InvalidArgument("infinite ChgDfct"), t);
    }
    if Gt(p.decCsts, Inf) {
      return Failed(InvalidArgument("infinite DecCsts"), t);
    }
    var t1 := t.(active := Resize(t.active, t.nArcs, 0));
    t1 := RemoveDeadArcs(t1);
    t1 := ClearDeadCapacities(t1);
    var tmpv, maxU, ok := EstimateFlows(t1, p);
    if !ok {
      return Failed(InvalidArgument("negative cost, infinite capacity"), t1);
    }
    var t2 := SqueezeMutual(t1, p, tmpv, maxU);
    var t3 := SqueezeIndividual(t2, p, tmpv);
    if t3.nCnst >= t3.nArcs {
      t3 := t3.(active := []);
    }
    var b, bIsCpy := DetectCopies(t3.b, t3.bIsCpy, false);
    var u, uIsCpy := DetectCopies(t3.u, t3.uIsCpy, RowEq(t3.u[0], t3.uTot));
    var c, cIsCpy := DetectCopies(t3.c, t3.cIsCpy, false);
    r := Done(t3.(b := b, u := u, c := c, bIsCpy := bIsCpy, uIsCpy := uIsCpy, cIsCpy := cIsCpy));
  }

  /** What a successful `PreProcess` leaves, field by field. */
  lemma DoneParts(t: Tables, p: Params)
    requires Preprocessable(t) && PreProcessed(t, p).Done?
    ensures !Ge(p.chgDfct, Inf) && !EstimateFails(Cleaned(t), p)
    ensures var t1 := Cleaned(t);
      var tmpv := FlowEstimates(t1, p);
      var t2 := MutualPassed(t1, p, tmpv, SumFrom(tmpv, 0));
      var t3 := IndividualPassed(t2, p, tmpv);
      var r := PreProcessed(t, p).t;
      && r.nNodes == t.nNodes && r.nArcs == t.nArcs && r.nComm == t.nComm && r.strtNme == t.strtNme
      && r.startn == t.startn && r.endn == t.endn && r.b == t.b && r.f == t.f
      && r.c == t3.c && r.u == t3.u && r.uTot == t2.uTot && r.nCnst == t2.nCnst
      && r.active == (if t2.nCnst >= t2.nArcs then [] else t2.active)
      && r.activeK == t3.activeK && r.namesK == t3.namesK
      && r.bIsCpy == CopyFlags(t.b, t.bIsCpy, false)
      && r.uIsCpy == CopyFlags(t3.u, t.uIsCpy, RowEq(t3.u[0], t2.uTot))
      && r.cIsCpy == CopyFlags(t3.c, t.cIsCpy, false)
  {
  }
}
