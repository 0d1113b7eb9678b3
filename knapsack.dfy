/**
 * The sub-blocks that `generate_abstract_variables` (MMCFBlock.cpp:971-1159)
 * loads: one min-cost-flow block per commodity in the flow formulation, one
 * binary knapsack block per arc in the knapsack formulation.
 */
module Knapsack {
  import opened ExtNum
  import opened Abstract
  import opened Store

  // ---------------------------------------------------------------------
  // Flow formulation (cpp:993-1001).

  /** The `MCFBlock` of commodity `k`: the topology and row `k` of `U`, `C`
    * and `B`, with no solution yet. */
  function FlowBlock(t: Tables, k: nat): SubBlock
    requires WellFormed(t) && k < t.nComm
  {
    McfSub(t.nNodes, t.nArcs, t.startn, t.endn, t.u[k], t.c[k], t.b[k],
           seq(t.nArcs, _ => 0.0), seq(t.nNodes, _ => 0.0))
  }

  function FlowBlocks(t: Tables): (blocks: seq<SubBlock>)
    requires WellFormed(t)
    ensures |blocks| == t.nComm
  {
    seq(t.nComm, k requires 0 <= k < t.nComm => FlowBlock(t, k))
  }

  /** The loop of cpp:995-1000. */
  method BuildFlowBlocks(t: Tables) returns (blocks: seq<SubBlock>)
    requires WellFormed(t)
    ensures blocks == FlowBlocks(t)
  {
    blocks := [];
    for k := 0 to t.nComm
      invariant blocks == FlowBlocks(t)[..k]
    {
      blocks := blocks + [FlowBlock(t, k)];
    }
  }

  /** Sub-block `k` of the flow formulation carries row `k` of the tables,
    * the whole topology, and room for one flow per arc and one potential
    * per node. */
  lemma FlowBlocksCarryCommodities(t: Tables)
    requires WellFormed(t)
    ensures forall k :: 0 <= k < t.nComm ==>
      var s := FlowBlocks(t)[k];
      && s.McfSub? && s.nNodes == t.nNodes && s.nArcs == t.nArcs
      && s.startn == t.startn && s.endn == t.endn
      && s.u == t.u[k] && s.c == t.c[k] && s.b == t.b[k]
      && |s.x| == t.nArcs && |s.pi| == t.nNodes
  {
  }

  // ---------------------------------------------------------------------
  // Knapsack formulation (cpp:1003-1152).

  /** `acc` with `v` added `n` times, as the inner loop of cpp:1027 does. */
  function AddTimes(acc: Num, v: Num, n: nat): Num {
    if n == 0 then acc else Add(AddTimes(acc, v, n - 1), v)
  }

  /** `sumF` after the first `m` rounds of the loop of cpp:1022-1029: each
    * arc adds its fixed cost once per commodity. */
  function SumF(f: seq<Num>, nComm: nat, m: nat): Num
    requires m <= |f|
  {
    if m == 0 then Fin(0.0) else AddTimes(SumF(f, nComm, m - 1), f[m - 1], nComm)
  }

  /** The indices of `F` that the loop of cpp:1022-1029 reads, in order, as
    * it is written: `F[ j ]` for every arc `j` and commodity. */
  function SumFReads(nComm: nat, m: nat): (idx: seq<nat>)
    ensures |idx| == m * nComm
    ensures forall r :: 0 <= r < |idx| ==> idx[r] < m
  {
    if m == 0 then [] else SumFReads(nComm, m - 1) + seq(nComm, _ => m - 1)
  }

  /** As written, the loop reads past the end of `F` whenever `F` holds
    * fewer than `NArcs` entries, in particular when there are no fixed
    * costs at all. */
  lemma SumFReadsPastEnd(f: seq<Num>, nComm: nat, nArcs: nat)
    requires |f| < nArcs && nComm > 0
    ensures exists r :: 0 <= r < |SumFReads(nComm, nArcs)| && SumFReads(nComm, nArcs)[r] >= |f|
  {
    var idx := SumFReads(nComm, nArcs);
    assert idx == SumFReads(nComm, nArcs - 1) + seq(nComm, _ => nArcs - 1);
    assert idx[(nArcs - 1) * nComm] == nArcs - 1;
  }

  /** The extra integral item that models the fixed cost of the arc exists
    * exactly when `F` has one entry per arc and `sumF > 0` (cpp:1043,
    * 1061). `sumF` is only looked at when `F.size() == NArcs`. */
  predicate ExtraItem(t: Tables) {
    |t.f| == t.nArcs && Gt(SumF(t.f, t.nComm, t.nArcs), Fin(0.0))
  }

  /** `sumF` as the loop of cpp:1022-1029 computes it, on a vector `F` that
    * has an entry for every arc. */
  method ComputeSumF(f: seq<Num>, nComm: nat, nArcs: nat) returns (s: Num)
    requires nArcs <= |f|
    ensures s == SumF(f, nComm, nArcs)
  {
    s := Fin(0.0);
    for j := 0 to nArcs
      invariant s == SumF(f, nComm, j)
    {
      ghost var before := s;
      for k := 0 to nComm
        invariant s == AddTimes(before, f[j], k)
      {
        s := Add(s, f[j]);
      }
    }
  }

  /** The real sum of the first `m` entries. */
  function RealSum(f: seq<Num>, m: nat): real
    requires m <= |f|
  {
    if m == 0 then 0.0 else RealSum(f, m - 1) + (if f[m - 1].Fin? then f[m - 1].r else 0.0)
  }

  lemma {:induction false} AddTimesFinite(a: real, v: real, n: nat)
    ensures AddTimes(Fin(a), Fin(v), n) == Fin(a + (n as real) * v)
  {
    if n > 0 {
      AddTimesFinite(a, v, n - 1);
      assert (n as real) * v == ((n - 1) as real) * v + v;
    }
  }

  lemma {:induction false} SumFFinite(f: seq<Num>, nComm: nat, m: nat)
    requires m <= |f| && forall j :: 0 <= j < |f| ==> f[j].Fin?
    ensures SumF(f, nComm, m) == Fin((nComm as real) * RealSum(f, m))
  {
    if m > 0 {
      SumFFinite(f, nComm, m - 1);
      var n, a, v := nComm as real, RealSum(f, m - 1), f[m - 1].r;
      AddTimesFinite(n * a, v, nComm);
      assert RealSum(f, m) == a + v;
      assert f[m - 1] == Fin(v);
      assert SumF(f, nComm, m - 1) == Fin(n * a);
      assert SumF(f, nComm, m) == AddTimes(SumF(f, nComm, m - 1), f[m - 1], nComm);
      assert SumF(f, nComm, m) == AddTimes(Fin(n * a), Fin(v), nComm);
      assert n * (a + v) == n * a + n * v;
    }
  }

  lemma {:induction false} RealSumPositive(f: seq<Num>, m: nat)
    requires m <= |f| && forall j :: 0 <= j < |f| ==> f[j].Fin? && f[j].r >= 0.0
    ensures RealSum(f, m) >= 0.0
    ensures RealSum(f, m) > 0.0 <==> exists j :: 0 <= j < m && f[j].r > 0.0
  {
    if m > 0 {
      RealSumPositive(f, m - 1);
    }
  }

  /** With finite non-negative fixed costs, `sumF > 0` holds exactly when
    * there is a commodity and some arc has a positive fixed cost. */
  lemma SumFPositive(f: seq<Num>, nComm: nat)
    requires forall j :: 0 <= j < |f| ==> f[j].Fin? && f[j].r >= 0.0
    ensures Gt(SumF(f, nComm, |f|), Fin(0.0)) <==> nComm > 0 && exists j :: 0 <= j < |f| && f[j].r > 0.0
  {
    SumFFinite(f, nComm, |f|);
    RealSumPositive(f, |f|);
    var s := RealSum(f, |f|);
    if nComm > 0 && s > 0.0 {
      assert (nComm as real) * s > 0.0;
    }
  }

  /** Which of the two constructions of cpp:1037-1152 applies: the one for
    * a block with some arcs lacking a mutual capacity constraint. */
  predicate FewMutual(t: Tables) {
    t.nCnst != t.nArcs && |t.active| > 0
  }

  /** The weight of item `k` in the block of arc `j`: its capacity, or the
    * penalty `Umax` for a forbidden commodity in the second construction
    * (cpp:1055, 1111-1114). */
  function ItemWeight(t: Tables, j: nat, k: nat): Amount
    requires WellFormed(t) && k < t.nComm && j < t.nArcs
  {
    if !FewMutual(t) && Ge(t.c[k][j], Inf) then Penalty else Exact(t.u[k][j])
  }

  /** The cost of item `k`: `C * U`, or the penalty `Cmax` (times `U` in the
    * second construction) when the arc is forbidden (cpp:1056-1058,
    * 1110-1114). */
  function ItemCost(t: Tables, j: nat, k: nat): Amount
    requires WellFormed(t) && k < t.nComm && j < t.nArcs
  {
    if Ge(t.c[k][j], Inf) then Penalty else Exact(Mul(t.c[k][j], t.u[k][j]))
  }

  function ItemCount(t: Tables): nat {
    t.nComm + if ExtraItem(t) then 1 else 0
  }

  /** The block of arc `j`: one item per commodity, and the fixed-cost item
    * when there is one. */
  function KnapsackBlock(t: Tables, j: nat): SubBlock
    requires WellFormed(t) && j < t.nArcs
  {
    var extra := ExtraItem(t);
    KnapsackSub(ItemCount(t), if extra then Fin(0.0) else t.uTot[j],
      seq(t.nComm, k requires 0 <= k < t.nComm => ItemWeight(t, j, k)) + (if extra then [Exact(Neg(t.uTot[j]))] else []),
      seq(t.nComm, k requires 0 <= k < t.nComm => ItemCost(t, j, k)) + (if extra then [Exact(t.f[j])] else []),
      seq(ItemCount(t), k => k == t.nComm), false, seq(ItemCount(t), _ => 0.0), 0.0)
  }

  function KnapsackBlocks(t: Tables): (blocks: seq<SubBlock>)
    requires WellFormed(t)
    ensures |blocks| == t.nArcs
  {
    seq(t.nArcs, j requires 0 <= j < t.nArcs => KnapsackBlock(t, j))
  }

  /** The weights and costs of the per-commodity items of arc `j`
    * (cpp:1053-1059, 1107-1115). */
  method ArcItems(t: Tables, j: nat, few: bool) returns (weights: seq<Amount>, costs: seq<Amount>)
    requires WellFormed(t) && j < t.nArcs && few == FewMutual(t)
    ensures weights == seq(t.nComm, k requires 0 <= k < t.nComm => ItemWeight(t, j, k))
    ensures costs == seq(t.nComm, k requires 0 <= k < t.nComm => ItemCost(t, j, k))
  {
    weights, costs := [], [];
    for k := 0 to t.nComm
      invariant |weights| == k && forall q :: 0 <= q < k ==> weights[q] == ItemWeight(t, j, q)
      invariant |costs| == k && forall q :: 0 <= q < k ==> costs[q] == ItemCost(t, j, q)
    {
      var w := Exact(t.u[k][j]);
      var c := Exact(Mul(t.c[k][j], t.u[k][j]));
      if Ge(t.c[k][j], Inf) {
        c := Penalty;
        if !few {
          w := Penalty;
        }
      }
      weights, costs := weights + [w], costs + [c];
    }
  }

  /** The knapsack blocks as cpp:1037-1152 builds them, given whether the
    * fixed-cost item exists. */
  method BuildKnapsackBlocks(t: Tables, extra: bool) returns (blocks: seq<SubBlock>)
    requires WellFormed(t) && extra == ExtraItem(t)
    ensures blocks == KnapsackBlocks(t)
  {
    var few := t.nCnst != t.nArcs && |t.active| > 0;
    var items := t.nComm + if extra then 1 else 0;
    var integrality: seq<bool> := [];
    for k := 0 to t.nComm
      invariant integrality == seq(k, _ => false)
    {
      integrality := integrality + [false];
    }
    if extra {
      integrality := integrality + [true];
    }
    assert integrality == seq(ItemCount(t), k => k == t.nComm);
    blocks := [];
    for j := 0 to t.nArcs
      invariant |blocks| == j && forall q :: 0 <= q < j ==> blocks[q] == KnapsackBlock(t, q)
    {
      var weights, costs := ArcItems(t, j, few);
      if extra {
        weights, costs := weights + [Exact(Neg(t.uTot[j]))], costs + [Exact(t.f[j])];
      }
      var bound := if extra then Fin(0.0) else t.uTot[j];
      blocks := blocks + [KnapsackSub(items, bound, weights, costs, integrality, false, seq(items, _ => 0.0), 0.0)];
    }
  }

  /** What the block of each arc holds: `NComm` continuous items carrying the
    * capacity and the cost of the arc for each commodity (penalties for a
    * forbidden commodity), followed by the one integral fixed-cost item of
    * weight `-UTot` exactly when `ExtraItem`, in which case the capacity of
    * the knapsack is 0 instead of `UTot`; the objective sense is `false`.
    * With one non-negative fixed cost per arc, that item is there exactly
    * when there is a commodity and some arc has a positive fixed cost. */
  lemma KnapsackItems(t: Tables)
    requires WellFormed(t)
    ensures |KnapsackBlocks(t)| == t.nArcs
    ensures forall j :: 0 <= j < t.nArcs ==>
      var s := KnapsackBlocks(t)[j];
      && s.KnapsackSub? && !s.sense
      && s.items == t.nComm + (if ExtraItem(t) then 1 else 0)
      && |s.weights| == |s.costs| == |s.integral| == |s.x| == s.items
      && (forall k :: 0 <= k < s.items ==> (s.integral[k] <==> k == t.nComm))
      && s.bound == (if ExtraItem(t) then Fin(0.0) else t.uTot[j])
      && (forall k :: 0 <= k < t.nComm && !Ge(t.c[k][j], Inf) ==>
            s.weights[k] == Exact(t.u[k][j]) && s.costs[k] == Exact(Mul(t.c[k][j], t.u[k][j])))
      && (forall k :: 0 <= k < t.nComm && Ge(t.c[k][j], Inf) ==>
            s.costs[k] == Penalty && (s.weights[k] == Penalty <==> !FewMutual(t)))
      && (ExtraItem(t) ==> s.weights[t.nComm] == Exact(Neg(t.uTot[j])) && s.costs[t.nComm] == Exact(t.f[j]))
    ensures |t.f| == t.nArcs && (forall j :: 0 <= j < t.nArcs ==> t.f[j].Fin? && t.f[j].r >= 0.0) ==>
      (ExtraItem(t) <==> t.nComm > 0 && exists j :: 0 <= j < t.nArcs && t.f[j].r > 0.0)
  {
    if |t.f| == t.nArcs && forall j :: 0 <= j < t.nArcs ==> t.f[j].Fin? && t.f[j].r >= 0.0 {
      SumFPositive(t.f, t.nComm);
    }
  }
}
