/**
 * The block itself (MMCFBlock.h:102-560): the data store, the `AR` byte,
 * the sub-blocks and the static constraints, with the operations that
 * initialise and preprocess the data, build the two formulations, read and
 * write solution values, change the fixed costs and tear everything down.
 */
module Mmcf {
  import opened ExtNum
  import opened SeqUtil
  import opened ArBits
  import opened Abstract
  import opened Store
  import opened Preprocessing
  import opened Initialise
  import opened Knapsack
  import opened Coupling

  /** `MCFType`: the kind of flow sub-problem of a commodity. */
  datatype McfType = KMcf | KSpt

  /** The configuration value read at cpp:979-987 and cpp:1169-1177: the one
    * passed in, else the block's own, else 0, cast to `unsigned char`. */
  function Selected(given: Option<int>, own: Option<int>): bv8 {
    if given.Some? then ToUChar(given.value) else if own.Some? then ToUChar(own.value) else 0
  }

  // ---------------------------------------------------------------------
  // chg_fixed_costs (MMCFBlock.h:445-461).

  /** The entries of `C` and `U` that `chg_fixed_costs` reads exist. */
  predicate CostsReadable(t: Tables) {
    && |t.c| >= t.nComm && |t.u| >= t.nComm
    && (forall k :: 0 <= k < t.nComm ==> |t.c[k]| >= t.nArcs && |t.u[k]| >= t.nArcs)
  }

  /** `Cmean[ i ]` after the first `m` commodities: `C * U / NComm` added
    * for each commodity whose cost is below `Inf`. */
  function CostMean(t: Tables, i: nat, m: nat): Num
    requires CostsReadable(t) && i < t.nArcs && m <= t.nComm
  {
    if m == 0 then Fin(0.0)
    else
      var k := m - 1;
      if Lt(t.c[k][i], Inf) then Add(CostMean(t, i, k), DivBy(Mul(t.c[k][i], t.u[k][i]), t.nComm))
      else CostMean(t, i, k)
  }

  function Larger(a: nat, b: nat): nat { if a < b then b else a }

  /** `F` after `chg_fixed_costs( seed , lambda )`: grown to `NArcs` entries
    * if shorter, the first `NArcs` set to `lambda * Cmean`, the rest kept. */
  function FixedCosts(t: Tables, lambda: real): (f: seq<Num>)
    requires CostsReadable(t)
    ensures |f| == Larger(|t.f|, t.nArcs)
    ensures forall i :: t.nArcs <= i < |t.f| ==> f[i] == t.f[i]
  {
    seq(Larger(|t.f|, t.nArcs), i requires 0 <= i < Larger(|t.f|, t.nArcs) =>
      if i < t.nArcs then Mul(Fin(lambda), CostMean(t, i, t.nComm)) else t.f[i])
  }

  class MMCFBlock {
    var ar: bv8
    var nXtrV: nat
    var nXtrC: nat
    var idxBeg: seq<nat>
    var coefIdx: seq<nat>
    var coefVal: seq<Num>
    /** The data store: the counts `NNodes`, `NArcs`, `NComm`, `NCnst`, the
      * tables `C`, `U`, `B`, `UTot`, `F`, the topology, `StrtNme`,
      * `NamesK`, `Active`, `ActiveK` and the `*IsCpy` flags. */
    var data: Tables
    /** `I`, the integrality table. */
    var integrality: seq<seq<Num>>
    var drctdPrb: bool
    var pt: seq<McfType>
    var mcs: seq<Row>
    var fcs: seq<seq<Row>>
    var slcs: seq<seq<Row>>
    /** `v_Block`, the sub-blocks. */
    var vBlock: seq<SubBlock>
    /** The static variables and constraints configurations of the block's
      * `BlockConfig`, reduced to the integer they carry. */
    var varsConfig: Option<int>
    var consConfig: Option<int>

    /** `MMCFBlock( father )` (MMCFBlock.h:109): `AR` is 0 and every vector
      * is empty; the counts, which C++ leaves indeterminate, are taken 0. */
    constructor()
      ensures data == Tables(0, 0, 0, 0, [], [], [], [], [], [], [], 0, [], [], [], [], [], [])
      ensures ar == 0 && vBlock == [] && mcs == [] && fcs == [] && slcs == []
      ensures nXtrV == 0 && nXtrC == 0 && idxBeg == [] && coefIdx == [] && coefVal == []
      ensures integrality == [] && !drctdPrb && pt == [] && varsConfig == None && consConfig == None
    {
      ar, nXtrV, nXtrC, idxBeg, coefIdx, coefVal := 0, 0, 0, [], [], [];
      data := Tables(0, 0, 0, 0, [], [], [], [], [], [], [], 0, [], [], [], [], [], []);
      integrality, drctdPrb, pt := [], false, [];
      mcs, fcs, slcs, vBlock := [], [], [], [];
      varsConfig, consConfig := None, None;
    }

    /** A block whose tables a loader has just filled in, before the common
      * initialisation. */
    constructor Loaded(t: Tables, varsConfig: Option<int>, consConfig: Option<int>)
      ensures data == t
      ensures ar == 0 && vBlock == [] && mcs == [] && fcs == [] && slcs == []
      ensures nXtrV == 0 && nXtrC == 0 && idxBeg == [] && coefIdx == [] && coefVal == []
      ensures integrality == [] && !drctdPrb && pt == []
      ensures this.varsConfig == varsConfig && this.consConfig == consConfig
    {
      ar, nXtrV, nXtrC, idxBeg, coefIdx, coefVal := 0, 0, 0, [], [], [];
      data := t;
      integrality, drctdPrb, pt := [], false, [];
      mcs, fcs, slcs, vBlock := [], [], [], [];
      this.varsConfig, this.consConfig := varsConfig, consConfig;
    }

    /** `CmnIntlz` (cpp:1719-1769), with the lists written as the
      * preprocessor writes them. */
    method CmnIntlz()
      requires WellFormed(data)
      modifies this`data, this`drctdPrb, this`pt
      ensures data == Initialized(old(data))
      ensures drctdPrb && |pt| == old(data.nComm) && forall k :: 0 <= k < |pt| ==> pt[k] == KMcf
    {
      var n := data.nComm;
      var kinds := Resize(pt, n, KMcf);
      var k: nat := n;
      while k > 0
        invariant k <= n && |kinds| == n
        invariant forall q :: k <= q < |kinds| ==> kinds[q] == KMcf
      {
        k := k - 1;
        kinds := kinds[k := KMcf];
      }
      data := InitialiseTables(data);
      drctdPrb, pt := true, kinds;
    }

    /** `PreProcess( IncUk , DecUk , IncUjk , DecUjk , ChgDfct , DecCsts )`
      * (cpp:1323-1590): the tables as the passes leave them, and the
      * exception if one is thrown. */
    method PreProcess(p: Params) returns (o: Outcome)
      requires Preprocessable(data)
      modifies this`data
      ensures var r := PreProcessed(old(data), p);
        && data == r.t
        && o == (if r.Done? then Pass else Fail(r.error))
    {
      var r := PreProcessTables(data, p);
      data := r.t;
      o := if r.Done? then Pass else Fail(r.error);
    }

    /** `useFlowRelaxation()` (MMCFBlock.h:303-305). */
    predicate UseFlowRelaxation()
      reads this
    {
      ar & KnapsackRelaxation == 0
    }

    /** `generate_abstract_variables` (cpp:971-1159): once only; records the
      * formulation in `AR`, loads one flow block per commodity or one
      * knapsack block per arc, and sets `HasVar`. */
    method GenerateAbstractVariables(config: Option<int>)
      requires WellFormed(data)
      modifies this`ar, this`vBlock
      ensures old(ar) & HasVar != 0 ==> ar == old(ar) && vBlock == old(vBlock)
      ensures old(ar) & HasVar == 0 ==>
        var fr := Selected(config, old(varsConfig));
        && ar == StoreFormulation(old(ar), fr) | HasVar
        && ar & HasVar != 0
        && (UseFlowRelaxation() <==> fr & 1 == 0)
        && vBlock == (if UseFlowRelaxation() then FlowBlocks(data) else KnapsackBlocks(data))
    {
      if ar & HasVar != 0 {
        return;
      }
      var fr := Selected(config, varsConfig);
      ar := StoreFormulation(ar, fr);
      var t := data;
      if ar & KnapsackRelaxation == 0 {
        vBlock := BuildFlowBlocks(t);
      } else {
        var extra := false;
        if |t.f| == t.nArcs {
          var sumF := ComputeSumF(t.f, t.nComm, t.nArcs);
          extra := Gt(sumF, Fin(0.0));
        }
        vBlock := BuildKnapsackBlocks(t, extra);
      }
      ar := ar | HasVar;
    }

    /** `generate_abstract_constraints` (cpp:1163-1317): once only; records
      * `slc` in `AR`, then builds the mutual capacity rows of the flow
      * formulation (throwing at the first arc with infinite `UTot`), or the
      * flow conservation rows and, with `slc`, the strong forcing rows of
      * the knapsack formulation; sets `HasMutual` unless it threw. */
    method GenerateAbstractConstraints(config: Option<int>) returns (o: Outcome)
      requires WellFormed(data) && ActiveReadable(data)
      requires ar & HasMutual == 0 ==> ar & HasVar != 0
      modifies this`ar, this`mcs, this`fcs, this`slcs
      ensures old(ar) & HasMutual != 0 ==>
        ar == old(ar) && mcs == old(mcs) && fcs == old(fcs) && slcs == old(slcs) && o == Pass
      ensures old(ar) & HasMutual == 0 ==>
        var ar1 := StoreStrongForcing(old(ar), Selected(config, old(consConfig)));
        if ar1 & KnapsackRelaxation == 0 then
          var rows := MutualRows(data, old(mcs));
          && mcs == rows.rows && fcs == old(fcs) && slcs == old(slcs)
          && (rows.error.None? ==> ar == ar1 | HasMutual && o == Pass)
          && (rows.error.Some? ==> ar == ar1 && o == Fail(rows.error.value))
        else
          && mcs == old(mcs) && fcs == NodeRows(data)
          && slcs == (if ar1 & Slc != 0 then SlcRows(data) else old(slcs))
          && ar == ar1 | HasMutual && o == Pass
    {
      if ar & HasMutual != 0 {
        return Pass;
      }
      ar := StoreStrongForcing(ar, Selected(config, consConfig));
      var t := data;
      if ar & KnapsackRelaxation == 0 {
        var rows, error := BuildMutualRows(t, mcs);
        mcs := rows;
        if error.Some? {
          return Fail(error.value);
        }
      } else {
        fcs := BuildNodeRows(t);
        if ar & Slc != 0 {
          slcs := BuildSlcRows(t);
        }
      }
      ar := ar | HasMutual;
      o := Pass;
    }

    // -------------------------------------------------------------------
    // Reading and writing solution values (MMCFBlock.h:318-423).

    /** The sub-block value that `get_flow( k , i )` reads exists: in the
      * flow formulation flow `i` of block `k`, in the knapsack formulation
      * item `k` of block `i` (and `U[ k ][ i ]` unless `k == NComm`). */
    predicate FlowReadable(k: nat, i: nat)
      reads this
    {
      ar & HasVar != 0 ==>
        if ar & KnapsackRelaxation == 0 then k < |vBlock| && vBlock[k].McfSub? && i < |vBlock[k].x|
        else i < |vBlock| && vBlock[i].KnapsackSub? && k < |vBlock[i].x|
             && (k != data.nComm ==> k < |data.u| && i < |data.u[k]|)
    }

    /** `get_flow( k , i )` (MMCFBlock.h:325-334). */
    function GetFlow(k: nat, i: nat): Num
      reads this
      requires FlowReadable(k, i)
    {
      if ar & HasVar == 0 then Fin(0.0)
      else if ar & KnapsackRelaxation == 0 then Fin(vBlock[k].x[i])
      else
        var xk := Fin(vBlock[i].x[k]);
        if k == data.nComm then xk else Mul(data.u[k][i], xk)
    }

    /** `get_flow( fk , k )` (MMCFBlock.h:339-357): zeros before the
      * variables exist, otherwise `get_flow( k , i )` for every arc `i`. */
    method GetFlowVector(fk: array<Num>, k: nat)
      requires ar & HasVar != 0 ==> fk.Length >= data.nArcs && forall i :: 0 <= i < data.nArcs ==> FlowReadable(k, i)
      modifies fk
      ensures ar & HasVar == 0 ==> forall j :: 0 <= j < fk.Length ==> fk[j] == Fin(0.0)
      ensures ar & HasVar != 0 ==> forall j :: 0 <= j < fk.Length ==>
        fk[j] == if j < data.nArcs then GetFlow(k, j) else old(fk[j])
    {
      if ar & HasVar == 0 {
        for j := 0 to fk.Length
          invariant forall q :: 0 <= q < j ==> fk[q] == Fin(0.0)
        {
          fk[j] := Fin(0.0);
        }
        return;
      }
      for i := 0 to data.nArcs
        invariant forall q :: 0 <= q < i ==> fk[q] == GetFlow(k, q)
        invariant forall q :: i <= q < fk.Length ==> fk[q] == old(fk[q])
      {
        assert FlowReadable(k, i);
        if ar & KnapsackRelaxation == 0 {
          fk[i] := Fin(vBlock[k].x[i]);
        } else if k == data.nComm {
          fk[i] := Fin(vBlock[i].x[k]);
        } else {
          fk[i] := Mul(data.u[k][i], Fin(vBlock[i].x[k]));
        }
      }
    }

    /** `get_flow_variable( k , i )` (MMCFBlock.h:362-371). */
    function GetFlowVariable(k: nat, i: nat): Var
      reads this
    {
      if ar & HasVar == 0 then NoVar
      else if ar & KnapsackRelaxation == 0 then FlowVar(k, i)
      else ItemVar(i, k)
    }

    /** Variable `v` exists in the sub-blocks: flow `j` of the flow block
      * `k`, or item `item` of the knapsack block `j`. */
    predicate VarHeld(v: Var)
      reads this
    {
      match v
      case NoVar => false
      case FlowVar(k, j) => k < |vBlock| && vBlock[k].McfSub? && j < |vBlock[k].x|
      case ItemVar(j, item) => j < |vBlock| && vBlock[j].KnapsackSub? && item < |vBlock[j].x|
    }

    /** The value a solver left in variable `v`. */
    function VarValue(v: Var): real
      reads this
      requires VarHeld(v)
    {
      match v
      case FlowVar(k, j) => vBlock[k].x[j]
      case ItemVar(j, item) => vBlock[j].x[item]
    }

    /** The value `get_potential( k , i )` reads exists. */
    predicate PotentialReadable(k: nat, i: nat)
      reads this
    {
      ar & HasMutual != 0 ==>
        if ar & KnapsackRelaxation == 0 then k < |vBlock| && vBlock[k].McfSub? && i < |vBlock[k].pi|
        else k < |fcs| && i < |fcs[k]|
    }

    /** `get_potential( k , i )` (MMCFBlock.h:376-383). */
    function GetPotential(k: nat, i: nat): real
      reads this
      requires PotentialReadable(k, i)
    {
      if ar & HasMutual == 0 then 0.0
      else if ar & KnapsackRelaxation == 0 then vBlock[k].pi[i]
      else fcs[k][i].dual
    }

    /** The value `get_dual( i )` reads exists. */
    predicate DualReadable(i: nat)
      reads this
    {
      ar & HasMutual != 0 ==>
        if ar & KnapsackRelaxation == 0 then i < |mcs|
        else i < |vBlock| && vBlock[i].KnapsackSub?
    }

    /** `get_dual( i )` (MMCFBlock.h:388-397). */
    function GetDual(i: nat): real
      reads this
      requires DualReadable(i)
    {
      if ar & HasMutual == 0 then 0.0
      else if ar & KnapsackRelaxation == 0 then mcs[i].dual
      else vBlock[i].dual
    }

    /** `set_potential( pi , k , i )` (MMCFBlock.h:402-411): once the
      * constraints exist, the potential of node `i` of commodity `k` reads
      * `pi` afterwards and every other potential is unchanged; before, it
      * does nothing. */
    method SetPotential(pi: real, k: nat, i: nat)
      requires PotentialReadable(k, i)
      modifies this`vBlock, this`fcs
      ensures old(ar) & HasMutual == 0 ==> vBlock == old(vBlock) && fcs == old(fcs)
      ensures old(ar) & HasMutual != 0 ==>
        if UseFlowRelaxation() then
          fcs == old(fcs) && vBlock == old(vBlock)[k := old(vBlock)[k].(pi := old(vBlock)[k].pi[i := pi])]
        else
          vBlock == old(vBlock) && fcs == old(fcs)[k := old(fcs)[k][i := old(fcs)[k][i].(dual := pi)]]
      ensures old(ar) & HasMutual != 0 ==> PotentialReadable(k, i) && GetPotential(k, i) == pi
      ensures forall k2: nat, i2: nat :: (k2, i2) != (k, i) && old(PotentialReadable(k2, i2)) ==>
        PotentialReadable(k2, i2) && GetPotential(k2, i2) == old(GetPotential(k2, i2))
    {
      if ar & HasMutual != 0 {
        if ar & KnapsackRelaxation == 0 {
          vBlock := vBlock[k := vBlock[k].(pi := vBlock[k].pi[i := pi])];
        } else {
          fcs := fcs[k := fcs[k][i := fcs[k][i].(dual := pi)]];
        }
      }
    }

    /** `set_dual( pi , i )` (MMCFBlock.h:416-423): once the constraints
      * exist, the dual of linking constraint `i` reads `pi` afterwards and
      * every other dual is unchanged; before, it does nothing. */
    method SetDual(pi: real, i: nat)
      requires DualReadable(i)
      modifies this`vBlock, this`mcs
      ensures old(ar) & HasMutual == 0 ==> vBlock == old(vBlock) && mcs == old(mcs)
      ensures old(ar) & HasMutual != 0 ==>
        if UseFlowRelaxation() then
          vBlock == old(vBlock) && mcs == old(mcs)[i := old(mcs)[i].(dual := pi)]
        else
          mcs == old(mcs) && vBlock == old(vBlock)[i := old(vBlock)[i].(dual := pi)]
      ensures old(ar) & HasMutual != 0 ==> DualReadable(i) && GetDual(i) == pi
      ensures forall i2: nat :: i2 != i && old(DualReadable(i2)) ==> DualReadable(i2) && GetDual(i2) == old(GetDual(i2))
    {
      if ar & HasMutual != 0 {
        if ar & KnapsackRelaxation == 0 {
          mcs := mcs[i := mcs[i].(dual := pi)];
        } else {
          vBlock := vBlock[i := vBlock[i].(dual := pi)];
        }
      }
    }

    /** `chg_fixed_costs( seed , lambda )` (MMCFBlock.h:445-461); `seed`
      * is not used. */
    method ChgFixedCosts(seed: int, lambda: real)
      requires CostsReadable(data)
      modifies this`data
      ensures data == old(data).(f := FixedCosts(old(data), lambda))
    {
      var t := data;
      var mean: seq<Num> := [];
      for i := 0 to t.nArcs
        invariant |mean| == i && forall j :: 0 <= j < i ==> mean[j] == CostMean(t, j, t.nComm)
      {
        var m := Fin(0.0);
        for k := 0 to t.nComm
          invariant m == CostMean(t, i, k)
        {
          if Lt(t.c[k][i], Inf) {
            m := Add(m, DivBy(Mul(t.c[k][i], t.u[k][i]), t.nComm));
          }
        }
        mean := mean + [m];
      }
      var fs := t.f;
      if |fs| < t.nArcs {
        fs := Resize(fs, t.nArcs, Fin(0.0));
      }
      for i := 0 to t.nArcs
        invariant |fs| == Larger(|t.f|, t.nArcs)
        invariant forall j :: 0 <= j < i ==> fs[j] == Mul(Fin(lambda), mean[j])
        invariant forall j :: i <= j < |fs| ==> fs[j] == if j < |t.f| then t.f[j] else Fin(0.0)
      {
        fs := fs[i := Mul(Fin(lambda), mean[i])];
      }
      data := t.(f := fs);
    }

    /** `guts_of_destructor` (cpp:1775-1839): `AR` back to 0, every table,
      * list and constraint emptied and the sub-blocks gone; the counts stay. */
    method GutsOfDestructor()
      modifies this
      ensures ar == 0 && vBlock == [] && mcs == [] && fcs == [] && slcs == []
      ensures data == old(data).(startn := [], endn := [], c := [], u := [], b := [], uTot := [], f := [],
                                 namesK := [], active := [], activeK := [],
                                 cIsCpy := [], uIsCpy := [], bIsCpy := [])
      ensures nXtrV == 0 && nXtrC == 0 && idxBeg == [] && coefIdx == [] && coefVal == [] && integrality == [] && pt == []
      ensures drctdPrb == old(drctdPrb) && varsConfig == old(varsConfig) && consConfig == old(consConfig)
    {
      ClearRepresentation();
      ClearTables();
    }

    /** The constraints and sub-blocks of cpp:1780-1806, and `AR` (cpp:1837). */
    method ClearRepresentation()
      modifies this`ar, this`vBlock, this`mcs, this`fcs, this`slcs
      ensures ar == 0 && vBlock == [] && mcs == [] && fcs == [] && slcs == []
    {
      mcs, fcs, slcs, vBlock := [], [], [], [];
      ar := 0;
    }

    /** The tables and lists of cpp:1808-1828. */
    method ClearTables()
      modifies this`data, this`nXtrV, this`nXtrC, this`idxBeg, this`coefIdx, this`coefVal,
               this`integrality, this`pt
      ensures data == old(data).(startn := [], endn := [], c := [], u := [], b := [], uTot := [], f := [],
                                 namesK := [], active := [], activeK := [],
                                 cIsCpy := [], uIsCpy := [], bIsCpy := [])
      ensures nXtrV == 0 && nXtrC == 0 && idxBeg == [] && coefIdx == [] && coefVal == [] && integrality == [] && pt == []
    {
      nXtrV, nXtrC := 0, 0;
      idxBeg, coefIdx, coefVal := [], [], [];
      integrality, pt := [], [];
      data := data.(startn := [], endn := [], c := [], u := [], b := [], uTot := [], f := [],
                    namesK := [], active := [], activeK := [],
                    cIsCpy := [], uIsCpy := [], bIsCpy := []);
    }
  }

  /** Before `HasVar` is set, `get_flow` reads 0 and `get_flow_variable`
    * `nullptr` for every index; before `HasMutual` is set, so do
    * `get_potential` and `get_dual` (MMCFBlock.h:325-326, 363-364, 377-378,
    * 390-391). In particular after `guts_of_destructor`. */
  lemma UnbuiltReadsZero(bl: MMCFBlock)
    ensures bl.ar & HasVar == 0 ==> forall k: nat, i: nat ::
      bl.FlowReadable(k, i) && bl.GetFlow(k, i) == Fin(0.0) && bl.GetFlowVariable(k, i) == NoVar
    ensures bl.ar & HasMutual == 0 ==> forall k: nat, i: nat ::
      bl.PotentialReadable(k, i) && bl.GetPotential(k, i) == 0.0
    ensures bl.ar & HasMutual == 0 ==> forall i: nat :: bl.DualReadable(i) && bl.GetDual(i) == 0.0
  {
  }

  /** `useFlowRelaxation()` (MMCFBlock.h:303-305) answers what the
    * configuration `fr` chose at cpp:989: the flow formulation exactly when
    * bit 0 of `fr` is clear, and setting `HasVar` afterwards does not change
    * the answer. */
  lemma RelaxationFromConfiguration(bl: MMCFBlock, ar0: bv8, fr: bv8)
    requires bl.ar == StoreFormulation(ar0, fr) | HasVar
    ensures bl.ar & HasVar != 0
    ensures bl.UseFlowRelaxation() <==> fr & 1 == 0
  {
    var r := StoreFormulation(ar0, fr);
    assert (r | HasVar) & KnapsackRelaxation == r & KnapsackRelaxation;
  }

  /** Once the variables exist, `get_flow( k , i )` reads the value of the
    * variable `get_flow_variable( k , i )` names (MMCFBlock.h:325-334 and
    * 362-371). The indices swap with the formulation: variable `i` of the
    * flow block `k`, or item `k` of the knapsack block `i`, whose value is
    * rescaled by `U[ k ][ i ]` unless `k` is the fixed-cost item `NComm`. */
  lemma FlowReadsItsVariable(bl: MMCFBlock, k: nat, i: nat)
    requires bl.ar & HasVar != 0 && bl.FlowReadable(k, i)
    ensures var v := bl.GetFlowVariable(k, i);
      && bl.VarHeld(v)
      && (bl.UseFlowRelaxation() ==> v == FlowVar(k, i) && bl.GetFlow(k, i) == Fin(bl.VarValue(v)))
      && (!bl.UseFlowRelaxation() ==>
            && v == ItemVar(i, k)
            && bl.GetFlow(k, i) == if k == bl.data.nComm then Fin(bl.VarValue(v))
                                   else Mul(bl.data.u[k][i], Fin(bl.VarValue(v))))
  {
  }

  /** In the knapsack formulation, on the rows `generate_abstract_constraints`
    * has just built, `get_potential( k , i )` reads the dual of the flow
    * conservation row of node `i` for commodity `k` (MMCFBlock.h:376-383):
    * the equality row whose both sides are `B[ k ][ i ]`, holding no dual
    * value until a solver writes one. */
  lemma PotentialOfNodeRow(bl: MMCFBlock, k: nat, i: nat)
    requires WellFormed(bl.data) && k < bl.data.nComm && i < bl.data.nNodes
    requires bl.ar & HasMutual != 0 && !bl.UseFlowRelaxation() && bl.fcs == NodeRows(bl.data)
    ensures bl.PotentialReadable(k, i)
    ensures bl.GetPotential(k, i) == bl.fcs[k][i].dual == 0.0
    ensures bl.fcs[k][i].lhs == bl.fcs[k][i].rhs == bl.data.b[k][i]
  {
  }

  /** In the flow formulation, on the rows built without throwing,
    * `get_dual( q )` reads the dual of the `q`-th mutual capacity row
    * (MMCFBlock.h:388-397), the one bounding arc `MutualArcs[ q ]` by its
    * `UTot`: that is arc `q` itself when every arc has a row, and otherwise
    * the `q`-th binding arc of `Active`. */
  lemma DualOfMutualRow(bl: MMCFBlock, prev: seq<Row>, q: nat)
    requires WellFormed(bl.data) && ActiveReadable(bl.data)
    requires bl.ar & HasMutual != 0 && bl.UseFlowRelaxation()
    requires MutualRows(bl.data, prev).error.None? && bl.mcs == MutualRows(bl.data, prev).rows
    requires q < |MutualArcs(bl.data)|
    ensures bl.DualReadable(q) && bl.GetDual(q) == bl.mcs[q].dual
    ensures bl.mcs[q].rhs == bl.data.uTot[MutualArcs(bl.data)[q]]
    ensures bl.data.nCnst == bl.data.nArcs || |bl.data.active| == 0 ==> MutualArcs(bl.data)[q] == q
    ensures bl.data.nCnst != bl.data.nArcs && |bl.data.active| > 0 ==> MutualArcs(bl.data)[q] == bl.data.active[q]
  {
    MutualRowsExact(bl.data, prev);
  }
}
