# MMCFBlock in Dafny

A model of `MMCFBlock`, the SMS++ block for the Multicommodity Min Cost
Flow problem.

The block stores a network with these counts and tables:

- `NNodes` nodes, `NArcs` arcs and `NComm` commodities;
- per-commodity costs `C` and capacities `U`, and per-commodity deficits `B`;
- mutual capacities `UTot` and fixed costs `F`;
- the list `Active` of arcs with a mutual capacity constraint;
- per commodity, the lists `ActiveK` of arcs with an individual capacity constraint.

The block offers two formulations:

- the **flow relaxation**: one min-cost-flow sub-block per commodity, joined by one mutual capacity row per arc;
- the **knapsack relaxation**: one binary-knapsack sub-block per arc, joined by flow conservation rows and, optionally, strong linking ("slc") rows.

The byte `AR` records which formulation is in use and what has been built.

The model covers:

- the common initialisation `CmnIntlz`;
- the six passes of `PreProcess`;
- `generate_abstract_variables` and `generate_abstract_constraints` for both formulations;
- the readers and writers of solution values (`get_flow`, `get_flow_variable`, `get_potential`, `get_dual`, `set_potential`, `set_dual`);
- `chg_fixed_costs`;
- `guts_of_destructor`.

The numbers are IEEE doubles with `Inf` and NaN, without rounding (`ExtNum`).

The tables form one value, `Store.Tables`. The preprocessor's passes are pure functions on it, and each pass has a loop method proved equal to its function. The class `Mmcf.MMCFBlock` holds that value, `AR`, the sub-blocks and the rows, and its methods update them in place.

Modules, in dependency order:

- `ExtNum`: doubles with `Inf`/NaN;
- `SeqUtil`: `resize`, selection of flagged indices;
- `ArBits`: the `AR` bits;
- `Abstract`: variables, rows and sub-blocks as values;
- `Store`: the tables;
- `Preprocessing`, `PreprocessProps`: `PreProcess` and what it guarantees;
- `Initialise`: `CmnIntlz`;
- `Knapsack`: the sub-blocks of both formulations;
- `Coupling`: the linking rows;
- `Mmcf`: the block;
- `BlockProps`: properties joining them.

## Model

| member | source | states |
|---|---|---|
| ArBits.StoreFormulation | MMCFBlock.cpp:989 | the two low bits of `AR` are kept; the knapsack bit is set iff bit 0 of the configuration is; `slc` is set iff it was set or bit 1 of the configuration is; a configuration with none of its six low bits set only clears the knapsack bit |
| ArBits.StoreStrongForcing | MMCFBlock.cpp:1179 | `HasVar`, `HasMutual` and the knapsack bit are kept, and `slc` is set iff bit 0 of the configuration is |
| ArBits.FlagLayout | MMCFBlock.h:490-500 | `HasVar`, `HasMutual` and `KnapsackRelaxation` are distinct single bits; `slc` reuses the value of `AddFixedCosts` and overlaps none of them |
| ArBits.FormulationValues | MMCFBlock.cpp:989 | configuration values 0, 1, 2, 3 select flow, knapsack, flow+slc and knapsack+slc; 64 selects the flow formulation |
| ExtNum.Add | MMCFBlock.cpp:1384 | IEEE addition: finite operands add; the result is NaN exactly when an operand is NaN or `Inf` meets `-Inf` |
| ExtNum.Mul | MMCFBlock.cpp:1054 | IEEE multiplication: finite operands multiply; an infinity times zero is NaN |
| ExtNum.Min | MMCFBlock.cpp:1426 | `std::min` returns one of its operands, and one no larger than both when neither is NaN |
| ExtNum.GeInfIsInf | MMCFBlock.cpp:1207 | `x >= Inf` holds exactly when `x` is `Inf` |
| ExtNum.NothingExceedsInf | MMCFBlock.cpp:1329 | the test `DecCsts > Inf` can never be true |
| SeqUtil.SelectExact | MMCFBlock.cpp:1512-1515 | the indices selected by a flag vector are strictly ascending, in range, and are exactly the flagged ones |
| Preprocessing.RemoveDeadArcs | MMCFBlock.cpp:1347-1351 | the loop gives the arcs touching a node of infinite deficit infinite cost, as `DeadArcsRemoved` says |
| Preprocessing.ClearDeadCapacities | MMCFBlock.cpp:1356-1359 | the loop gives arcs of infinite cost zero capacity, as `DeadCapacitiesCleared` says |
| Preprocessing.ComputeSupply | MMCFBlock.cpp:1370-1374 | the loop computes the total supply of a commodity: minus the sum of its negative deficits |
| Preprocessing.EstimateCommodity | MMCFBlock.cpp:1368-1390 | the flow estimate of one commodity succeeds iff the commodity has no negative-cost arc of infinite capacity, and then equals `FlowEstimate` |
| Preprocessing.EstimateFlows | MMCFBlock.cpp:1366-1391 | the estimates of all commodities, and their sum, exist iff no commodity fails |
| Preprocessing.ComputeSharedBound | MMCFBlock.cpp:1413-1420 | the bound on the total flow on an arc that the mutual pass computes |
| Preprocessing.SharedListShape | MMCFBlock.cpp:1436-1443 | the list of binding arcs is strictly ascending, made of arc indices, and followed by the sentinel when not every arc binds |
| Preprocessing.SqueezeMutual | MMCFBlock.cpp:1397-1446 | the mutual pass loop leaves the tables `MutualPassed` describes |
| Preprocessing.SqueezeCommodity | MMCFBlock.cpp:1457-1518 | the individual pass for one commodity gives the new costs and capacities, the list of kept arcs and their number |
| Preprocessing.SqueezeIndividual | MMCFBlock.cpp:1451-1520 | the individual pass loop leaves the tables `IndividualPassed` describes |
| Preprocessing.NamesChain | MMCFBlock.cpp:1511 | `NamesK` starts from its first entry and adds up the counts |
| Preprocessing.DetectCopies | MMCFBlock.cpp:1527-1582 | the copy detection leaves the rows unchanged and sets the flags `CopyFlags` describes |
| Preprocessing.PreProcessTables | MMCFBlock.cpp:1323-1590 | the whole preprocessor, pass after pass, with its two exceptions |
| PreprocessProps.PreProcessFails | MMCFBlock.cpp:1327-1383 | `PreProcess` throws exactly when `ChgDfct` is infinite or a commodity has a negative-cost arc of infinite capacity, with the messages and tables of each case |
| PreprocessProps.CleanedArcs | MMCFBlock.cpp:1347-1359 | after the first two passes an arc touching an infinite deficit costs `Inf`, an arc of infinite cost has zero capacity, and nothing else changes |
| PreprocessProps.DeadArcsStayEmpty | MMCFBlock.cpp:1347-1520 | after `PreProcess` an arc removed by the first pass still costs `Inf`, and an arc of infinite cost has zero capacity |
| PreprocessProps.SupplyBound | MMCFBlock.cpp:1370-1374 | with every deficit finite or `Inf` (a node that does not exist), the total supply is finite and non-negative |
| PreprocessProps.FlowEstimateBound | MMCFBlock.cpp:1376-1390 | with deficits finite or `Inf`, costs finite or `Inf` and non-negative capacities, the flow estimate of a commodity is finite, at least its supply, and bounds the capacity of every cheap arc |
| PreprocessProps.BoundsFinite | MMCFBlock.cpp:1366-1391 | with deficits finite or `Inf`, costs finite or `Inf` and non-negative capacities, every flow estimate and their sum are finite and non-negative |
| PreprocessProps.SharedCapacitiesFinite | MMCFBlock.cpp:1406-1431 | with deficits finite or `Inf`, costs finite or `Inf`, non-negative capacities and non-negative bounds, every mutual capacity left by a successful `PreProcess` is finite |
| PreprocessProps.ZeroSharedCapacityRemovesArc | MMCFBlock.cpp:1397-1405 | an arc of zero mutual capacity that may not grow loses every commodity and gets no constraint |
| PreprocessProps.ActiveAfterPreProcess | MMCFBlock.cpp:1436-1524 | `Active` is shaped, `NCnst` counts the binding arcs, `Active` is empty iff all bind, and an arc is listed iff it binds |
| PreprocessProps.ActiveListShape | MMCFBlock.cpp:1450-1520 | an individual list is empty iff every arc is kept; otherwise it lists exactly the kept arcs, ascending, then the sentinel |
| PreprocessProps.IndividualAfterPreProcess | MMCFBlock.cpp:1451-1520 | after `PreProcess`, `ActiveK[ k ]` lists exactly the kept arcs and `NamesK` adds up their counts |
| PreprocessProps.ScanCopiesExact | MMCFBlock.cpp:1527-1582 | a row is flagged a copy iff it was already flagged or equals an earlier unflagged row |
| PreprocessProps.CopyFlagsExact | MMCFBlock.cpp:1550-1554 | the copy flags are empty iff no row is a copy; otherwise each row after the first is a copy of the earliest equal unflagged row |
| Initialise.Countable | MMCFBlock.cpp:1746-1748 | an arc counts for commodity `k` iff its cost and capacity are both below `Inf` |
| Initialise.ListAsWrittenShape | MMCFBlock.cpp:1757-1763 | as written, a list is twice as long as intended, holds the intended list as its second half, and so differs from it whenever it is not empty |
| Initialise.ListAsWrittenCounterexample | MMCFBlock.cpp:1757-1763 | one uncountable arc gives `[ 0 , Inf ]` where the intended list is `[ Inf ]` |
| Initialise.CommodityListAsWritten | MMCFBlock.cpp:1741-1765 | the `resize`/`push_back` loops, literally: the count and the list `ListAsWritten` |
| Initialise.CommodityList | MMCFBlock.cpp:1741-1765 | the count and the list the corrected loops build: the countable arcs, then the sentinel |
| Initialise.InitialiseTables | MMCFBlock.cpp:1736-1766 | the loop over the commodities leaves the tables `Initialized` describes, with the corrected lists of the first finding |
| Initialise.InitializedLists | MMCFBlock.cpp:1719-1769 | after initialisation the data is unchanged, `StrtNme` is 1, the tables can be preprocessed, `NamesK` starts at `NCnst` and adds up the counts, and each list is empty iff all arcs count |
| Knapsack.BuildFlowBlocks | MMCFBlock.cpp:993-1001 | the loop builds one flow block per commodity |
| Knapsack.FlowBlocksCarryCommodities | MMCFBlock.cpp:993-1001 | flow block `k` carries the topology, `U[ k ]`, `C[ k ]` and `B[ k ]`, with one flow per arc and one potential per node |
| Knapsack.SumFReadsPastEnd | MMCFBlock.cpp:1022-1029 | when `F` is shorter than `NArcs`, the loop as written reads `F` past its end |
| Knapsack.ComputeSumF | MMCFBlock.cpp:1022-1029 | the loop adds each fixed cost once per commodity |
| Knapsack.SumFFinite | MMCFBlock.cpp:1022-1029 | with finite fixed costs, `sumF` is `NComm` times their sum |
| Knapsack.SumFPositive | MMCFBlock.cpp:1043 | with non-negative fixed costs, `sumF > 0` iff there is a commodity and some fixed cost is positive |
| Knapsack.ArcItems | MMCFBlock.cpp:1053-1115 | the loop builds the weights and costs of the items of one arc |
| Knapsack.BuildKnapsackBlocks | MMCFBlock.cpp:1037-1152 | the loop builds one knapsack block per arc |
| Knapsack.KnapsackItems | MMCFBlock.cpp:1037-1152 | each knapsack block is a maximisation over `NComm` items, plus one integral fixed-cost item weighing `-UTot` when `sumF > 0`; with one non-negative fixed cost per arc, that is exactly when there is a commodity and some fixed cost is positive. Its capacity is `UTot`, or 0 with that item. A usable commodity's item weighs `U` and costs `C * U`. A forbidden commodity's item gets the penalty cost, and the penalty weight in the second construction only |
| Coupling.MutualCoefficients | MMCFBlock.cpp:1191-1199 | coefficient 1 on the flow of every commodity on every arc |
| Coupling.BuildMutualRows | MMCFBlock.cpp:1185-1225 | the loop leaves the rows and the exception `MutualRows` describes |
| Coupling.MutualRowsExact | MMCFBlock.cpp:1185-1225 | building succeeds iff every listed arc has a mutual capacity below `Inf`; the rows then bound the sum of all commodities' flows on the arc by `UTot`; on failure it throws `logic_error` at the first bad arc, with the earlier rows set and the later ones untouched |
| Coupling.MutualRowMeaning | MMCFBlock.cpp:1196-1210 | a mutual row holds at a point iff the commodities' flows on its arc add up to at most `UTot` |
| Coupling.CountDegrees | MMCFBlock.cpp:1236-1246 | the loop counts the arcs leaving plus the arcs entering each node |
| Coupling.FillCommodity | MMCFBlock.cpp:1248-1263 | the loop writes, for each node, the coefficients of its incident arcs, in slots sized by the degree count |
| Coupling.BuildNodeRows | MMCFBlock.cpp:1229-1276 | the loops build the flow conservation rows `NodeRows` describes |
| Coupling.NodeTermsExact | MMCFBlock.cpp:1255-1263 | a node row's coefficients are exactly its incident non-loop arcs, each once and ascending, with `+U` leaving and `-U` entering |
| Coupling.DegreeSplit | MMCFBlock.cpp:1236-1263 | every slot counted for a node is either written or reserved by a self-loop |
| Coupling.NodeRowMeaning | MMCFBlock.cpp:1255-1276 | a node row holds at a point iff the rescaled outflow minus inflow of the commodity at that node equals its deficit |
| Coupling.BuildSlcRows | MMCFBlock.cpp:1283-1308 | the loops build the strong linking rows `SlcRows` describes |
| Coupling.SlcRowMeaning | MMCFBlock.cpp:1290-1305 | a strong linking row holds iff the commodity's item is chosen no more than the fixed-cost item |
| Coupling.ActiveOkReadable | MMCFBlock.cpp:1204-1207 | a list shaped as the preprocessor leaves it can be read by the row construction |
| Mmcf.FixedCosts | MMCFBlock.h:445-461 | the fixed-cost vector grows to `NArcs` when shorter and keeps its entries past `NArcs` |
| Mmcf.MMCFBlock.constructor | MMCFBlock.h:109 | a fresh block has `AR` 0 and every vector empty |
| Mmcf.MMCFBlock.CmnIntlz | MMCFBlock.cpp:1719-1769 | the tables become `Initialized`, with the corrected lists of the first finding; the problem is directed, and every commodity is of type `kMCF` |
| Mmcf.MMCFBlock.PreProcess | MMCFBlock.cpp:1323-1590 | the tables become those `PreProcessed` gives, and the outcome reports its exception |
| Mmcf.MMCFBlock.GenerateAbstractVariables | MMCFBlock.cpp:971-1159 | a second call does nothing. The first call: stores the formulation, so that the flow relaxation is used iff bit 0 of the configuration is clear; loads the flow blocks or the knapsack blocks; sets `HasVar` |
| Mmcf.MMCFBlock.GenerateAbstractConstraints | MMCFBlock.cpp:1163-1317 | a second call does nothing. The first call stores `slc`. In the flow relaxation it builds the mutual rows and sets `HasMutual` unless they throw. In the knapsack relaxation it builds the node rows and, with `slc`, the strong linking rows, then sets `HasMutual` |
| Mmcf.MMCFBlock.GetFlowVector | MMCFBlock.h:339-357 | all zeros before the variables exist, otherwise `get_flow( k , i )` for every arc and the rest of the vector untouched |
| Mmcf.MMCFBlock.SetPotential | MMCFBlock.h:404-411 | once the constraints exist, exactly the addressed potential changes and reads back `pi`; before, nothing changes |
| Mmcf.MMCFBlock.SetDual | MMCFBlock.h:416-423 | once the constraints exist, exactly the addressed dual changes and reads back `pi`; before, nothing changes |
| Mmcf.MMCFBlock.ChgFixedCosts | MMCFBlock.h:445-461 | the fixed costs become `FixedCosts( lambda )` and nothing else changes |
| Mmcf.MMCFBlock.GutsOfDestructor | MMCFBlock.cpp:1775-1839 | `AR` is 0; every table, list, row and sub-block is empty; the counts, the direction flag and the configurations are kept |
| Mmcf.MMCFBlock.ClearRepresentation | MMCFBlock.cpp:1780-1806 | the rows and sub-blocks are gone |
| Mmcf.MMCFBlock.ClearTables | MMCFBlock.cpp:1808-1828 | every table and list is empty and the counts are kept |
| Mmcf.RelaxationFromConfiguration | MMCFBlock.h:303-305 | once the formulation is stored and `HasVar` set, `useFlowRelaxation()` holds iff bit 0 of the configuration is clear |
| Mmcf.FlowReadsItsVariable | MMCFBlock.h:324-371 | once `HasVar` is set, `get_flow( k , i )` reads the value of the variable `get_flow_variable( k , i )` names: flow `i` of flow block `k` in the flow relaxation, item `k` of knapsack block `i` in the knapsack relaxation, rescaled by `U[ k ][ i ]` unless `k` is `NComm` |
| Mmcf.PotentialOfNodeRow | MMCFBlock.h:376-383 | once `HasMutual` is set in the knapsack relaxation, `get_potential( k , i )` reads the dual of the flow conservation row of node `i` for commodity `k`, whose both sides are `B[ k ][ i ]`, and it is 0 until a solver writes it |
| Mmcf.DualOfMutualRow | MMCFBlock.h:389-398 | once `HasMutual` is set in the flow relaxation, `get_dual( q )` reads the dual of the `q`-th mutual row, which bounds arc `q` when every arc has a row and the `q`-th listed arc of `Active` otherwise |
| Mmcf.UnbuiltReadsZero | MMCFBlock.h:324-397 | before `HasVar`, every flow reads 0 and every flow variable is null; before `HasMutual`, every potential and dual reads 0 |
| BlockProps.PreProcessedShape | MMCFBlock.cpp:1323-1590 | the tables a successful `PreProcess` leaves can be preprocessed again |
| BlockProps.FiniteCapacitiesBuild | MMCFBlock.cpp:1203-1210 | rows over arcs of finite mutual capacity are built without throwing |
| BlockProps.PreProcessedRowsBuild | MMCFBlock.cpp:1203-1210 | after a successful `PreProcess` on data whose deficits and costs are finite or `Inf` and whose capacities and bounds are non-negative, the mutual rows are built without throwing |
| BlockProps.MutualRowsUseFlowVariables | MMCFBlock.cpp:1196-1199 | every term of a mutual row is on the variable `get_flow_variable` reports for its commodity and arc, with coefficient 1 |
| BlockProps.NodeRowsUseFlowVariables | MMCFBlock.cpp:1255-1263 | every term of a node row is on the variable `get_flow_variable` reports for its arc, with coefficient `U` or `-U` |
| BlockProps.KnapsackFlowRescaled | MMCFBlock.h:329-333 | in the knapsack relaxation an item value in `[ 0 , 1 ]` reads as a flow in `[ 0 , U ]`; the extra item reads unscaled |
| BlockProps.CostMeanIsAverage | MMCFBlock.h:449-454 | `Cmean` is the sum of `C * U` over the commodities of finite cost, divided by `NComm` |
| BlockProps.FixedCostIsScaledAverage | MMCFBlock.h:445-461 | each new fixed cost is `lambda` times the average cost of its arc |

## Left out

- The loaders (`load` from a stream or netCDF, the DIMACS and mnetgen readers) are left out, because they are I/O; the model starts from filled tables, a block made by the constructor `Loaded`.
- `print`, the factory registration, netCDF serialisation and `get_objective_sense` are left out, because they are I/O or plumbing.
- The internals of the sub-blocks and of the parent `Block` are calls into code outside the core. These are `MCFBlock`/`BinaryKnapsackBlock` load and their generate functions, `add_static_constraint`, `reset_static_constraints` and `Block::generate_abstract_variables`. The sub-blocks are modelled as values (`Abstract.SubBlock`) holding what the block stores and reads back.
- The magnitudes of the penalty costs and weights (`Cmax`, `Umax`, `sumQ`) are left out. They depend on floating-point sums and are modelled as an opaque `Penalty` amount.
- Floating-point rounding is left out; arithmetic on finite doubles is exact real arithmetic.
- The variables `srcs`/`srck` that are computed and never used are left out.
- `Index` is taken as a 32-bit unsigned integer, so the sentinel `Inf< Index >()` is `0xFFFFFFFF`; the tables must have fewer arcs than that.
- A `Configuration` is reduced to the integer it carries, or none; a configuration of another type counts as none.
- The flow conservation rows and strong linking rows are modelled as rebuilt from scratch; solver values they held before are not kept.
- The counts left indeterminate by the default constructor are taken as 0.
- `f_sense` is left out; the objective sense is fixed.
- The data tables form one value `Tables`, updated as a whole; no alias of a single table is modelled.
- The `static_cast`s of sub-blocks are taken to hit the expected sub-block type.
- Mmcf.MMCFBlock.GenerateAbstractConstraints: requires the variables to exist, since the rows refer to them; the source does not check this.
- Mmcf.MMCFBlock.GetFlowVector: the flow-relaxation branch copies the sub-block's vector at once; the model copies it element by element and states the same result.
- Mmcf.MMCFBlock.ChgFixedCosts: the `seed` parameter is not used, as in the source.
- Mmcf.MMCFBlock.CmnIntlz: builds the corrected `ActiveK` lists of the first finding, not the as-written ones; `PreProcess` clears and rebuilds every `ActiveK[ k ]` (cpp:1451-1452), and nothing else reads them. The as-written lists are modelled by `Initialise.CommodityListAsWritten`.
- Initialise.InitialiseTables: builds the corrected `ActiveK` lists of the first finding, not the as-written ones, for the same reason.
- Preprocessing.Preprocessable: requires at least one commodity, because the copy detection reads `U[ 0 ]` (cpp:1548).
- `PreProcess` does not set `kSPT` for any commodity, although MMCFBlock.h:198-200 says it may: the code that would do so is commented out (cpp:1504-1505), so every commodity stays `kMCF`.
- PreprocessProps.SupplyBound, PreprocessProps.FlowEstimateBound, PreprocessProps.BoundsFinite, PreprocessProps.SharedCapacitiesFinite and BlockProps.PreProcessedRowsBuild: do not cover deficits of `-Inf` or NaN, or capacities that are negative or NaN. With those, a flow estimate can be infinite or NaN, and no finite bound holds.
- BlockProps.CostMeanIsAverage: requires finite capacities and at least one commodity. Otherwise a product `Inf * 0` is NaN, or there is no average.

Behaviour of the code that the model keeps as it is:

- Copy detection flags only the later of two equal rows, the one that is "a copy of another" (MMCFBlock.h:554-556); the earlier row stays unflagged (`Preprocessing.DetectCopies`, cpp:1527-1582).
- After the mutual-row exception, `MCs` stays partly built and `HasMutual` stays clear (cpp:1203-1210).
- `CmnIntlz` sets `NamesK[ 0 ]` to `NCnst` once, before the loop (cpp:1739).

## Findings

| source | as written | input that shows it | evidently intended | confidence | as-written member | corrected member |
|---|---|---|---|---|---|---|
| MMCFBlock.cpp:1757-1763 | `ActiveK[ k ].resize( cnt + 1 )` and then `push_back` of every countable arc and the sentinel, so the list keeps `cnt + 1` stale or zero entries in front | one commodity, one arc of infinite cost, fresh block: the list is `[ 0 , Inf ]` | the countable arcs, then the sentinel, as the preprocessor writes (cpp:1512-1515): `[ Inf ]` | high, not executed | Initialise.CommodityListAsWritten, Initialise.ListAsWrittenCounterexample | Initialise.CommodityList, Initialise.InitializedLists |
| MMCFBlock.cpp:1022-1029 | `sumF += F[ j ]` for every arc `j < NArcs` whatever the size of `F` | a knapsack relaxation of a block with no fixed costs (`F` empty, `NArcs >= 1`, `NComm >= 1`) reads `F[ 0 ]` past the end | read `F` only when it has an entry per arc, as the use of `sumF` at cpp:1043 assumes | high, not executed | Knapsack.SumFReadsPastEnd | Knapsack.ComputeSumF, Knapsack.SumFPositive |
