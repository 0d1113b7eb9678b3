/**
 * The data store of an MMCFBlock (MMCFBlock.h:527-556) as one value: the
 * topology, the per-commodity tables `C`, `U`, `B`, the mutual capacities
 * `UTot`, the fixed costs `F`, and what the preprocessor derives from them.
 */
module Store {
  import opened ExtNum
  import opened SeqUtil

  datatype Tables = Tables(
    nNodes: nat, nArcs: nat, nComm: nat, strtNme: nat,
    startn: seq<nat>, endn: seq<nat>,
    c: seq<seq<Num>>,      // c[k][j]: cost of arc j for commodity k
    u: seq<seq<Num>>,      // u[k][j]: individual capacity
    b: seq<seq<Num>>,      // b[k][n]: deficit of node n
    uTot: seq<Num>,        // mutual capacity of each arc
    f: seq<Num>,           // fixed costs (empty when there are none)
    nCnst: nat,            // number of mutual capacity constraints
    namesK: seq<nat>,
    active: seq<nat>,
    activeK: seq<seq<nat>>,
    cIsCpy: seq<bool>, uIsCpy: seq<bool>, bIsCpy: seq<bool>)

  /** The tables have the sizes the counts announce, and every arc joins two
    * nodes named `1 .. nNodes`. */
  predicate WellFormed(t: Tables) {
    && |t.c| == t.nComm && |t.u| == t.nComm && |t.b| == t.nComm
    && (forall k :: 0 <= k < t.nComm ==> |t.c[k]| == t.nArcs)
    && (forall k :: 0 <= k < t.nComm ==> |t.u[k]| == t.nArcs)
    && (forall k :: 0 <= k < t.nComm ==> |t.b[k]| == t.nNodes)
    && |t.uTot| == t.nArcs && |t.startn| == t.nArcs && |t.endn| == t.nArcs
    && (forall i :: 0 <= i < t.nArcs ==> 1 <= t.startn[i] <= t.nNodes)
    && (forall i :: 0 <= i < t.nArcs ==> 1 <= t.endn[i] <= t.nNodes)
  }

  /** The shape of `Active` after the mutual pass of the preprocessor: the
    * first `nCnst` entries are strictly ascending arc indices, followed by
    * the sentinel when not all arcs are listed. */
  predicate ActiveShaped(t: Tables) {
    && t.nArcs < IndexInf
    && |t.active| == t.nArcs && t.nCnst <= t.nArcs
    && StrictlyAscending(t.active[..t.nCnst])
    && (forall j :: 0 <= j < t.nCnst ==> t.active[j] < t.nArcs)
    && (t.nCnst < t.nArcs ==> t.active[t.nCnst] == IndexInf)
  }

  /** `Active` is either empty (every arc has a mutual capacity constraint)
    * or a list as the preprocessor leaves it. */
  predicate ActiveOk(t: Tables) {
    t.active != [] ==> ActiveShaped(t) && t.nCnst < t.nArcs
  }

  /** The bounds given to `PreProcess` (MMCFBlock.h:217-219). */
  datatype Params = Params(incUk: Num, decUk: Num, incUjk: Num, decUjk: Num, chgDfct: Num, decCsts: Num)
}
