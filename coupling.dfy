/**
 * The constraints that `generate_abstract_constraints` (MMCFBlock.cpp:
 * 1163-1317) builds in the father block: the mutual capacity rows of the
 * flow formulation, and the flow conservation rows and strong forcing rows
 * of the knapsack formulation.
 */
module Coupling {
  import opened ExtNum
  import opened SeqUtil
  import opened Abstract
  import opened Store

  /** `sum( coef * x[ v ] )` of a coefficient list, added left to right. */
  function Activity(terms: seq<Term>, x: Var -> real): Num {
    if |terms| == 0 then Fin(0.0)
    else Add(Activity(terms[..|terms| - 1], x), Mul(terms[|terms| - 1].coef, Fin(x(terms[|terms| - 1].v))))
  }

  /** The point `x` satisfies `lhs <= sum( coef * x[ v ] ) <= rhs`. */
  predicate Holds(row: Row, x: Var -> real) {
    Le(row.lhs, Activity(row.terms, x)) && Le(Activity(row.terms, x), row.rhs)
  }

  lemma ActivitySnoc(terms: seq<Term>, t: Term, x: Var -> real)
    ensures Activity(terms + [t], x) == Add(Activity(terms, x), Mul(t.coef, Fin(x(t.v))))
  {
    assert (terms + [t])[..|terms|] == terms;
  }

  /** `d` value-initialised coefficient pairs `( nullptr , 0 )`. */
  function Padding(d: nat): (pad: seq<Term>)
    ensures |pad| == d && forall q :: 0 <= q < d ==> pad[q] == DefaultTerm
  {
    seq(d, _ => DefaultTerm)
  }

  /** Value-initialised coefficient pairs add nothing. */
  lemma {:induction false} ActivityPadding(terms: seq<Term>, d: nat, x: Var -> real)
    requires Activity(terms, x).Fin?
    ensures Activity(terms + Padding(d), x) == Activity(terms, x)
  {
    if d > 0 {
      var pad := Padding(d - 1);
      ActivityPadding(terms, d - 1, x);
      assert terms + Padding(d) == (terms + pad) + [DefaultTerm];
      ActivitySnoc(terms + pad, DefaultTerm, x);
      assert Mul(DefaultTerm.coef, Fin(x(DefaultTerm.v))) == Fin(0.0);
      assert Activity(terms + pad, x) == Activity(terms, x);
      assert Activity((terms + pad) + [DefaultTerm], x) == Add(Activity(terms, x), Fin(0.0));
    } else {
      assert terms + Padding(d) == terms;
    }
  }

  // ---------------------------------------------------------------------
  // Mutual capacity rows of the flow formulation (cpp:1185-1227).

  /** What cpp:1204-1207 reads of `Active` when it is used: its first
    * `NCnst` entries exist and are arc indices. */
  predicate ActiveReadable(t: Tables) {
    t.nCnst != t.nArcs && |t.active| > 0 ==>
      t.nCnst <= |t.active| && forall j :: 0 <= j < t.nCnst ==> t.active[j] < t.nArcs
  }

  /** The lists the preprocessor leaves can be read. */
  lemma ActiveOkReadable(t: Tables)
    requires ActiveOk(t)
    ensures ActiveReadable(t)
  {
  }

  /** The arcs that get a row, in row order: those listed in `Active`, or
    * every arc when `Active` is empty or lists them all. */
  function MutualArcs(t: Tables): (arcs: seq<nat>)
    requires WellFormed(t) && ActiveReadable(t)
    ensures forall m :: 0 <= m < |arcs| ==> arcs[m] < t.nArcs
  {
    if t.nCnst != t.nArcs && |t.active| > 0 then t.active[..t.nCnst] else seq(t.nArcs, j => j)
  }

  /** `coeffs[ j ]`: coefficient 1 on the flow variable of every commodity
    * on arc `j` (cpp:1196-1199). */
  function MutualTerms(t: Tables, j: nat): seq<Term> {
    seq(t.nComm, k requires 0 <= k < t.nComm => Term(FlowVar(k, j), Fin(1.0)))
  }

  /** Row `r` made into `sum_k x^k_j <= UTot[ j ]`; solver values kept. */
  function SetMutualRow(r: Row, t: Tables, j: nat): Row
    requires WellFormed(t) && j < t.nArcs
  {
    r.(terms := MutualTerms(t, j), lhs := NegInf, rhs := t.uTot[j])
  }

  /** The first position from `m` on whose arc has an infinite `UTot`, or
    * the number of rows. */
  function FirstUnbounded(t: Tables, arcs: seq<nat>, m: nat): (n: nat)
    requires WellFormed(t) && m <= |arcs| && forall q :: 0 <= q < |arcs| ==> arcs[q] < t.nArcs
    ensures m <= n <= |arcs|
    ensures forall q :: m <= q < n ==> !Ge(t.uTot[arcs[q]], Inf)
    ensures n < |arcs| ==> Ge(t.uTot[arcs[n]], Inf)
    decreases |arcs| - m
  {
    if m == |arcs| || Ge(t.uTot[arcs[m]], Inf) then m else FirstUnbounded(t, arcs, m + 1)
  }

  const RhsError: Failure := LogicError("Constraint required to have a finite rhs")

  /** `MCs` after the construction, with the exception if one is thrown:
    * `MCs.resize` keeps the rows already there, and the loop stops at the
    * first arc of infinite `UTot`, leaving the rows after it as they were. */
  datatype Built = Built(rows: seq<Row>, error: Option<Failure>)

  function MutualRows(t: Tables, mcs: seq<Row>): Built
    requires WellFormed(t) && ActiveReadable(t)
  {
    var arcs := MutualArcs(t);
    var stop := FirstUnbounded(t, arcs, 0);
    var start := Resize(mcs, |arcs|, BlankRow);
    Built(seq(|arcs|, q requires 0 <= q < |arcs| => if q < stop then SetMutualRow(start[q], t, arcs[q]) else start[q]),
          if stop < |arcs| then Some(RhsError) else None)
  }

  /** The coefficient lists of cpp:1191-1199, one per arc. */
  method MutualCoefficients(t: Tables) returns (coeffs: seq<seq<Term>>)
    requires WellFormed(t)
    ensures |coeffs| == t.nArcs && forall j :: 0 <= j < t.nArcs ==> coeffs[j] == MutualTerms(t, j)
  {
    coeffs := seq(t.nArcs, _ => seq(t.nComm, _ => DefaultTerm));
    for k := 0 to t.nComm
      invariant |coeffs| == t.nArcs
      invariant forall j :: 0 <= j < t.nArcs ==> |coeffs[j]| == t.nComm
      invariant forall j, q :: 0 <= j < t.nArcs && 0 <= q < t.nComm ==>
        coeffs[j][q] == if q < k then Term(FlowVar(q, j), Fin(1.0)) else DefaultTerm
    {
      for j := 0 to t.nArcs
        invariant |coeffs| == t.nArcs
        invariant forall a :: 0 <= a < t.nArcs ==> |coeffs[a]| == t.nComm
        invariant forall a, q :: 0 <= a < t.nArcs && 0 <= q < t.nComm ==>
          coeffs[a][q] == if q < k || (q == k && a < j) then Term(FlowVar(q, a), Fin(1.0)) else DefaultTerm
      {
        coeffs := coeffs[j := coeffs[j][k := Term(FlowVar(k, j), Fin(1.0))]];
      }
    }
  }

  /** The mutual capacity rows as cpp:1187-1225 builds them. */
  method BuildMutualRows(t: Tables, mcs0: seq<Row>) returns (mcs: seq<Row>, error: Option<Failure>)
    requires WellFormed(t) && ActiveReadable(t)
    ensures Built(mcs, error) == MutualRows(t, mcs0)
  {
    var coeffs := MutualCoefficients(t);
    var arcs := if t.nCnst != t.nArcs && |t.active| > 0 then t.active[..t.nCnst] else seq(t.nArcs, j => j);
    assert arcs == MutualArcs(t);
    var stop := FirstUnbounded(t, arcs, 0);
    ghost var start := Resize(mcs0, |arcs|, BlankRow);
    mcs := Resize(mcs0, |arcs|, BlankRow);
    error := None;
    for q := 0 to |arcs|
      invariant q <= stop
      invariant |mcs| == |arcs|
      invariant forall a :: 0 <= a < |arcs| ==> mcs[a] == if a < q then SetMutualRow(start[a], t, arcs[a]) else start[a]
    {
      if Ge(t.uTot[arcs[q]], Inf) {
        error := Some(RhsError);
        return;
      }
      mcs := mcs[q := mcs[q].(terms := coeffs[arcs[q]], lhs := NegInf, rhs := t.uTot[arcs[q]])];
    }
  }

  /** The construction succeeds exactly when every arc that gets a row has
    * a finite-or-below-`Inf` mutual capacity; the rows are then one per
    * listed arc, each bounding the total flow of all commodities on it by
    * its `UTot`. On failure it throws `logic_error` at the first arc of
    * infinite `UTot`, having set the rows before it only. */
  lemma MutualRowsExact(t: Tables, mcs: seq<Row>)
    requires WellFormed(t) && ActiveReadable(t)
    ensures var b := MutualRows(t, mcs);
      var arcs := MutualArcs(t);
      && |b.rows| == |arcs|
      && (b.error.None? <==> forall q :: 0 <= q < |arcs| ==> !Ge(t.uTot[arcs[q]], Inf))
      && (b.error.None? ==> forall q :: 0 <= q < |arcs| ==>
            && b.rows[q].lhs == NegInf && b.rows[q].rhs == t.uTot[arcs[q]]
            && |b.rows[q].terms| == t.nComm
            && forall k :: 0 <= k < t.nComm ==> b.rows[q].terms[k] == Term(FlowVar(k, arcs[q]), Fin(1.0)))
      && (b.error.Some? ==>
            && b.error == Some(LogicError("Constraint required to have a finite rhs"))
            && exists n :: 0 <= n < |arcs| && Ge(t.uTot[arcs[n]], Inf)
                 && (forall q :: 0 <= q < n ==> !Ge(t.uTot[arcs[q]], Inf) && b.rows[q].rhs == t.uTot[arcs[q]])
                 && (forall q :: n <= q < |arcs| ==> b.rows[q] == Resize(mcs, |arcs|, BlankRow)[q]))
  {
    var arcs := MutualArcs(t);
    var stop := FirstUnbounded(t, arcs, 0);
    if stop == |arcs| {
      assert MutualRows(t, mcs).error.None?;
    } else {
      assert MutualRows(t, mcs).error.Some?;
    }
  }

  /** The row of each listed arc holds at a point exactly when the flows of
    * all commodities on that arc add up to at most its `UTot`. */
  lemma {:induction false} MutualActivity(t: Tables, j: nat, x: Var -> real, n: nat)
    requires n <= t.nComm
    ensures Activity(MutualTerms(t, j)[..n], x) == Fin(CommoditySum(j, x, n))
  {
    if n > 0 {
      MutualActivity(t, j, x, n - 1);
      assert MutualTerms(t, j)[..n][..n - 1] == MutualTerms(t, j)[..n - 1];
    }
  }

  /** `x^0_j + ... + x^{n-1}_j`. */
  function CommoditySum(j: nat, x: Var -> real, n: nat): real {
    if n == 0 then 0.0 else CommoditySum(j, x, n - 1) + x(FlowVar(n - 1, j))
  }

  lemma MutualRowMeaning(t: Tables, j: nat, x: Var -> real)
    requires WellFormed(t) && j < t.nArcs && t.uTot[j].Fin?
    ensures Holds(SetMutualRow(BlankRow, t, j), x) <==> CommoditySum(j, x, t.nComm) <= t.uTot[j].r
  {
    MutualActivity(t, j, x, t.nComm);
    assert MutualTerms(t, j)[..t.nComm] == MutualTerms(t, j);
  }

  // ---------------------------------------------------------------------
  // Flow conservation rows of the knapsack formulation (cpp:1227-1280).

  /** `count[ k ][ n ]` after the loop of cpp:1236-1246 over the first `m`
    * arcs: the arcs leaving node `n + 1` plus the arcs entering it. */
  function Degree(t: Tables, n: nat, m: nat): nat
    requires m <= |t.startn| && m <= |t.endn|
  {
    if m == 0 then 0
    else Degree(t, n, m - 1) + (if t.startn[m - 1] == n + 1 then 1 else 0) + (if t.endn[m - 1] == n + 1 then 1 else 0)
  }

  /** The arcs among the first `m` that leave and enter node `n + 1`. */
  function SelfLoops(t: Tables, n: nat, m: nat): nat
    requires m <= |t.startn| && m <= |t.endn|
  {
    if m == 0 then 0
    else SelfLoops(t, n, m - 1) + (if t.startn[m - 1] == n + 1 && t.endn[m - 1] == n + 1 then 1 else 0)
  }

  /** Arc `i` is not a self-loop and has node `n + 1` as an end. */
  predicate Incident(t: Tables, n: nat, i: nat)
    requires i < |t.startn| && i < |t.endn|
  {
    t.startn[i] != t.endn[i] && (t.startn[i] == n + 1 || t.endn[i] == n + 1)
  }

  /** The coefficient of arc `i` in the row of its node `n + 1`:
    * `U[ k ][ i ]` when the arc leaves it, `-U[ k ][ i ]` when it enters. */
  function IncidenceTerm(t: Tables, k: nat, n: nat, i: nat): Term
    requires WellFormed(t) && k < t.nComm && i < t.nArcs
  {
    Term(ItemVar(i, k), if t.startn[i] == n + 1 then t.u[k][i] else Neg(t.u[k][i]))
  }

  /** The coefficients the loop of cpp:1255-1263 writes into the row of
    * node `n + 1` for commodity `k` from the first `m` arcs. */
  function NodeTerms(t: Tables, k: nat, n: nat, m: nat): seq<Term>
    requires WellFormed(t) && k < t.nComm && m <= t.nArcs
  {
    if m == 0 then []
    else NodeTerms(t, k, n, m - 1) + (if Incident(t, n, m - 1) then [IncidenceTerm(t, k, n, m - 1)] else [])
  }

  /** The flow conservation row of node `n + 1` for commodity `k`: the
    * written coefficients, then a value-initialised pair for each of the
    * two slots reserved by every self-loop, with both sides `B[ k ][ n ]`. */
  function NodeRow(t: Tables, k: nat, n: nat): Row
    requires WellFormed(t) && k < t.nComm && n < t.nNodes
  {
    Row(NodeTerms(t, k, n, t.nArcs) + Padding(2 * SelfLoops(t, n, t.nArcs)),
        t.b[k][n], t.b[k][n], 0.0)
  }

  function NodeRows(t: Tables): (fcs: seq<seq<Row>>)
    requires WellFormed(t)
    ensures |fcs| == t.nComm && forall k :: 0 <= k < t.nComm ==> |fcs[k]| == t.nNodes
  {
    seq(t.nComm, k requires 0 <= k < t.nComm =>
      seq(t.nNodes, n requires 0 <= n < t.nNodes => NodeRow(t, k, n)))
  }

  /** Every counted slot is either written or reserved by a self-loop. */
  lemma {:induction false} DegreeSplit(t: Tables, k: nat, n: nat, m: nat)
    requires WellFormed(t) && k < t.nComm && m <= t.nArcs
    ensures Degree(t, n, m) == |NodeTerms(t, k, n, m)| + 2 * SelfLoops(t, n, m)
  {
    if m > 0 {
      DegreeSplit(t, k, n, m - 1);
    }
  }

  lemma {:induction false} DegreeGrows(t: Tables, n: nat, i: nat, m: nat)
    requires i <= m <= |t.startn| && m <= |t.endn|
    ensures Degree(t, n, i) <= Degree(t, n, m)
    decreases m - i
  {
    if i < m {
      DegreeGrows(t, n, i, m - 1);
    }
  }

  /** The per-node counts of cpp:1236-1246. */
  method CountDegrees(t: Tables) returns (count: seq<nat>)
    requires WellFormed(t)
    ensures |count| == t.nNodes && forall n :: 0 <= n < t.nNodes ==> count[n] == Degree(t, n, t.nArcs)
  {
    count := seq(t.nNodes, _ => 0);
    for i := 0 to t.nArcs
      invariant |count| == t.nNodes && forall n :: 0 <= n < t.nNodes ==> count[n] == Degree(t, n, i)
    {
      count := count[t.startn[i] - 1 := count[t.startn[i] - 1] + 1];
      count := count[t.endn[i] - 1 := count[t.endn[i] - 1] + 1];
    }
  }

  /** Putting a pair into the first free slot of a row. */
  lemma PlaceTerm(prefix: seq<Term>, x: Term, d: nat)
    requires d >= 1
    ensures (prefix + Padding(d))[|prefix| := x] == (prefix + [x]) + Padding(d - 1)
  {
  }

  /** Row `n + 1` after the first `i` arcs: the terms written so far, then
    * the free slots, with the cursor `cur` at the first free slot. */
  predicate RowFilled(t: Tables, k: nat, n: nat, i: nat, width: nat, row: seq<Term>, cur: nat)
    requires WellFormed(t) && k < t.nComm && i <= t.nArcs
  {
    cur == |NodeTerms(t, k, n, i)| <= width && row == NodeTerms(t, k, n, i) + Padding(width - cur)
  }

  /** `coeffs[ n ]` of every row `n + 1` after the first `i` arcs, with the
    * cursor `count[ k ][ n ]` at the first free slot. */
  ghost predicate FillSoFar(t: Tables, k: nat, count: seq<nat>, coeffs: seq<seq<Term>>, cursor: seq<nat>, i: nat)
    requires WellFormed(t) && k < t.nComm && i <= t.nArcs
  {
    && |count| == t.nNodes && |coeffs| == t.nNodes && |cursor| == t.nNodes
    && forall n :: 0 <= n < t.nNodes ==>
         count[n] == Degree(t, n, t.nArcs) && RowFilled(t, k, n, i, count[n], coeffs[n], cursor[n])
  }

  /** The slot of arc `i` in the row of one of its ends is still free. */
  lemma SlotFree(t: Tables, k: nat, n: nat, i: nat)
    requires WellFormed(t) && k < t.nComm && i < t.nArcs && n < t.nNodes && Incident(t, n, i)
    ensures |NodeTerms(t, k, n, i)| < Degree(t, n, t.nArcs)
  {
    DegreeSplit(t, k, n, i + 1);
    DegreeGrows(t, n, i + 1, t.nArcs);
  }

  /** An arc incident to node `n + 1` goes into the first free slot of its
    * row, and the cursor moves on. */
  lemma IncidentRowStep(t: Tables, k: nat, n: nat, i: nat, row: seq<Term>, cur: nat)
    requires WellFormed(t) && k < t.nComm && i < t.nArcs && n < t.nNodes && Incident(t, n, i)
    requires RowFilled(t, k, n, i, Degree(t, n, t.nArcs), row, cur)
    ensures cur < |row| && RowFilled(t, k, n, i + 1, Degree(t, n, t.nArcs), row[cur := IncidenceTerm(t, k, n, i)], cur + 1)
  {
    SlotFree(t, k, n, i);
    var prev := NodeTerms(t, k, n, i);
    assert NodeTerms(t, k, n, i + 1) == prev + [IncidenceTerm(t, k, n, i)];
    PlaceTerm(prev, IncidenceTerm(t, k, n, i), Degree(t, n, t.nArcs) - cur);
  }

  /** An arc not incident to node `n + 1` leaves its row as it is. */
  lemma OtherRowStep(t: Tables, k: nat, n: nat, i: nat, width: nat, row: seq<Term>, cur: nat)
    requires WellFormed(t) && k < t.nComm && i < t.nArcs && !Incident(t, n, i)
    requires RowFilled(t, k, n, i, width, row, cur)
    ensures RowFilled(t, k, n, i + 1, width, row, cur)
  {
    assert NodeTerms(t, k, n, i + 1) == NodeTerms(t, k, n, i) + [];
    assert NodeTerms(t, k, n, i) + [] == NodeTerms(t, k, n, i);
  }

  /** One round of the loop of cpp:1255-1263: a self-loop is skipped, any
    * other arc puts its pair into the first free slot of the row of each
    * of its ends and moves that row's cursor on. */
  method PlaceArc(t: Tables, k: nat, count: seq<nat>, coeffs: seq<seq<Term>>, cursor: seq<nat>, i: nat)
    returns (coeffs': seq<seq<Term>>, cursor': seq<nat>)
    requires WellFormed(t) && k < t.nComm && i < t.nArcs
    requires FillSoFar(t, k, count, coeffs, cursor, i)
    ensures FillSoFar(t, k, count, coeffs', cursor', i + 1)
  {
    coeffs', cursor' := coeffs, cursor;
    if t.startn[i] == t.endn[i] {
      forall n | 0 <= n < t.nNodes
        ensures RowFilled(t, k, n, i + 1, count[n], coeffs[n], cursor[n])
      {
        OtherRowStep(t, k, n, i, count[n], coeffs[n], cursor[n]);
      }
      return;
    }
    var s, e := t.startn[i] - 1, t.endn[i] - 1;
    IncidentRowStep(t, k, s, i, coeffs[s], cursor[s]);
    IncidentRowStep(t, k, e, i, coeffs[e], cursor[e]);
    assert IncidenceTerm(t, k, s, i) == Term(ItemVar(i, k), t.u[k][i]);
    assert IncidenceTerm(t, k, e, i) == Term(ItemVar(i, k), Neg(t.u[k][i]));
    coeffs' := coeffs'[s := coeffs'[s][cursor'[s] := Term(ItemVar(i, k), t.u[k][i])]];
    cursor' := cursor'[s := cursor'[s] + 1];
    coeffs' := coeffs'[e := coeffs'[e][cursor'[e] := Term(ItemVar(i, k), Neg(t.u[k][i]))]];
    cursor' := cursor'[e := cursor'[e] + 1];
    forall n | 0 <= n < t.nNodes && n != s && n != e
      ensures RowFilled(t, k, n, i + 1, count[n], coeffs'[n], cursor'[n])
    {
      OtherRowStep(t, k, n, i, count[n], coeffs[n], cursor[n]);
    }
  }

  /** The coefficient lists of commodity `k` as the cursors of cpp:1248-1263
    * fill them. */
  method FillCommodity(t: Tables, k: nat, count: seq<nat>) returns (coeffs: seq<seq<Term>>)
    requires WellFormed(t) && k < t.nComm
    requires |count| == t.nNodes && forall n :: 0 <= n < t.nNodes ==> count[n] == Degree(t, n, t.nArcs)
    ensures |coeffs| == t.nNodes
    ensures forall n :: 0 <= n < t.nNodes ==> coeffs[n] == NodeRow(t, k, n).terms
  {
    coeffs := seq(t.nNodes, n requires 0 <= n < t.nNodes => Padding(count[n]));
    var cursor := seq(t.nNodes, _ => 0);
    for i := 0 to t.nArcs
      invariant FillSoFar(t, k, count, coeffs, cursor, i)
    {
      coeffs, cursor := PlaceArc(t, k, count, coeffs, cursor, i);
    }
    forall n | 0 <= n < t.nNodes
      ensures coeffs[n] == NodeRow(t, k, n).terms
    {
      DegreeSplit(t, k, n, t.nArcs);
    }
  }

  /** The flow conservation rows as cpp:1229-1276 builds them. */
  method BuildNodeRows(t: Tables) returns (fcs: seq<seq<Row>>)
    requires WellFormed(t)
    ensures fcs == NodeRows(t)
  {
    fcs := [];
    for k := 0 to t.nComm
      invariant |fcs| == k && forall q :: 0 <= q < k ==> fcs[q] == NodeRows(t)[q]
    {
      var count := CountDegrees(t);
      var coeffs := FillCommodity(t, k, count);
      var rows: seq<Row> := [];
      for n := 0 to t.nNodes
        invariant |rows| == n && forall a :: 0 <= a < n ==> rows[a] == NodeRow(t, k, a)
      {
        rows := rows + [Row(coeffs[n], t.b[k][n], t.b[k][n], 0.0)];
      }
      fcs := fcs + [rows];
    }
  }

  /** The written coefficients of the row of node `n + 1` are exactly the
    * arcs incident to it that are not self-loops, each once, in ascending
    * order, with `+U` when the arc leaves the node and `-U` when it enters. */
  lemma {:induction false} NodeTermsExact(t: Tables, k: nat, n: nat, m: nat)
    requires WellFormed(t) && k < t.nComm && m <= t.nArcs
    ensures var ts := NodeTerms(t, k, n, m);
      && (forall q :: 0 <= q < |ts| ==>
            && ts[q].v.ItemVar? && ts[q].v.item == k && ts[q].v.j < m && Incident(t, n, ts[q].v.j)
            && ts[q] == IncidenceTerm(t, k, n, ts[q].v.j))
      && (forall q, r :: 0 <= q < r < |ts| ==> ts[q].v.j < ts[r].v.j)
      && (forall i :: 0 <= i < m && Incident(t, n, i) ==> IncidenceTerm(t, k, n, i) in ts)
  {
    if m > 0 {
      NodeTermsExact(t, k, n, m - 1);
    }
  }

  /** `sum` over the arcs among the first `m` of the flow leaving node
    * `n + 1` minus the flow entering it, flows rescaled as `U * x`. */
  function NetFlow(t: Tables, k: nat, n: nat, m: nat, x: Var -> real): real
    requires WellFormed(t) && k < t.nComm && m <= t.nArcs
    requires forall i :: 0 <= i < t.nArcs ==> t.u[k][i].Fin?
  {
    if m == 0 then 0.0
    else
      var i := m - 1;
      var f := t.u[k][i].r * x(ItemVar(i, k));
      NetFlow(t, k, n, i, x)
        + (if !Incident(t, n, i) then 0.0 else if t.startn[i] == n + 1 then f else -f)
  }

  /** The term of an incident arc adds `U * x` when the arc leaves the node
    * and `-U * x` when it enters it. */
  lemma IncidenceContribution(t: Tables, k: nat, n: nat, i: nat, x: Var -> real)
    requires WellFormed(t) && k < t.nComm && i < t.nArcs && t.u[k][i].Fin?
    ensures var f := t.u[k][i].r * x(ItemVar(i, k));
      Mul(IncidenceTerm(t, k, n, i).coef, Fin(x(IncidenceTerm(t, k, n, i).v))) ==
        Fin(if t.startn[i] == n + 1 then f else -f)
  {
    var u, xi := t.u[k][i].r, x(ItemVar(i, k));
    assert (-u) * xi == -(u * xi);
  }

  /** One arc more: an incident arc adds its term to the activity and its
    * rescaled flow to the net flow. */
  lemma IncidentStep(t: Tables, k: nat, n: nat, i: nat, x: Var -> real)
    requires WellFormed(t) && k < t.nComm && i < t.nArcs && Incident(t, n, i)
    requires forall j :: 0 <= j < t.nArcs ==> t.u[k][j].Fin?
    requires Activity(NodeTerms(t, k, n, i), x) == Fin(NetFlow(t, k, n, i, x))
    ensures Activity(NodeTerms(t, k, n, i + 1), x) == Fin(NetFlow(t, k, n, i + 1, x))
  {
    var prev := NodeTerms(t, k, n, i);
    assert NodeTerms(t, k, n, i + 1) == prev + [IncidenceTerm(t, k, n, i)];
    ActivitySnoc(prev, IncidenceTerm(t, k, n, i), x);
    IncidenceContribution(t, k, n, i, x);
  }

  /** One arc more: an arc not incident to the node changes neither. */
  lemma OtherStep(t: Tables, k: nat, n: nat, i: nat, x: Var -> real)
    requires WellFormed(t) && k < t.nComm && i < t.nArcs && !Incident(t, n, i)
    requires forall j :: 0 <= j < t.nArcs ==> t.u[k][j].Fin?
    requires Activity(NodeTerms(t, k, n, i), x) == Fin(NetFlow(t, k, n, i, x))
    ensures Activity(NodeTerms(t, k, n, i + 1), x) == Fin(NetFlow(t, k, n, i + 1, x))
  {
    var prev := NodeTerms(t, k, n, i);
    assert NodeTerms(t, k, n, i + 1) == prev + [];
    assert prev + [] == prev;
  }

  lemma {:induction false} NodeTermsActivity(t: Tables, k: nat, n: nat, m: nat, x: Var -> real)
    requires WellFormed(t) && k < t.nComm && m <= t.nArcs
    requires forall i :: 0 <= i < t.nArcs ==> t.u[k][i].Fin?
    ensures Activity(NodeTerms(t, k, n, m), x) == Fin(NetFlow(t, k, n, m, x))
  {
    if m > 0 {
      NodeTermsActivity(t, k, n, m - 1, x);
      if Incident(t, n, m - 1) {
        IncidentStep(t, k, n, m - 1, x);
      } else {
        OtherStep(t, k, n, m - 1, x);
      }
    }
  }

  /** With finite capacities and deficit, the row of node `n + 1` holds at
    * `x` exactly when the rescaled flow out of the node minus the flow into
    * it equals its deficit `B[ k ][ n ]`. */
  lemma NodeRowMeaning(t: Tables, k: nat, n: nat, x: Var -> real)
    requires WellFormed(t) && k < t.nComm && n < t.nNodes
    requires forall i :: 0 <= i < t.nArcs ==> t.u[k][i].Fin?
    requires t.b[k][n].Fin?
    ensures Holds(NodeRow(t, k, n), x) <==> NetFlow(t, k, n, t.nArcs, x) == t.b[k][n].r
  {
    NodeTermsActivity(t, k, n, t.nArcs, x);
    ActivityPadding(NodeTerms(t, k, n, t.nArcs), 2 * SelfLoops(t, n, t.nArcs), x);
  }

  // ---------------------------------------------------------------------
  // Strong forcing rows of the knapsack formulation (cpp:1282-1311).

  /** `x_k - x_NComm <= 0` in the block of arc `i`. */
  function SlcRow(t: Tables, k: nat, i: nat): Row {
    Row([Term(ItemVar(i, k), Fin(1.0)), Term(ItemVar(i, t.nComm), Fin(-1.0))], NegInf, Fin(0.0), 0.0)
  }

  function SlcRows(t: Tables): (slcs: seq<seq<Row>>)
    ensures |slcs| == t.nComm && forall k :: 0 <= k < t.nComm ==> |slcs[k]| == t.nArcs
  {
    seq(t.nComm, k requires 0 <= k < t.nComm =>
      seq(t.nArcs, i requires 0 <= i < t.nArcs => SlcRow(t, k, i)))
  }

  /** The strong forcing rows as cpp:1283-1308 builds them. */
  method BuildSlcRows(t: Tables) returns (slcs: seq<seq<Row>>)
    ensures slcs == SlcRows(t)
  {
    slcs := [];
    for k := 0 to t.nComm
      invariant |slcs| == k && forall q :: 0 <= q < k ==> slcs[q] == SlcRows(t)[q]
    {
      var rows: seq<Row> := [];
      for i := 0 to t.nArcs
        invariant |rows| == i && forall a :: 0 <= a < i ==> rows[a] == SlcRow(t, k, a)
      {
        var coeffs := [Term(ItemVar(i, k), Fin(1.0)), Term(ItemVar(i, t.nComm), Fin(-1.0))];
        rows := rows + [Row(coeffs, NegInf, Fin(0.0), 0.0)];
      }
      slcs := slcs + [rows];
    }
  }

  /** A strong forcing row holds exactly when item `k` of the block of arc
    * `i` is taken no more than the fixed-cost item of that block. */
  lemma SlcRowMeaning(t: Tables, k: nat, i: nat, x: Var -> real)
    ensures Holds(SlcRow(t, k, i), x) <==> x(ItemVar(i, k)) <= x(ItemVar(i, t.nComm))
  {
    var a, b := Term(ItemVar(i, k), Fin(1.0)), Term(ItemVar(i, t.nComm), Fin(-1.0));
    ActivitySnoc([], a, x);
    ActivitySnoc([a], b, x);
    assert [a] + [b] == SlcRow(t, k, i).terms;
    assert Activity(SlcRow(t, k, i).terms, x) == Fin(x(ItemVar(i, k)) - x(ItemVar(i, t.nComm)));
  }
}
