/**
 * The initialisation common to every way of loading a block, `CmnIntlz`
 * (MMCFBlock.cpp:1719-1769): `StrtNme` becomes 1, and the individual
 * capacity lists `ActiveK` and their prefix counts `NamesK` are built from
 * the arcs whose cost and capacity are both below `Inf`.
 */
module Initialise {
  import opened ExtNum
  import opened SeqUtil
  import opened Store
  import opened Preprocessing
  import opened PreprocessProps

  /** Arc `i` may carry an individual capacity constraint of commodity `k`:
    * `C[ k ][ i ] < Inf` and `U[ k ][ i ] < Inf` (cpp:1746-1748). */
  function Countable(t: Tables, k: nat): (keep: seq<bool>)
    requires WellFormed(t) && k < t.nComm
    ensures |keep| == t.nArcs
    ensures forall i :: 0 <= i < t.nArcs ==> (keep[i] <==> Lt(t.c[k][i], Inf) && Lt(t.u[k][i], Inf))
  {
    seq(t.nArcs, i requires 0 <= i < t.nArcs => Lt(t.c[k][i], Inf) && Lt(t.u[k][i], Inf))
  }

  /** The count `cnt` of each commodity. */
  function InitCounts(t: Tables): (counts: seq<nat>)
    requires WellFormed(t)
    ensures |counts| == t.nComm
  {
    seq(t.nComm, k requires 0 <= k < t.nComm => |Select(Countable(t, k), t.nArcs)|)
  }

  /** `ActiveK[ k ]` as lines 1757-1763 leave it: `resize( cnt + 1 )` keeps
    * (or pads with 0 up to) `cnt + 1` entries of the previous list, and the
    * `push_back`s then append the listed arcs and the sentinel after them. */
  function ListAsWritten(prev: seq<nat>, keep: seq<bool>, n: nat): seq<nat>
    requires n <= |keep|
  {
    var s := Select(keep, n);
    if |s| >= n then [] else Resize(prev, |s| + 1, 0) + s + [IndexInf]
  }

  /** The as-written list is twice as long as the intended one, which is its
    * second half: the first `cnt + 1` entries are left-overs or zeros, so it
    * never equals the intended list when some arc is not countable. */
  lemma {:induction false} ListAsWrittenShape(prev: seq<nat>, keep: seq<bool>, n: nat)
    requires n <= |keep|
    ensures var l := ActiveList(keep, n); var w := ListAsWritten(prev, keep, n);
      && (w == [] <==> l == [])
      && |w| == 2 * |l|
      && w[|l|..] == l
      && (l != [] ==> w != l)
  {
    var s := Select(keep, n);
    if |s| < n {
      var l := ActiveList(keep, n);
      var w := ListAsWritten(prev, keep, n);
      assert l == s + [IndexInf];
      assert w == Resize(prev, |s| + 1, 0) + l;
    }
  }

  /** A commodity with one arc of infinite cost on a fresh block: the list
    * written is `[ 0 , Inf ]`, while the convention the preprocessor
    * follows (listed arcs, then the sentinel) gives `[ Inf ]`. */
  lemma ListAsWrittenCounterexample()
    ensures ListAsWritten([], [false], 1) == [0, IndexInf]
    ensures ActiveList([false], 1) == [IndexInf]
  {
    assert Select([false], 1) == [];
    assert Resize([], 1, 0) == [0];
  }

  /** Lines 1741-1765 for one commodity, literally: count, then `resize`
    * and `push_back`. */
  method CommodityListAsWritten(t: Tables, k: nat, prev: seq<nat>) returns (list: seq<nat>, cnt: nat)
    requires WellFormed(t) && k < t.nComm
    ensures cnt == InitCounts(t)[k]
    ensures list == ListAsWritten(prev, Countable(t, k), t.nArcs)
  {
    ghost var keep := Countable(t, k);
    var i := 0;
    cnt := 0;
    while i < t.nArcs
      invariant i <= t.nArcs && cnt == |Select(keep, i)|
    {
      if Lt(t.c[k][i], Inf) && Lt(t.u[k][i], Inf) {
        cnt := cnt + 1;
      }
      i := i + 1;
    }
    if cnt < t.nArcs {
      list := Resize(prev, cnt + 1, 0);
      i := 0;
      while i < t.nArcs
        invariant i <= t.nArcs && list == Resize(prev, cnt + 1, 0) + Select(keep, i)
      {
        if Lt(t.c[k][i], Inf) && Lt(t.u[k][i], Inf) {
          list := list + [i];
        }
        i := i + 1;
      }
      list := list + [IndexInf];
    } else {
      list := [];
    }
  }

  /** The same lines as the preprocessor writes its lists (cpp:1512-1515):
    * the listed arcs, then the sentinel. */
  method CommodityList(t: Tables, k: nat) returns (list: seq<nat>, cnt: nat)
    requires WellFormed(t) && k < t.nComm
    ensures cnt == InitCounts(t)[k]
    ensures list == ActiveList(Countable(t, k), t.nArcs)
  {
    ghost var keep := Countable(t, k);
    var i := 0;
    cnt := 0;
    while i < t.nArcs
      invariant i <= t.nArcs && cnt == |Select(keep, i)|
    {
      if Lt(t.c[k][i], Inf) && Lt(t.u[k][i], Inf) {
        cnt := cnt + 1;
      }
      i := i + 1;
    }
    if cnt < t.nArcs {
      list := [];
      i := 0;
      while i < t.nArcs
        invariant i <= t.nArcs && list == Select(keep, i)
      {
        if Lt(t.c[k][i], Inf) && Lt(t.u[k][i], Inf) {
          list := list + [i];
        }
        i := i + 1;
      }
      list := list + [IndexInf];
    } else {
      list := [];
    }
  }

  /** The tables after `CmnIntlz`, with the intended lists. */
  function Initialized(t: Tables): Tables
    requires WellFormed(t)
  {
    t.(strtNme := 1,
       activeK := seq(t.nComm, k requires 0 <= k < t.nComm => ActiveList(Countable(t, k), t.nArcs)),
       namesK := NamesChain(t.nCnst, InitCounts(t)))
  }

  /** The loop over the commodities of cpp:1739-1766, on `resize`d vectors. */
  method InitialiseTables(t: Tables) returns (r: Tables)
    requires WellFormed(t)
    ensures r == Initialized(t)
  {
    var activeK := Resize(t.activeK, t.nComm, []);
    var namesK := Resize(t.namesK, t.nComm + 1, 0);
    namesK := namesK[0 := t.nCnst];
    ghost var chain := NamesChain(t.nCnst, InitCounts(t));
    var k := 0;
    while k < t.nComm
      invariant k <= t.nComm && |activeK| == t.nComm && |namesK| == t.nComm + 1
      invariant forall q :: 0 <= q < k ==> activeK[q] == ActiveList(Countable(t, q), t.nArcs)
      invariant forall q :: 0 <= q <= k ==> namesK[q] == chain[q]
    {
      var list, cnt := CommodityList(t, k);
      namesK := namesK[k + 1 := namesK[k] + cnt];
      activeK := activeK[k := list];
      k := k + 1;
    }
    r := t.(strtNme := 1, activeK := activeK, namesK := namesK);
  }

  /** After `CmnIntlz` the data is unchanged and the tables can be
    * preprocessed (their arcs join nodes `1 .. NNodes`); `NamesK` starts at
    * `NCnst` and adds up the counts; and every list is empty exactly when
    * all arcs count, and otherwise lists the countable arcs in ascending
    * order before the sentinel. */
  lemma InitializedLists(t: Tables)
    requires WellFormed(t) && t.nArcs < IndexInf
    ensures var r := Initialized(t);
      && r.c == t.c && r.u == t.u && r.b == t.b && r.uTot == t.uTot && r.f == t.f
      && r.nCnst == t.nCnst && r.active == t.active && r.strtNme == 1
      && (t.nComm >= 1 ==> Preprocessable(r))
      && |r.activeK| == t.nComm && |r.namesK| == t.nComm + 1
      && r.namesK[0] == t.nCnst
      && (forall k :: 0 <= k < t.nComm ==> r.namesK[k + 1] == r.namesK[k] + |Select(Countable(t, k), t.nArcs)|)
      && (forall k :: 0 <= k < t.nComm ==>
            var l := r.activeK[k]; var keep := Countable(t, k);
            && (l == [] <==> forall i :: 0 <= i < t.nArcs ==> keep[i])
            && (l != [] ==>
                  && |l| == |Select(keep, t.nArcs)| + 1 && l[|l| - 1] == IndexInf
                  && StrictlyAscending(l[..|l| - 1])
                  && (forall i :: 0 <= i < t.nArcs ==> (keep[i] <==> i in l[..|l| - 1]))))
  {
    var r := Initialized(t);
    forall k | 0 <= k < t.nComm
      ensures var l := r.activeK[k]; var keep := Countable(t, k);
            && (l == [] <==> forall i :: 0 <= i < t.nArcs ==> keep[i])
            && (l != [] ==>
                  && |l| == |Select(keep, t.nArcs)| + 1 && l[|l| - 1] == IndexInf
                  && StrictlyAscending(l[..|l| - 1])
                  && (forall i :: 0 <= i < t.nArcs ==> (keep[i] <==> i in l[..|l| - 1])))
    {
      ActiveListShape(Countable(t, k), t.nArcs);
    }
  }
}
