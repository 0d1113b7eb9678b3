/**
 * Sequence helpers mirroring the `std::vector` operations the block uses
 * (`resize`, compaction of selected indices, element-wise `==`).
 */
module SeqUtil {
  import opened ExtNum

  /** `Inf<Index>()`, the sentinel that terminates the active-arc lists.
    * `Index` is taken to be a 32-bit unsigned integer. */
  const IndexInf: nat := 0xFFFF_FFFF

  /** `v.resize( n , fill )`: keeps the first `n` entries, pads with `fill`. */
  function Resize<T>(s: seq<T>, n: nat, fill: T): (r: seq<T>)
    ensures |r| == n
    ensures forall j :: 0 <= j < n && j < |s| ==> r[j] == s[j]
    ensures forall j :: |s| <= j < n ==> r[j] == fill
  {
    if n <= |s| then s[..n] else s + seq(n - |s|, _ => fill)
  }

  /** The ascending list of the indices `j < n` with `keep[j]`. */
  function Select(keep: seq<bool>, n: nat): seq<nat>
    requires n <= |keep|
  {
    if n == 0 then [] else Select(keep, n - 1) + (if keep[n - 1] then [n - 1] else [])
  }

  predicate StrictlyAscending(s: seq<nat>) {
    forall a, b :: 0 <= a < b < |s| ==> s[a] < s[b]
  }

  /** `Select` lists exactly the kept indices below `n`, in ascending order. */
  lemma {:induction false} SelectExact(keep: seq<bool>, n: nat)
    requires n <= |keep|
    ensures StrictlyAscending(Select(keep, n))
    ensures |Select(keep, n)| <= n
    ensures forall j :: 0 <= j < |Select(keep, n)| ==> Select(keep, n)[j] < n && keep[Select(keep, n)[j]]
    ensures forall i :: 0 <= i < n ==> (keep[i] <==> i in Select(keep, n))
  {
    if n > 0 {
      SelectExact(keep, n - 1);
    }
  }

  /** Every index kept below `i` comes before every index kept at or above `i`. */
  lemma {:induction false} SelectPrefix(keep: seq<bool>, i: nat, n: nat)
    requires i <= n <= |keep|
    ensures |Select(keep, i)| <= |Select(keep, n)|
    ensures Select(keep, n)[..|Select(keep, i)|] == Select(keep, i)
    ensures forall j :: |Select(keep, i)| <= j < |Select(keep, n)| ==> Select(keep, n)[j] >= i
  {
    if i < n {
      SelectPrefix(keep, i, n - 1);
      SelectExact(keep, n - 1);
      var s := Select(keep, n - 1);
      assert Select(keep, n) == s + (if keep[n - 1] then [n - 1] else []);
      assert Select(keep, n)[..|s|] == s;
    }
  }

  /** Element-wise `std::vector` equality on doubles. */
  predicate RowEq(a: seq<Num>, b: seq<Num>) {
    |a| == |b| && forall j :: 0 <= j < |a| ==> Eq(a[j], b[j])
  }

  lemma RowEqIsIdentity(a: seq<Num>, b: seq<Num>)
    ensures RowEq(a, b) ==> a == b
  {
    if RowEq(a, b) {
      assert forall j :: 0 <= j < |a| ==> a[j] == b[j];
    }
  }
}
