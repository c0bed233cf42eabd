/**
 Sums over the rows of a table keyed by an identity column.

 A table is a `map<nat, V>` from row id to row. `SumBelow(m, weight, n)` adds
 `weight(row)` over every row whose id is below `n`; with a 0/1 weight it counts
 rows, with a signed weight it totals amounts. Because identity columns hand out
 ids in increasing order, "every id below the next identity value" is the whole
 table, and a newly inserted row is always the last term of the sum.
 */
module Aggregate {

  ghost function SumBelow<V>(m: map<nat, V>, weight: V -> int, n: nat): int
  {
    if n == 0 then 0
    else SumBelow(m, weight, n - 1) + (if n - 1 in m then weight(m[n - 1]) else 0)
  }

  /** A row stored at an id at or above `n` does not enter the sum below `n`. */
  lemma {:induction false} SumBelowIgnoresLater<V>(m: map<nat, V>, weight: V -> int, k: nat, v: V, n: nat)
    requires n <= k
    ensures SumBelow(m[k := v], weight, n) == SumBelow(m, weight, n)
  {
    if n > 0 {
      SumBelowIgnoresLater(m, weight, k, v, n - 1);
    }
  }

  /** Inserting a row at a fresh id `k` above every existing id adds exactly its weight. */
  lemma SumBelowAppend<V>(m: map<nat, V>, weight: V -> int, k: nat, v: V)
    requires forall i :: i in m ==> i < k
    ensures SumBelow(m[k := v], weight, k + 1) == SumBelow(m, weight, k) + weight(v)
  {
    SumBelowIgnoresLater(m, weight, k, v, k);
  }

  /** A table none of whose rows below `n` has weight sums to zero below `n`. */
  lemma {:induction false} SumBelowZero<V>(m: map<nat, V>, weight: V -> int, n: nat)
    requires forall i :: i in m && i < n ==> weight(m[i]) == 0
    ensures SumBelow(m, weight, n) == 0
  {
    if n > 0 {
      SumBelowZero(m, weight, n - 1);
    }
  }

  /** Two tables with the same ids whose rows weigh the same have the same sum. */
  lemma {:induction false} SumBelowCongruent<V, W>(m: map<nat, V>, w: V -> int, m': map<nat, W>, w': W -> int, n: nat)
    requires m.Keys == m'.Keys
    requires forall i :: i in m ==> w(m[i]) == w'(m'[i])
    ensures SumBelow(m, w, n) == SumBelow(m', w', n)
  {
    if n > 0 {
      SumBelowCongruent(m, w, m', w', n - 1);
    }
  }

  /** With non-negative weights the sum is zero exactly when every row below `n` weighs zero. */
  lemma {:induction false} SumBelowZeroIff<V>(m: map<nat, V>, weight: V -> int, n: nat)
    requires forall i :: i in m ==> weight(m[i]) >= 0
    ensures SumBelow(m, weight, n) >= 0
    ensures SumBelow(m, weight, n) == 0 <==> forall i :: i in m && i < n ==> weight(m[i]) == 0
  {
    if n > 0 {
      SumBelowZeroIff(m, weight, n - 1);
    }
  }
}
