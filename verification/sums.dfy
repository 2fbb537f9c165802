/**
 Finite sums over index ranges, used to count the neighbour slots of a
 whole lattice. `Sum(f, n)` is f(0) + ... + f(n-1).
 */
module Sums {

  function Sum(f: nat -> int, n: nat): int
  {
    if n == 0 then 0 else Sum(f, n - 1) + f(n - 1)
  }

  /** Row i of a two-argument term, as a function of the second argument. */
  function Row(h: (nat, nat) -> int, i: nat): nat -> int
  {
    (d: nat) => h(i, d)
  }

  /** Column d of a two-argument term, as a function of the first argument. */
  function Column(h: (nat, nat) -> int, d: nat): nat -> int
  {
    (i: nat) => h(i, d)
  }

  /** Row-major double sum: the sum over i < n of the sum over d < m of h(i, d). */
  function RowSums(h: (nat, nat) -> int, n: nat, m: nat): int
  {
    if n == 0 then 0 else RowSums(h, n - 1, m) + Sum(Row(h, n - 1), m)
  }

  /** Column-major double sum: the sum over d < m of the sum over i < n of h(i, d). */
  function ColumnSums(h: (nat, nat) -> int, n: nat, m: nat): int
  {
    if m == 0 then 0 else ColumnSums(h, n, m - 1) + Sum(Column(h, m - 1), n)
  }

  /** Sums of pointwise-equal terms are equal. */
  lemma {:induction false} SumCongruent(f: nat -> int, g: nat -> int, n: nat)
    requires forall k :: 0 <= k < n ==> f(k) == g(k)
    ensures Sum(f, n) == Sum(g, n)
  {
    if n > 0 {
      SumCongruent(f, g, n - 1);
    }
  }

  /** A sum of pointwise sums splits into two sums. */
  lemma {:induction false} SumAdd(f: nat -> int, g: nat -> int, h: nat -> int, n: nat)
    requires forall k :: 0 <= k < n ==> h(k) == f(k) + g(k)
    ensures Sum(h, n) == Sum(f, n) + Sum(g, n)
  {
    if n > 0 {
      SumAdd(f, g, h, n - 1);
    }
  }

  /** n copies of c sum to n * c. */
  lemma {:induction false} SumConstant(f: nat -> int, c: int, n: nat)
    requires forall k :: 0 <= k < n ==> f(k) == c
    ensures Sum(f, n) == n * c
  {
    if n > 0 {
      SumConstant(f, c, n - 1);
    }
  }

  /** Counting the indices below n that are also below k gives min(n, k). */
  lemma {:induction false} CountBelow(f: nat -> int, k: nat, n: nat)
    requires forall i :: 0 <= i < n ==> f(i) == (if i < k then 1 else 0)
    ensures Sum(f, n) == (if n <= k then n else k)
  {
    if n > 0 {
      CountBelow(f, k, n - 1);
    }
  }

  /** Counting the indices below n that are at least k gives n - k when k <= n. */
  lemma {:induction false} CountFrom(f: nat -> int, k: nat, n: nat)
    requires k <= n
    requires forall i :: 0 <= i < n ==> f(i) == (if i < k then 0 else 1)
    ensures Sum(f, n) == n - k
  {
    if n > k {
      CountFrom(f, k, n - 1);
    } else {
      SumConstant(f, 0, n);
    }
  }

  /** The order of summation of a finite double sum does not matter. */
  lemma {:induction false} SwapSums(h: (nat, nat) -> int, n: nat, m: nat)
    ensures RowSums(h, n, m) == ColumnSums(h, n, m)
  {
    if n > 0 {
      SwapSums(h, n - 1, m);
      PeelLastRow(h, n, m);
    } else {
      ColumnsOfNoRows(h, m);
    }
  }

  lemma {:induction false} ColumnsOfNoRows(h: (nat, nat) -> int, m: nat)
    ensures ColumnSums(h, 0, m) == 0
  {
    if m > 0 {
      ColumnsOfNoRows(h, m - 1);
    }
  }

  /** Adding row n - 1 to the column sums of n - 1 rows gives the column sums of n rows. */
  lemma {:induction false} PeelLastRow(h: (nat, nat) -> int, n: nat, m: nat)
    requires n > 0
    ensures ColumnSums(h, n, m) == ColumnSums(h, n - 1, m) + Sum(Row(h, n - 1), m)
  {
    if m > 0 {
      PeelLastRow(h, n, m - 1);
    }
  }
}
