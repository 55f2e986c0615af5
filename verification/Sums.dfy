/** Finite sums, the shared vocabulary of the counting invariants in this project. */
module Sums {

  /** f(0) + ... + f(n - 1). */
  ghost function Sum(f: nat -> int, n: nat): int
  {
    if n == 0 then 0 else Sum(f, n - 1) + f(n - 1)
  }

  lemma {:induction false} SumSame(f: nat -> int, g: nat -> int, n: nat)
    requires forall j: nat :: j < n ==> f(j) == g(j)
    ensures Sum(f, n) == Sum(g, n)
  {
    if n > 0 { SumSame(f, g, n - 1); }
  }

  /** Changing one summand changes the sum by exactly the difference. */
  lemma {:induction false} SumChange(f: nat -> int, g: nat -> int, n: nat, k: nat)
    requires k < n
    requires forall j: nat :: j < n && j != k ==> f(j) == g(j)
    ensures Sum(g, n) == Sum(f, n) - f(k) + g(k)
  {
    if k == n - 1 {
      SumSame(f, g, n - 1);
    } else {
      SumChange(f, g, n - 1, k);
    }
  }

  lemma OneMore(n: int, c: int)
    ensures n * c == (n - 1) * c + c
  {
  }

  lemma {:induction false} SumBounds(f: nat -> int, n: nat, lo: int, hi: int)
    requires forall j: nat :: j < n ==> lo <= f(j) <= hi
    ensures n * lo <= Sum(f, n) <= n * hi
  {
    if n > 0 {
      SumBounds(f, n - 1, lo, hi);
      OneMore(n, lo);
      OneMore(n, hi);
    }
  }

  /** A sum of non-negative terms is at least each of them. */
  lemma {:induction false} SumAtLeast(f: nat -> int, n: nat, k: nat)
    requires k < n
    requires forall j: nat :: j < n ==> 0 <= f(j)
    ensures f(k) <= Sum(f, n)
  {
    if k == n - 1 {
      SumBounds(f, n - 1, 0, Max(f, n - 1));
    } else {
      SumAtLeast(f, n - 1, k);
    }
  }

  /** A sum of non-negative terms is at least any two of them together. */
  lemma {:induction false} SumAtLeastTwo(f: nat -> int, n: nat, j: nat, k: nat)
    requires j < k < n
    requires forall i: nat :: i < n ==> 0 <= f(i)
    ensures f(j) + f(k) <= Sum(f, n)
  {
    if k == n - 1 {
      SumAtLeast(f, n - 1, j);
    } else {
      SumAtLeastTwo(f, n - 1, j, k);
    }
  }

  ghost function Max(f: nat -> int, n: nat): (m: int)
    ensures forall j: nat :: j < n ==> f(j) <= m
  {
    if n == 0 then 0
    else
      var m := Max(f, n - 1);
      if f(n - 1) > m then f(n - 1) else m
  }

  /** When every term is at most one and the sum is the number of terms, every term is one. */
  lemma {:induction false} SumFull(f: nat -> int, n: nat)
    requires forall j: nat :: j < n ==> f(j) <= 1
    requires Sum(f, n) >= n
    ensures forall j: nat :: j < n ==> f(j) == 1
  {
    if n > 0 {
      SumAtMostCount(f, n - 1);
      SumFull(f, n - 1);
    }
  }

  lemma {:induction false} SumAtMostCount(f: nat -> int, n: nat)
    requires forall j: nat :: j < n ==> f(j) <= 1
    ensures Sum(f, n) <= n
  {
    if n > 0 { SumAtMostCount(f, n - 1); }
  }

  lemma {:induction false} SumShift(f: nat -> int, g: nat -> int, a: nat, n: nat)
    requires forall k: nat :: k < n ==> g(k) == f(a + k)
    ensures Sum(g, n) == Sum(f, a + n) - Sum(f, a)
  {
    if n > 0 { SumShift(f, g, a, n - 1); }
  }
}
