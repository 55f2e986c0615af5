/** Finite sums of reals and the few laws the quantised kernels need. */
module RealSums {

  /** f(0) + ... + f(n - 1). */
  ghost function RSum(f: nat -> real, n: nat): real
  {
    if n == 0 then 0.0 else RSum(f, n - 1) + f(n - 1)
  }

  function Abs(x: real): real { if x < 0.0 then -x else x }

  lemma RSumNext(f: nat -> real, n: nat)
    ensures RSum(f, 0) == 0.0 && RSum(f, n + 1) == RSum(f, n) + f(n)
  {
  }

  lemma {:induction false} RSumSame(f: nat -> real, g: nat -> real, n: nat)
    requires forall k: nat :: k < n ==> f(k) == g(k)
    ensures RSum(f, n) == RSum(g, n)
  {
    if n > 0 { RSumSame(f, g, n - 1); }
  }

  /** A sum splits at any point. */
  lemma {:induction false} RSumSplit(f: nat -> real, a: nat, b: nat)
    ensures RSum(f, a + b) == RSum(f, a) + RSum((k: nat) => f(a + k), b)
  {
    if b > 0 { RSumSplit(f, a, b - 1); }
  }

  lemma Distribute(c: real, a: real, b: real)
    ensures c * (a + b) == c * a + c * b
  {
  }

  /** The sum of block `g` of `width` consecutive terms, as a function of `g`. */
  ghost function BlockSums(f: nat -> real, width: nat): nat -> real
  {
    (g: nat) => RSum((k: nat) => f(g * width + k), width)
  }

  /** Sums over blocks of `width` elements add up to the sum over all of them. */
  lemma {:induction false} RSumBlocks(f: nat -> real, width: nat, n: nat)
    ensures RSum(f, n * width) == RSum(BlockSums(f, width), n)
  {
    if n == 0 {
      assert n * width == 0;
    } else {
      RSumBlocks(f, width, n - 1);
      assert n * width == (n - 1) * width + width;
      RSumSplit(f, (n - 1) * width, width);
    }
  }

  /** Terms that are each a block sum plus a rest add up to the whole sum plus the rests. */
  lemma RSumBlocksWithRest(term: nat -> real, f: nat -> real, rest: nat -> real, width: nat, n: nat)
    requires forall g: nat :: g < n ==> term(g) == BlockSums(f, width)(g) + rest(g)
    ensures RSum(term, n) == RSum(f, n * width) + RSum(rest, n)
  {
    RSumAdd(term, BlockSums(f, width), rest, n);
    RSumBlocks(f, width, n);
  }

  /** The triangle inequality for a term-by-term bound. */
  lemma {:induction false} RSumBound(f: nat -> real, bound: nat -> real, n: nat)
    requires forall k: nat :: k < n ==> Abs(f(k)) <= bound(k)
    ensures Abs(RSum(f, n)) <= RSum(bound, n)
  {
    if n > 0 { RSumBound(f, bound, n - 1); }
  }

  /** A sum whose partial sums have a closed form. */
  lemma {:induction false} Telescope(total: nat -> real, f: nat -> real, n: nat)
    requires total(0) == 0.0
    requires forall k: nat :: k < n ==> total(k + 1) == total(k) + f(k)
    ensures RSum(f, n) == total(n)
  {
    if n > 0 { Telescope(total, f, n - 1); }
  }

  lemma {:induction false} RSumAdd(f: nat -> real, g: nat -> real, h: nat -> real, n: nat)
    requires forall k: nat :: k < n ==> f(k) == g(k) + h(k)
    ensures RSum(f, n) == RSum(g, n) + RSum(h, n)
  {
    if n > 0 { RSumAdd(f, g, h, n - 1); }
  }

  /** Sums of terms that are pairwise close are close. */
  lemma RSumDiffBound(f: nat -> real, g: nat -> real, bound: nat -> real, n: nat)
    requires forall k: nat :: k < n ==> Abs(f(k) - g(k)) <= bound(k)
    ensures Abs(RSum(f, n) - RSum(g, n)) <= RSum(bound, n)
  {
    var diff := (k: nat) => f(k) - g(k);
    RSumAdd(f, g, diff, n);
    RSumBound(diff, bound, n);
  }

  lemma {:induction false} RSumScale(c: real, f: nat -> real, cf: nat -> real, n: nat)
    requires forall k: nat :: k < n ==> cf(k) == c * f(k)
    ensures RSum(cf, n) == c * RSum(f, n)
  {
    if n > 0 {
      RSumScale(c, f, cf, n - 1);
      Distribute(c, RSum(f, n - 1), f(n - 1));
    }
  }
}
