/**
 The fused matrix-vector products, end to end: how far each output can be from the product
 of the dequantised weights with the original, unquantised input.
 */
module QuantMatmul {
  import opened RealSums
  import opened QuantFormats
  import opened QuantFused
  import opened QuantError

  /** `y` holds the quantised blocks of the leading values of `x`. */
  ghost predicate QuantisedRow(y: seq<Q81>, x: seq<real>)
  {
    32 * |y| <= |x| && forall b: nat :: b < |y| ==> Quantises(y[b], x[32 * b..32 * b + 32])
  }

  /** Half a quantisation step at element `e`. */
  function HalfStep(y: seq<Q81>, e: nat): real
  {
    if e < 32 * |y| then y[e / 32].d / 2.0 else 0.0
  }

  lemma InputNear(y: seq<Q81>, x: seq<real>, e: nat)
    requires QuantisedRow(y, x) && e < 32 * |y|
    ensures e < |x| && Abs(InputAt(y, e) - x[e]) <= HalfStep(y, e)
  {
    hide Near, Quantises;
    var b, k := e / 32, e % 32;
    var v := x[32 * b..32 * b + 32];
    assert v[k] == x[e];
    assert Quantises(y[b], v);
    NearOfBlock(y[b], v, k);
    NearIs(y[b].d, y[b].qs[k], x[e]);
  }

  lemma NearOfBlock(b: Q81, v: seq<real>, k: nat)
    requires Quantises(b, v) && k < 32
    ensures Near(b.d, b.qs[k], v[k])
  {
    hide Near;
  }

  lemma NearIs(d: real, q: int, v: real)
    requires Near(d, q, v)
    ensures Abs(d * (q as real) - v) <= d / 2.0
  {
  }

  // ---------------------------------------------------------------- Q8_0

  function WeightQ80At(h: nat -> real, w: seq<Q80>, e: nat): real
  {
    if e < 32 * |w| then RowQ80(RealOps(h), w, e) else 0.0
  }

  function ProductQ80(h: nat -> real, w: seq<Q80>, y: seq<Q81>, e: nat): real
  {
    WeightQ80At(h, w, e) * InputAt(y, e)
  }

  ghost function ProductsQ80(h: nat -> real, w: seq<Q80>, y: seq<Q81>): nat -> real
  {
    (e: nat) => ProductQ80(h, w, y, e)
  }

  ghost function ExactQ80(h: nat -> real, w: seq<Q80>, x: seq<real>): nat -> real
  {
    (e: nat) => if e < |x| then WeightQ80At(h, w, e) * x[e] else 0.0
  }

  ghost function BoundQ80(h: nat -> real, w: seq<Q80>, y: seq<Q81>): nat -> real
  {
    (e: nat) => Abs(WeightQ80At(h, w, e)) * HalfStep(y, e)
  }

  /** Element by element: the weight is the block's scale times its integer, the exact product takes the
      original input, the fused one the quantised input, and the bound half a step of the input's block. */
  lemma TermsQ80(h: nat -> real, w: seq<Q80>, y: seq<Q81>, x: seq<real>, g: nat, k: nat)
    requires |y| == |w| && 32 * |w| <= |x| && g < |w| && k < 32
    ensures var e, weight := 32 * g + k, h(w[g].d) * (w[g].qs[k] as real);
      && ExactQ80(h, w, x)(e) == weight * x[e]
      && ProductsQ80(h, w, y)(e) == weight * (y[g].d * (y[g].qs[k] as real))
      && BoundQ80(h, w, y)(e) == Abs(weight) * (y[g].d / 2.0)
  {
    WeightQ80Is(h, w, g, k);
    assert (32 * g + k) / 32 == g && (32 * g + k) % 32 == k;
    hide WeightQ80At, Abs;
  }

  lemma WeightQ80Is(h: nat -> real, w: seq<Q80>, g: nat, k: nat)
    requires g < |w| && k < 32
    ensures WeightQ80At(h, w, 32 * g + k) == h(w[g].d) * (w[g].qs[k] as real)
  {
    assert (32 * g + k) / 32 == g && (32 * g + k) % 32 == k;
  }

  function IntDot(a: seq<Int8>, b: seq<Int8>, n: nat): int
    requires n <= |a| && n <= |b|
  {
    if n == 0 then 0 else IntDot(a, b, n - 1) + (a[n - 1] as int) * (b[n - 1] as int)
  }

  function ScaledInt(d0: real, d1: real, isum: int): real { d0 * d1 * (isum as real) }

  lemma ScaledIntStep(d0: real, d1: real, isum: int, a: int, b: int)
    ensures ScaledInt(d0, d1, isum + a * b) == ScaledInt(d0, d1, isum) + (d0 * (a as real)) * (d1 * (b as real))
  {
    CastProduct(a, b);
    Distribute(d0 * d1, isum as real, (a * b) as real);
    FourWay(d0, d1, a as real, b as real);
  }

  lemma FourWay(d0: real, d1: real, a: real, b: real)
    ensures (d0 * a) * (d1 * b) == (d0 * d1) * (a * b)
  {
  }

  lemma ProductQ80At(h: nat -> real, w: seq<Q80>, y: seq<Q81>, g: nat, k: nat)
    requires |y| == |w| && g < |w| && k < 32
    ensures ProductQ80(h, w, y, g * 32 + k)
         == (h(w[g].d) * (w[g].qs[k] as real)) * (y[g].d * (y[g].qs[k] as real))
  {
    assert (g * 32 + k) / 32 == g && (g * 32 + k) % 32 == k;
  }

  lemma BlockQ80Step(h: nat -> real, w: seq<Q80>, y: seq<Q81>, g: nat, k: nat)
    requires |y| == |w| && g < |w| && k < 32
    ensures ScaledInt(h(w[g].d), y[g].d, IntDot(w[g].qs, y[g].qs, k + 1))
         == ScaledInt(h(w[g].d), y[g].d, IntDot(w[g].qs, y[g].qs, k)) + ProductQ80(h, w, y, g * 32 + k)
  {
    ProductQ80At(h, w, y, g, k);
    hide ScaledInt, ProductQ80;
    ScaledIntStep(h(w[g].d), y[g].d, IntDot(w[g].qs, y[g].qs, k), w[g].qs[k], y[g].qs[k]);
  }

  lemma ScaledIntZero(d0: real, d1: real)
    ensures ScaledInt(d0, d1, 0) == 0.0
  {
  }

  lemma BlockQ80Sum(h: nat -> real, w: seq<Q80>, y: seq<Q81>, g: nat)
    requires |y| == |w| && g < |w|
    ensures BlockSums(ProductsQ80(h, w, y), 32)(g) == ScaledInt(h(w[g].d), y[g].d, IntDot(w[g].qs, y[g].qs, 32))
  {
    hide ScaledInt, ProductQ80;
    var f := ProductsQ80(h, w, y);
    var part := (k: nat) => f(g * 32 + k);
    var total := (k: nat) => if k <= 32 then ScaledInt(h(w[g].d), y[g].d, IntDot(w[g].qs, y[g].qs, k)) else 0.0;
    ScaledIntZero(h(w[g].d), y[g].d);
    forall k: nat | k < 32 ensures total(k + 1) == total(k) + part(k) { BlockQ80Step(h, w, y, g, k); }
    Telescope(total, part, 32);
  }

  /** `vec_dot_q8_0_q8_1`: one integer sum per block, scaled at the end, is exactly the product
      of the dequantised rows. */
  method VecDotQ80Q81(h: nat -> real, w: seq<Q80>, y: seq<Q81>) returns (sumf: real)
    requires |y| == |w|
    ensures sumf == RSum(ProductsQ80(h, w, y), 32 * |w|)
  {
    hide ScaledInt, ProductsQ80, BlockSums;
    ghost var f := ProductsQ80(h, w, y);
    sumf := 0.0;
    for i := 0 to |w|
      invariant sumf == RSum(BlockSums(f, 32), i)
    {
      var isum: int := 0;
      for j := 0 to 32
        invariant isum == IntDot(w[i].qs, y[i].qs, j)
      {
        isum := isum + (w[i].qs[j] as int) * (y[i].qs[j] as int);
      }
      BlockQ80Sum(h, w, y, i);
      RSumNext(BlockSums(f, 32), i);
      var scaled := Scale(h(w[i].d), y[i].d, isum);
      sumf := sumf + scaled;
    }
    RSumBlocks(f, 32, |w|);
    assert |w| * 32 == 32 * |w|;
  }

  method Scale(d0: real, d1: real, isum: int) returns (v: real)
    ensures v == ScaledInt(d0, d1, isum)
  {
    v := d0 * d1 * (isum as real);
  }

  lemma ProductError(w: real, i: real, x: real, step: real, product: real, exact: real, bound: real)
    requires Abs(i - x) <= step && product == w * i && exact == w * x && bound == Abs(w) * step
    ensures Abs(product - exact) <= bound
  {
    Distribute(w, i, -x);
    assert product - exact == w * (i - x);
    AbsProduct(w, i - x);
    MulAtMost(Abs(w), Abs(i - x), step);
  }

  lemma AbsProduct(a: real, b: real)
    ensures Abs(a * b) == Abs(a) * Abs(b)
  {
  }

  lemma MulAtMost(a: real, b: real, c: real)
    requires a >= 0.0 && b <= c
    ensures a * b <= a * c
  {
  }

  /** Quantising the input costs a Q8_0 row at most half an input step per unit of weight. */
  lemma DotErrorQ80(h: nat -> real, w: seq<Q80>, y: seq<Q81>, x: seq<real>)
    requires |y| == |w| && QuantisedRow(y, x)
    ensures Abs(RSum(ProductsQ80(h, w, y), 32 * |w|) - RSum(ExactQ80(h, w, x), 32 * |w|))
         <= RSum(BoundQ80(h, w, y), 32 * |w|)
  {
    hide QuantisedRow, WeightQ80At, InputAt, HalfStep, Abs;
    var n := 32 * |w|;
    forall e: nat | e < n
      ensures Abs(ProductsQ80(h, w, y)(e) - ExactQ80(h, w, x)(e)) <= BoundQ80(h, w, y)(e)
    {
      InputNear(y, x, e);
      ProductError(WeightQ80At(h, w, e), InputAt(y, e), x[e], HalfStep(y, e),
                   ProductsQ80(h, w, y)(e), ExactQ80(h, w, x)(e), BoundQ80(h, w, y)(e));
    }
    RSumDiffBound(ProductsQ80(h, w, y), ExactQ80(h, w, x), BoundQ80(h, w, y), n);
  }

  /** `matmul_q8_0_fused`: with too small a buffer nothing is written; otherwise every output is
      within the quantisation bound of the exact product over the whole blocks of the input. */
  method MatmulQ80Fused(h: nat -> real, out: array<real>, weights: seq<Q80>, x: seq<real>, buffer: array<Q81>)
    requires |weights| == out.Length * (|x| / 32)
    modifies out, buffer
    ensures |x| / 32 > buffer.Length ==> out[..] == old(out[..]) && buffer[..] == old(buffer[..])
    ensures |x| / 32 <= buffer.Length ==>
              && QuantisedRow(buffer[..|x| / 32], x)
              && forall r: nat :: r < out.Length ==>
                   CloseQ80(h, out[r], TableRow(weights, |x| / 32, out.Length, r), buffer[..|x| / 32], x)
  {
    hide CloseQ80, Quantises;
    var nb := |x| / 32;
    if nb > buffer.Length { return; }
    QuantizeRowQ81(x, buffer);
    ghost var y := buffer[..nb];
    for r := 0 to out.Length
      invariant buffer[..nb] == y
      invariant forall k: nat :: k < r ==> CloseQ80(h, out[k], TableRow(weights, nb, out.Length, k), y, x)
    {
      var row := TableRow(weights, nb, out.Length, r);
      var v := VecDotQ80Q81(h, row, buffer[..nb]);
      CloseIntro(h, v, row, y, x);
      out[r] := v;
    }
  }

  /** `v` is within the quantisation bound of the product of row `w` with `x`. */
  ghost predicate CloseQ80(h: nat -> real, v: real, w: seq<Q80>, y: seq<Q81>, x: seq<real>)
  {
    Abs(v - RSum(ExactQ80(h, w, x), 32 * |w|)) <= RSum(BoundQ80(h, w, y), 32 * |w|)
  }

  lemma CloseIntro(h: nat -> real, v: real, w: seq<Q80>, y: seq<Q81>, x: seq<real>)
    requires |y| == |w| && QuantisedRow(y, x) && v == RSum(ProductsQ80(h, w, y), 32 * |w|)
    ensures CloseQ80(h, v, w, y, x)
  {
    hide Abs, RSum, ProductsQ80, ExactQ80, BoundQ80, QuantisedRow;
    DotErrorQ80(h, w, y, x);
  }
}
