/**
 The fused Q4_K product, end to end.  Because the input block stores the sum of its original
 values, the residue of the fused dot cancels the error of the min term exactly: only the
 scaled part of each weight feels the quantisation of the input.
 */
module QuantMatmulQ4K {
  import opened RealSums
  import opened QuantFormats
  import opened QuantFused
  import opened QuantError
  import opened QuantMatmul

  /** The weight without its min: scale times nibble. */
  function ScaledAt(h: nat -> real, w: seq<Q4K>, e: nat): real
  {
    if e < 256 * |w| then
      SubScale(RealOps(h), w[e / 256], e % 256 / 32) * (Nibble(w[e / 256].qs, e % 256) as real)
    else 0.0
  }

  ghost function Exact(h: nat -> real, w: seq<Q4K>, x: seq<real>): nat -> real
  {
    (e: nat) => if e < |x| then WeightAt(h, w, e) * x[e] else 0.0
  }

  ghost function Error(h: nat -> real, w: seq<Q4K>, y: seq<Q81>, x: seq<real>): nat -> real
  {
    (e: nat) => if e < |x| then ScaledAt(h, w, e) * (InputAt(y, e) - x[e]) else 0.0
  }

  ghost function Bound(h: nat -> real, w: seq<Q4K>, y: seq<Q81>): nat -> real
  {
    (e: nat) => Abs(ScaledAt(h, w, e)) * HalfStep(y, e)
  }

  /** How far quantisation moved element `k` of block `g`. */
  ghost function Gap(y: seq<Q81>, x: seq<real>, g: nat): nat -> real
  {
    (k: nat) => if g * 32 + k < |x| then InputAt(y, g * 32 + k) - x[g * 32 + k] else 0.0
  }

  function GapTotal(d: real, q: int, s: real): real { d * (q as real) - s }

  /** How far `q` steps of size `d` are from `v`. */
  function Moved(d: real, q: int, v: real): real { d * (q as real) - v }

  lemma GapStep(d: real, q: int, s: real, dq: int, v: real, gap: real)
    requires gap == Moved(d, dq, v)
    ensures GapTotal(d, q + dq, s + v) == GapTotal(d, q, s) + gap
  {
    Distribute(d, q as real, dq as real);
  }

  lemma GapAt(y: seq<Q81>, x: seq<real>, g: nat, k: nat)
    requires QuantisedRow(y, x) && g < |y| && k < 32
    ensures g * 32 + k < |x| && 32 * g + 32 <= |x|
    ensures Gap(y, x, g)(k) == Moved(y[g].d, y[g].qs[k], x[32 * g..32 * g + 32][k])
  {
    hide Quantises;
    PlaceInRow(g, k);
    GapPlace(y, x, g, k, g * 32 + k);
  }

  lemma GapPlace(y: seq<Q81>, x: seq<real>, g: nat, k: nat, e: nat)
    requires g < |y| && k < 32 && e == 32 * g + k && e / 32 == g && e % 32 == k && 32 * g + 32 <= |x|
    ensures Gap(y, x, g)(k) == Moved(y[g].d, y[g].qs[k], x[32 * g..32 * g + 32][k])
  {
    assert InputAt(y, e) == y[g].d * (y[g].qs[k] as real);
    assert x[32 * g..32 * g + 32][k] == x[e];
    hide InputAt;
  }

  lemma GapZero(d: real)
    ensures GapTotal(d, 0, 0.0) == 0.0
  {
  }

  lemma StoredSum(b: Q81, v: seq<real>)
    requires Quantises(b, v)
    ensures |v| == 32 && b.s == RSum(Elements(v), 32)
  {
    hide Near;
  }

  lemma GapAdvance(y: seq<Q81>, x: seq<real>, g: nat, k: nat, v: seq<real>)
    requires QuantisedRow(y, x) && g < |y| && k < 32 && v == x[32 * g..32 * g + 32]
    ensures GapTotal(y[g].d, QuantSum(y[g].qs, k + 1), RSum(Elements(v), k + 1))
         == GapTotal(y[g].d, QuantSum(y[g].qs, k), RSum(Elements(v), k)) + Gap(y, x, g)(k)
  {
    hide GapTotal, Gap, Quantises, Moved;
    GapAt(y, x, g, k);
    RSumNext(Elements(v), k);
    GapStep(y[g].d, QuantSum(y[g].qs, k), RSum(Elements(v), k), y[g].qs[k], v[k], Gap(y, x, g)(k));
  }

  /** The gaps of a block add up to the gap of the sums. */
  lemma GapSum(y: seq<Q81>, x: seq<real>, g: nat)
    requires QuantisedRow(y, x) && g < |y|
    ensures RSum(Gap(y, x, g), 32) == GapTotal(y[g].d, QuantSum(y[g].qs, 32), y[g].s)
  {
    hide GapTotal, Gap, Quantises, Elements;
    var v := x[32 * g..32 * g + 32];
    StoredSum(y[g], v);
    var total := (k: nat) => if k <= 32 then GapTotal(y[g].d, QuantSum(y[g].qs, k), RSum(Elements(v), k)) else 0.0;
    GapZero(y[g].d);
    forall k: nat | k < 32 ensures total(k + 1) == total(k) + Gap(y, x, g)(k) {
      GapAdvance(y, x, g, k, v);
    }
    Telescope(total, Gap(y, x, g), 32);
  }

  function Times(a: real, b: real): real { a * b }

  lemma ElementSplit(wt: real, p: real, m: real, i: real, x: real, product: real, exact: real, error: real, shift: real)
    requires wt == p - m && product == Times(wt, i) && exact == Times(wt, x)
    requires error == Times(p, i - x) && shift == Times(m, i - x)
    ensures exact + error == product + shift
  {
    SplitProducts(p, m, i, x);
  }

  /** The four products of an element. */
  lemma ElementParts(h: nat -> real, w: seq<Q4K>, y: seq<Q81>, x: seq<real>, g: nat, k: nat)
    requires g < 8 * |w| && g < |y| && g * 32 + k < |x|
    ensures var e := g * 32 + k;
      && Product(h, w, y, e) == Times(WeightAt(h, w, e), InputAt(y, e))
      && Exact(h, w, x)(e) == Times(WeightAt(h, w, e), x[e])
      && Error(h, w, y, x)(e) == Times(ScaledAt(h, w, e), InputAt(y, e) - x[e])
      && Times(MinOf(h, w, g), Gap(y, x, g)(k)) == Times(MinOf(h, w, g), InputAt(y, e) - x[e])
  {
    hide InputAt, WeightAt, ScaledAt, MinOf;
  }

  lemma SplitProducts(p: real, m: real, i: real, x: real)
    ensures (p - m) * x + p * (i - x) == (p - m) * i + m * (i - x)
  {
  }

  /** The fused product of element `k` of block `g`, split into the exact product, the error of
      the scaled part and the share of the min. */
  lemma ElementError(h: nat -> real, w: seq<Q4K>, y: seq<Q81>, x: seq<real>, g: nat, k: nat, shift: real)
    requires |y| == 8 * |w| && QuantisedRow(y, x) && g < |y| && k < 32
    requires shift == Times(MinOf(h, w, g), Gap(y, x, g)(k))
    ensures Exact(h, w, x)(g * 32 + k) + Error(h, w, y, x)(g * 32 + k) == Product(h, w, y, g * 32 + k) + shift
  {
    hide Quantises, QuantisedRow, InputAt, WeightAt, ScaledAt, MinOf, Moved, Times, Product, Exact, Error, Gap;
    WeightParts(h, w, g, k);
    GapAt(y, x, g, k);
    ElementParts(h, w, y, x, g, k);
    var e := g * 32 + k;
    ElementSplit(WeightAt(h, w, e), ScaledAt(h, w, e), MinOf(h, w, g), InputAt(y, e), x[e],
                 Product(h, w, y, e), Exact(h, w, x)(e), Error(h, w, y, x)(e), shift);
  }

  /** A dequantised weight is its scaled nibble less the min of its sub-block. */
  lemma WeightParts(h: nat -> real, w: seq<Q4K>, g: nat, k: nat)
    requires g < 8 * |w| && k < 32
    ensures WeightAt(h, w, g * 32 + k) == ScaledAt(h, w, g * 32 + k) - MinOf(h, w, g)
  {
    hide WeightAt, ScaledAt, ScaleOf, MinOf, Nibble;
    var n: int := Nibble(w[g / 8].qs, 32 * (g % 8) + k);
    WeightInRow(h, w, g, k, n);
    ScaledInRow(h, w, g, k, n);
  }

  lemma ScaledInRow(h: nat -> real, w: seq<Q4K>, g: nat, k: nat, n: int)
    requires g < 8 * |w| && k < 32 && n == Nibble(w[g / 8].qs, 32 * (g % 8) + k)
    ensures ScaledAt(h, w, g * 32 + k) == Scaled(ScaleOf(h, w, g), n, 0.0)
  {
    PlaceInRow(g, k);
    hide SubScale, Nibble;
  }

  ghost function Share(h: nat -> real, w: seq<Q4K>, y: seq<Q81>, x: seq<real>, g: nat): nat -> real
  {
    (k: nat) => if g < 8 * |w| then Times(MinOf(h, w, g), Gap(y, x, g)(k)) else 0.0
  }

  lemma ShareSum(h: nat -> real, w: seq<Q4K>, y: seq<Q81>, x: seq<real>, g: nat)
    requires |y| == 8 * |w| && QuantisedRow(y, x) && g < |y|
    ensures RSum(Share(h, w, y, x, g), 32) == Residue(h, w, y, g)
  {
    hide Quantises, Gap, MinOf;
    RSumScale(MinOf(h, w, g), Gap(y, x, g), Share(h, w, y, x, g), 32);
    GapSum(y, x, g);
    ResidueIs(h, w, y, g);
  }

  lemma ResidueIs(h: nat -> real, w: seq<Q4K>, y: seq<Q81>, g: nat)
    requires |y| == 8 * |w| && g < |y|
    ensures Residue(h, w, y, g) == MinOf(h, w, g) * GapTotal(y[g].d, QuantSum(y[g].qs, 32), y[g].s)
  {
    hide SubMin;
  }

  ghost function ExactPlusError(h: nat -> real, w: seq<Q4K>, y: seq<Q81>, x: seq<real>): nat -> real
  {
    (e: nat) => Exact(h, w, x)(e) + Error(h, w, y, x)(e)
  }

  /** Block by block: exact product plus error is the fused product plus the residue. */
  lemma BlockError(h: nat -> real, w: seq<Q4K>, y: seq<Q81>, x: seq<real>, g: nat)
    requires |y| == 8 * |w| && QuantisedRow(y, x) && g < |y|
    ensures BlockSums(ExactPlusError(h, w, y, x), 32)(g) == BlockSums(Products(h, w, y), 32)(g) + Residue(h, w, y, g)
  {
    hide Quantises, QuantisedRow, Gap, MinOf, Exact, Error, Product, Residue;
    var all, exact := Products(h, w, y), ExactPlusError(h, w, y, x);
    forall k: nat | k < 32 ensures exact(g * 32 + k) == all(g * 32 + k) + Share(h, w, y, x, g)(k) {
      ElementError(h, w, y, x, g, k, Share(h, w, y, x, g)(k));
    }
    RSumAdd((k: nat) => exact(g * 32 + k), (k: nat) => all(g * 32 + k), Share(h, w, y, x, g), 32);
    ShareSum(h, w, y, x, g);
  }

  /** The fused result differs from the exact product only by the error of the scaled parts. */
  lemma FusedIsExactPlusError(h: nat -> real, w: seq<Q4K>, y: seq<Q81>, x: seq<real>)
    requires |y| == 8 * |w| && QuantisedRow(y, x)
    ensures DequantisedDot(h, w, y) + RSum((g: nat) => Residue(h, w, y, g), 8 * |w|)
         == RSum(Exact(h, w, x), 256 * |w|) + RSum(Error(h, w, y, x), 256 * |w|)
  {
    hide Quantises, QuantisedRow, Exact, Error, Residue, BlockSums, Product;
    var n := 8 * |w|;
    var residues := (g: nat) => Residue(h, w, y, g);
    forall g: nat | g < n
      ensures BlockSums(ExactPlusError(h, w, y, x), 32)(g) == BlockSums(Products(h, w, y), 32)(g) + residues(g)
    {
      BlockError(h, w, y, x, g);
    }
    RSumBlocksWithRest(BlockSums(ExactPlusError(h, w, y, x), 32), Products(h, w, y), residues, 32, n);
    RSumBlocks(ExactPlusError(h, w, y, x), 32, n);
    assert n * 32 == 256 * |w|;
    RSumAdd(ExactPlusError(h, w, y, x), Exact(h, w, x), Error(h, w, y, x), 256 * |w|);
  }

  lemma ErrorTerm(a: real, gap: real, step: real, error: real, bound: real)
    requires Abs(gap) <= step && error == a * gap && bound == Abs(a) * step
    ensures Abs(error) <= bound
  {
    AbsProduct(a, gap);
    MulAtMost(Abs(a), Abs(gap), step);
  }

  lemma ErrorAtMost(h: nat -> real, w: seq<Q4K>, y: seq<Q81>, x: seq<real>, e: nat)
    requires |y| == 8 * |w| && QuantisedRow(y, x) && e < 256 * |w|
    ensures Abs(Error(h, w, y, x)(e)) <= Bound(h, w, y)(e)
  {
    hide QuantisedRow, Abs, ScaledAt, InputAt, HalfStep;
    InputNear(y, x, e);
    ErrorTerm(ScaledAt(h, w, e), InputAt(y, e) - x[e], HalfStep(y, e), Error(h, w, y, x)(e), Bound(h, w, y)(e));
  }

  /** `v` is within the quantisation bound of the product of row `w` with `x`. */
  ghost predicate Close(h: nat -> real, v: real, w: seq<Q4K>, y: seq<Q81>, x: seq<real>)
  {
    Abs(v - RSum(Exact(h, w, x), 256 * |w|)) <= RSum(Bound(h, w, y), 256 * |w|)
  }

  // ---------------------------------------------------------------- in terms of the packed fields

  /** The exact product, element by element, for blocks packed from `fs`. */
  ghost function FieldExact(h: nat -> real, fs: seq<Fields>, x: seq<real>): nat -> real
    requires 256 * |fs| <= |x| && forall i :: 0 <= i < |fs| ==> fs[i].InRange()
  {
    (e: nat) => if e < 256 * |fs| then FieldReal(h, fs[e / 256], e % 256) * x[e] else 0.0
  }

  /** The scaled part of a value: the scale of its sub-block times the value. */
  function FieldScaled(h: nat -> real, f: Fields, e: nat): real
    requires f.InRange() && e < 256
  {
    FieldScale(h, f, e / 32) * (f.values[e] as real)
  }

  /** Its magnitude times half a quantisation step of the input. */
  ghost function FieldBound(h: nat -> real, fs: seq<Fields>, y: seq<Q81>): nat -> real
    requires |y| == 8 * |fs| && forall i :: 0 <= i < |fs| ==> fs[i].InRange()
  {
    (e: nat) => if e < 256 * |fs| then Abs(FieldScaled(h, fs[e / 256], e % 256)) * (y[e / 32].d / 2.0) else 0.0
  }

  /** `v` is within that bound of the exact product. */
  ghost predicate CloseToFields(h: nat -> real, v: real, fs: seq<Fields>, y: seq<Q81>, x: seq<real>)
    requires |y| == 8 * |fs| && 256 * |fs| <= |x| && forall i :: 0 <= i < |fs| ==> fs[i].InRange()
  {
    Abs(v - RSum(FieldExact(h, fs, x), 256 * |fs|)) <= RSum(FieldBound(h, fs, y), 256 * |fs|)
  }

  lemma ScaledOfFields(h: nat -> real, w: seq<Q4K>, fs: seq<Fields>, e: nat)
    requires PackedFrom(w, fs) && e < 256 * |w|
    ensures fs[e / 256].InRange() && ScaledAt(h, w, e) == FieldScaled(h, fs[e / 256], e % 256)
  {
    hide SubScale, FieldScaled, Nibble, Pack;
    ScaledOfBlock(h, fs[e / 256], e % 256);
    ScaledIs(h, w, e, SubScale(RealOps(h), w[e / 256], e % 256 / 32), Nibble(w[e / 256].qs, e % 256));
  }

  lemma ScaledIs(h: nat -> real, w: seq<Q4K>, e: nat, a: real, n: int)
    requires e < 256 * |w|
    requires a == SubScale(RealOps(h), w[e / 256], e % 256 / 32) && n == Nibble(w[e / 256].qs, e % 256)
    ensures ScaledAt(h, w, e) == a * (n as real)
  {
    hide SubScale, Nibble;
  }

  lemma ScaledOfBlock(h: nat -> real, f: Fields, j: nat)
    requires f.InRange() && j < 256
    ensures SubScale(RealOps(h), Pack(f), j / 32) * (Nibble(Pack(f).qs, j) as real) == FieldScaled(h, f, j)
  {
    hide SubScale, FieldScale, Nibble, PackScales, PackValues;
    ScaleOfFields(h, f, j / 32);
    PackedValues(f.values, j);
  }

  lemma ExactOfFields(h: nat -> real, w: seq<Q4K>, fs: seq<Fields>, x: seq<real>, e: nat)
    requires PackedFrom(w, fs) && 256 * |w| <= |x| && e < 256 * |w|
    ensures Exact(h, w, x)(e) == FieldExact(h, fs, x)(e)
  {
    hide WeightAt, FieldReal;
    WeightOfFields(h, w, fs, e);
  }

  lemma BoundOfFields(h: nat -> real, w: seq<Q4K>, fs: seq<Fields>, y: seq<Q81>, e: nat)
    requires PackedFrom(w, fs) && |y| == 8 * |w| && e < 256 * |w|
    ensures Bound(h, w, y)(e) == FieldBound(h, fs, y)(e)
  {
    hide ScaledAt, FieldScaled, Abs;
    ScaledOfFields(h, w, fs, e);
  }

  /** The bound in terms of what the blocks were packed from, with nothing of the decoders in it. */
  lemma CloseOfFields(h: nat -> real, v: real, w: seq<Q4K>, fs: seq<Fields>, y: seq<Q81>, x: seq<real>)
    requires PackedFrom(w, fs) && |y| == 8 * |w| && 256 * |w| <= |x|
    ensures Close(h, v, w, y, x) <==> CloseToFields(h, v, fs, y, x)
  {
    hide Exact, Bound, FieldExact, FieldBound;
    forall e: nat | e < 256 * |w|
      ensures Exact(h, w, x)(e) == FieldExact(h, fs, x)(e) && Bound(h, w, y)(e) == FieldBound(h, fs, y)(e)
    {
      ExactOfFields(h, w, fs, x, e);
      BoundOfFields(h, w, fs, y, e);
    }
    RSumSame(Exact(h, w, x), FieldExact(h, fs, x), 256 * |w|);
    RSumSame(Bound(h, w, y), FieldBound(h, fs, y), 256 * |w|);
  }

  /** The min terms contribute no error at all: the bound has only the scaled parts in it. */
  lemma FusedIsClose(h: nat -> real, v: real, w: seq<Q4K>, y: seq<Q81>, x: seq<real>)
    requires |y| == 8 * |w| && QuantisedRow(y, x)
    requires v == DequantisedDot(h, w, y) + RSum((g: nat) => Residue(h, w, y, g), 8 * |w|)
    ensures Close(h, v, w, y, x)
  {
    hide QuantisedRow, DequantisedDot, Residue, Exact, Error, Bound;
    FusedIsExactPlusError(h, w, y, x);
    forall e: nat | e < 256 * |w| ensures Abs(Error(h, w, y, x)(e)) <= Bound(h, w, y)(e) {
      ErrorAtMost(h, w, y, x, e);
    }
    RSumBound(Error(h, w, y, x), Bound(h, w, y), 256 * |w|);
  }

  /** Every output is that close to the product of the input with its row of |x| / 256 blocks. */
  ghost predicate RowsAreClose(h: nat -> real, out: seq<real>, fs: seq<Fields>, y: seq<Q81>, x: seq<real>) {
    var n := |x| / 256;
    && |fs| == |out| * n && |y| == 8 * n && (forall i :: 0 <= i < |fs| ==> fs[i].InRange())
    && forall r: nat :: r < |out| ==> r * n + n <= |fs| && CloseToFields(h, out[r], fs[r * n..r * n + n], y, x)
  }

  lemma RowsOfFields(h: nat -> real, out: seq<real>, w: seq<Q4K>, fs: seq<Fields>, y: seq<Q81>, x: seq<real>)
    requires |w| == |out| * (|x| / 256) && |y| == 8 * (|x| / 256) && PackedFrom(w, fs)
    requires forall r: nat :: r < |out| ==> Close(h, out[r], TableRow(w, |x| / 256, |out|, r), y, x)
    ensures RowsAreClose(h, out, fs, y, x)
  {
    hide Close, CloseToFields, Pack;
    var n := |x| / 256;
    forall r: nat | r < |out| ensures r * n + n <= |fs| && CloseToFields(h, out[r], fs[r * n..r * n + n], y, x) {
      RowInTable(r, |out|, n);
      PackedRow(w, fs, n, |out|, r);
      hide PackedFrom, TableRow;
      CloseOfFields(h, out[r], TableRow(w, n, |out|, r), fs[r * n..r * n + n], y, x);
    }
  }

  lemma PackedRow(w: seq<Q4K>, fs: seq<Fields>, n: nat, rows: nat, r: nat)
    requires |w| == rows * n && PackedFrom(w, fs) && r < rows && r * n + n <= |w|
    ensures PackedFrom(TableRow(w, n, rows, r), fs[r * n..r * n + n])
  {
    hide Pack;
    PackedSlice(w, fs, r * n, n);
  }

  lemma PackedSlice(w: seq<Q4K>, fs: seq<Fields>, a: nat, n: nat)
    requires PackedFrom(w, fs) && a + n <= |w|
    ensures PackedFrom(w[a..a + n], fs[a..a + n])
  {
    hide Pack;
  }

  /** `matmul_q4_k_fused`: with too small a buffer nothing is written; otherwise every output is
      within the bound of the exact product over the whole super-blocks of the input. */
  method MatmulQ4KFused(h: nat -> real, out: array<real>, weights: seq<Q4K>, x: seq<real>, buffer: array<Q81>)
    requires |weights| == out.Length * (|x| / 256)
    modifies out, buffer
    ensures |x| / 32 > buffer.Length ==> out[..] == old(out[..]) && buffer[..] == old(buffer[..])
    ensures |x| / 32 <= buffer.Length ==>
              && QuantisedRow(buffer[..|x| / 32], x)
              && 8 * (|x| / 256) <= |x| / 32
              && forall r: nat :: r < out.Length ==>
                   Close(h, out[r], TableRow(weights, |x| / 256, out.Length, r), buffer[..8 * (|x| / 256)], x)
    ensures |x| / 32 <= buffer.Length ==>
              forall fs: seq<Fields> :: PackedFrom(weights, fs) ==>
                RowsAreClose(h, out[..], fs, buffer[..8 * (|x| / 256)], x)
  {
    hide RowsAreClose;
    hide Close, Quantises, DequantisedDot, Residue;
    var nbCols := |x| / 256;
    var nbQ8 := |x| / 32;
    assert 8 * nbCols <= nbQ8;
    if nbQ8 > buffer.Length { return; }
    QuantizeRowQ81(x, buffer);
    ghost var y := buffer[..8 * nbCols];
    assert QuantisedRow(y, x);
    for r := 0 to out.Length
      invariant buffer[..8 * nbCols] == y && QuantisedRow(buffer[..nbQ8], x)
      invariant forall k: nat :: k < r ==> Close(h, out[k], TableRow(weights, nbCols, out.Length, k), y, x)
    {
      var row := TableRow(weights, nbCols, out.Length, r);
      var v := VecDotQ4KQ81(h, row, buffer[..8 * nbCols]);
      FusedIsClose(h, v, row, y, x);
      out[r] := v;
    }
    forall fs: seq<Fields> | PackedFrom(weights, fs) ensures RowsAreClose(h, out[..], fs, y, x) {
      RowsOfFields(h, out[..], weights, fs, y, x);
    }
  }
}
