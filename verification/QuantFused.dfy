/**
 The fused kernels that multiply quantised weights with an input quantised on the fly,
 against dequantise-then-multiply, over exact reals.
 */
module QuantFused {
  import opened RealSums
  import opened QuantFormats

  /** 32 quantised inputs with their scale and the sum of the original values. */
  datatype BlockQ81 = BlockQ81(d: real, s: real, qs: seq<Int8>)
  type Q81 = b: BlockQ81 | |b.qs| == 32 witness BlockQ81(0.0, 0.0, seq(32, _ => 0))

  /** Real arithmetic, with some reading `h` of the stored half-precision scales. */
  function RealOps(h: nat -> real): DecodeOps<real>
  {
    DecodeOps(h, (k: int) => k as real, (a: real, b: real) => a * b, (a: real, b: real) => a - b)
  }

  /** The value of element `e` of a row of Q8_1 blocks; 0 past the end. */
  function InputAt(y: seq<Q81>, e: nat): real
  {
    if e < 32 * |y| then y[e / 32].d * (y[e / 32].qs[e % 32] as real) else 0.0
  }

  function WeightAt(h: nat -> real, x: seq<Q4K>, e: nat): real
  {
    if e < 256 * |x| then RowQ4K(RealOps(h), x, e) else 0.0
  }

  /** One dequantised weight times one dequantised input. */
  function Product(h: nat -> real, x: seq<Q4K>, y: seq<Q81>, e: nat): real
  {
    WeightAt(h, x, e) * InputAt(y, e)
  }

  ghost function Products(h: nat -> real, x: seq<Q4K>, y: seq<Q81>): nat -> real
  {
    (e: nat) => Product(h, x, y, e)
  }

  /** The inner product of the dequantised rows. */
  ghost function DequantisedDot(h: nat -> real, x: seq<Q4K>, y: seq<Q81>): real
  {
    RSum(Products(h, x, y), 256 * |x|)
  }

  // ---------------------------------------------------------------- in terms of the packed fields

  /** The value of element `e` of a block packed from `f`. */
  function FieldReal(h: nat -> real, f: Fields, e: nat): (v: real)
    requires f.InRange() && e < 256
    ensures v == h(f.d) * (f.scales[e / 32] as real) * (f.values[e] as real) - h(f.dmin) * (f.mins[e / 32] as real)
  {
    FieldValue(RealOps(h), f, e)
  }

  lemma WeightOfFields(h: nat -> real, x: seq<Q4K>, fs: seq<Fields>, e: nat)
    requires PackedFrom(x, fs) && e < 256 * |x|
    ensures fs[e / 256].InRange() && WeightAt(h, x, e) == FieldReal(h, fs[e / 256], e % 256)
  {
    hide WeightQ4K, Pack, FieldValue;
    WeightOfPacked(RealOps(h), fs[e / 256], e % 256);
  }

  /** The min of sub-block `j` of a block packed from `f`. */
  function FieldMin(h: nat -> real, f: Fields, j: nat): real
    requires f.InRange() && j < 8
  {
    h(f.dmin) * (f.mins[j] as real)
  }

  lemma MinOfFields(h: nat -> real, f: Fields, j: nat)
    requires f.InRange() && j < 8
    ensures SubMin(RealOps(h), Pack(f), j) == FieldMin(h, f, j)
  {
    hide SubMin, FieldMin, MinBits, PackScales, PackValues, RealOps;
    PackedScales(f.scales, f.mins, j);
    SubMinIs(RealOps(h), Pack(f), j, f.mins[j]);
    FieldMinIs(h, f, j);
  }

  lemma FieldMinIs(h: nat -> real, f: Fields, j: nat)
    requires f.InRange() && j < 8
    ensures RealOps(h).mul(RealOps(h).fp16(f.dmin), RealOps(h).fromInt(f.mins[j])) == FieldMin(h, f, j)
  {
  }

  /** The scale of sub-block `j`. */
  function FieldScale(h: nat -> real, f: Fields, j: nat): real
    requires f.InRange() && j < 8
  {
    h(f.d) * (f.scales[j] as real)
  }

  lemma ScaleOfFields(h: nat -> real, f: Fields, j: nat)
    requires f.InRange() && j < 8
    ensures SubScale(RealOps(h), Pack(f), j) == FieldScale(h, f, j)
  {
    hide SubScale, FieldScale, ScaleBits, PackScales, PackValues, RealOps;
    PackedScales(f.scales, f.mins, j);
    SubScaleIs(RealOps(h), Pack(f), j, f.scales[j]);
    FieldScaleIs(h, f, j);
  }

  lemma FieldScaleIs(h: nat -> real, f: Fields, j: nat)
    requires f.InRange() && j < 8
    ensures RealOps(h).mul(RealOps(h).fp16(f.d), RealOps(h).fromInt(f.scales[j])) == FieldScale(h, f, j)
  {
  }

  /** Value times quantised input, element by element. */
  ghost function FieldProducts(h: nat -> real, fs: seq<Fields>, y: seq<Q81>): nat -> real
    requires |y| == 8 * |fs| && forall i :: 0 <= i < |fs| ==> fs[i].InRange()
  {
    (e: nat) => if e < 256 * |fs| then FieldReal(h, fs[e / 256], e % 256) * InputAt(y, e) else 0.0
  }

  /** For each sub-block, its min times the gap between the sum of its quantised inputs and the stored sum. */
  ghost function FieldGaps(h: nat -> real, fs: seq<Fields>, y: seq<Q81>): nat -> real
    requires |y| == 8 * |fs| && forall i :: 0 <= i < |fs| ==> fs[i].InRange()
  {
    (g: nat) => if g < 8 * |fs|
                then FieldMin(h, fs[g / 8], g % 8) * (y[g].d * RSum(Quants(y[g].qs), 32) - y[g].s) else 0.0
  }

  ghost function Quants(qs: seq<Int8>): nat -> real { (k: nat) => if k < |qs| then qs[k] as real else 0.0 }

  lemma {:induction false} QuantSumIs(qs: seq<Int8>, n: nat)
    requires n <= |qs|
    ensures QuantSum(qs, n) as real == RSum(Quants(qs), n)
  {
    if n > 0 { QuantSumIs(qs, n - 1); }
  }

  lemma ResidueOfFields(h: nat -> real, x: seq<Q4K>, fs: seq<Fields>, y: seq<Q81>, g: nat)
    requires PackedFrom(x, fs) && |y| == 8 * |x| && g < 8 * |x|
    ensures Residue(h, x, y, g) == FieldGaps(h, fs, y)(g)
  {
    hide SubMin, MinGap, FieldMin, RSum, QuantSum, Pack, Quants;
    QuantSumIs(y[g].qs, 32);
    MinOfFields(h, fs[g / 8], g % 8);
    MinGapIs(FieldMin(h, fs[g / 8], g % 8), y[g].d, QuantSum(y[g].qs, 32), y[g].s);
  }

  lemma MinGapIs(m: real, yd: real, q: int, s: real)
    ensures MinGap(m, yd, q, s) == m * (yd * (q as real) - s)
  {
  }

  /** The quantised input is the block's scale times the stored integer. */
  lemma InputIs(y: seq<Q81>, e: nat)
    requires e < 32 * |y|
    ensures InputAt(y, e) == y[e / 32].d * (y[e / 32].qs[e % 32] as real)
  {
  }

  lemma ProductOfFields(h: nat -> real, x: seq<Q4K>, fs: seq<Fields>, y: seq<Q81>, e: nat)
    requires PackedFrom(x, fs) && |y| == 8 * |x| && e < 256 * |x|
    ensures Product(h, x, y, e) == FieldProducts(h, fs, y)(e)
  {
    hide WeightAt, FieldReal, InputAt;
    WeightOfFields(h, x, fs, e);
  }

  /** The fused dot of rows packed from `fs`, with nothing of the decoders in it. */
  lemma FusedOfFields(h: nat -> real, x: seq<Q4K>, fs: seq<Fields>, y: seq<Q81>)
    requires PackedFrom(x, fs) && |y| == 8 * |x|
    ensures DequantisedDot(h, x, y) == RSum(FieldProducts(h, fs, y), 256 * |x|)
    ensures RSum((g: nat) => Residue(h, x, y, g), 8 * |x|) == RSum(FieldGaps(h, fs, y), 8 * |x|)
  {
    hide Product, Residue, FieldProducts, FieldGaps;
    forall e: nat | e < 256 * |x| ensures Product(h, x, y, e) == FieldProducts(h, fs, y)(e) {
      ProductOfFields(h, x, fs, y, e);
    }
    RSumSame(Products(h, x, y), FieldProducts(h, fs, y), 256 * |x|);
    forall g: nat | g < 8 * |x| ensures Residue(h, x, y, g) == FieldGaps(h, fs, y)(g) {
      ResidueOfFields(h, x, fs, y, g);
    }
    RSumSame((g: nat) => Residue(h, x, y, g), FieldGaps(h, fs, y), 8 * |x|);
  }

  function QuantSum(qs: seq<Int8>, n: nat): int
    requires n <= |qs|
  {
    if n == 0 then 0 else QuantSum(qs, n - 1) + qs[n - 1]
  }

  /** A min times the gap between the sum of the quantised inputs and the stored sum. */
  function MinGap(m: real, yd: real, q: int, s: real): real
  {
    m * (yd * (q as real) - s)
  }

  /** What sub-block `g` contributes beyond the dequantised product: its min times the gap
      between the sum of the quantised inputs and the stored sum of the originals. */
  function Residue(h: nat -> real, x: seq<Q4K>, y: seq<Q81>, g: nat): real
  {
    if g < 8 * |x| && g < |y| then
      MinGap(SubMin(RealOps(h), x[g / 8], g % 8), y[g].d, QuantSum(y[g].qs, 32), y[g].s)
    else 0.0
  }

  // ---------------------------------------------------------------- one sub-block

  /** Sum of nibble times quantised input over the first `n` elements of sub-block `j`. */
  function GroupSum(b: Q4K, j: nat, qs: seq<Int8>, n: nat): int
    requires j < 8 && n <= 32 && |qs| == 32
  {
    if n == 0 then 0 else GroupSum(b, j, qs, n - 1) + Nibble(b.qs, 32 * j + n - 1) * qs[n - 1]
  }

  /** What the kernel adds to the result for sub-block `j`. */
  function GroupTerm(xd: real, xdmin: real, sc: real, m: real, yd: real, s: real, groupSum: real): real
  {
    xd * (sc * yd * groupSum) - xdmin * (s * m)
  }

  lemma GroupAlgebra(xd: real, xdmin: real, sc: real, m: real, yd: real, s: real, gs: real, q: real)
    ensures GroupTerm(xd, xdmin, sc, m, yd, s, gs)
         == ((xd * sc) * yd) * gs - ((xdmin * m) * yd) * q + (xdmin * m) * (yd * q - s)
  {
    assert xd * (sc * yd * gs) == ((xd * sc) * yd) * gs;
    assert (xdmin * m) * (yd * q - s) == ((xdmin * m) * yd) * q - xdmin * (s * m);
  }

  lemma ElementAlgebra(a: real, m: real, d: real, n: real, q: real)
    ensures (a * n - m) * (d * q) == (a * d) * (n * q) - (m * d) * q
  {
    assert (a * n - m) * (d * q) == a * n * (d * q) - m * (d * q);
    assert a * n * (d * q) == (a * d) * (n * q);
    assert m * (d * q) == (m * d) * q;
  }

  lemma CastProduct(a: int, b: int)
    ensures (a as real) * (b as real) == (a * b) as real
  {
  }

  /** The value of a partial sub-block whose integer sums are `gs` and `q`. */
  function PartialValue(a: real, m: real, d: real): (int, int) -> real
  {
    (gs: int, q: int) => (a * d) * (gs as real) - (m * d) * (q as real)
  }

  /** One dequantised weight times one dequantised input. */
  function ElementValue(a: real, m: real, d: real): (int, int) -> real
  {
    (n: int, q: int) => (a * (n as real) - m) * (d * (q as real))
  }

  lemma PartialStep(a: real, m: real, d: real, gs: int, qsum: int, n: int, q: int)
    ensures PartialValue(a, m, d)(gs, qsum) + ElementValue(a, m, d)(n, q) == PartialValue(a, m, d)(gs + n * q, qsum + q)
  {
    ElementAlgebra(a, m, d, n as real, q as real);
    CastProduct(n, q);
    Distribute(a * d, gs as real, (n * q) as real);
    Distribute(m * d, qsum as real, q as real);
  }

  /** Adding element `k` to the partial value over `k` elements gives the one over `k + 1`. */
  ghost predicate Accumulates(total: (int, int) -> real, element: (int, int) -> real, b: Q4K, j: nat, qs: seq<Int8>,
      k: nat)
    requires j < 8 && |qs| == 32 && k < 32
  {
    total(GroupSum(b, j, qs, k + 1), QuantSum(qs, k + 1))
    == total(GroupSum(b, j, qs, k), QuantSum(qs, k)) + element(Nibble(b.qs, 32 * j + k), qs[k])
  }

  lemma GroupAccumulates(a: real, m: real, d: real, b: Q4K, j: nat, qs: seq<Int8>, k: nat)
    requires j < 8 && |qs| == 32 && k < 32
    ensures Accumulates(PartialValue(a, m, d), ElementValue(a, m, d), b, j, qs, k)
  {
    var gs, s, n, q := GroupSum(b, j, qs, k), QuantSum(qs, k), Nibble(b.qs, 32 * j + k), qs[k];
    PartialStep(a, m, d, gs, s, n, q);
    assert GroupSum(b, j, qs, k + 1) == gs + n * q && QuantSum(qs, k + 1) == s + q;
  }

  lemma {:induction false} GroupDot(total: (int, int) -> real, element: (int, int) -> real,
                                    b: Q4K, j: nat, qs: seq<Int8>, n: nat, f: nat -> real)
    requires j < 8 && |qs| == 32 && n <= 32 && total(0, 0) == 0.0
    requires forall k: nat :: k < 32 ==> Accumulates(total, element, b, j, qs, k)
    requires forall k: nat :: k < 32 ==> f(k) == element(Nibble(b.qs, 32 * j + k), qs[k])
    ensures RSum(f, n) == total(GroupSum(b, j, qs, n), QuantSum(qs, n))
  {
    if n > 0 {
      assert Accumulates(total, element, b, j, qs, n - 1);
      GroupDot(total, element, b, j, qs, n - 1, f);
    }
  }

  // ---------------------------------------------------------------- one sub-block inside a row

  function ScaleOf(h: nat -> real, x: seq<Q4K>, g: nat): real
    requires g < 8 * |x|
  {
    SubScale(RealOps(h), x[g / 8], g % 8)
  }

  function MinOf(h: nat -> real, x: seq<Q4K>, g: nat): real
    requires g < 8 * |x|
  {
    SubMin(RealOps(h), x[g / 8], g % 8)
  }

  lemma PlaceInRow(g: nat, k: nat)
    requires k < 32
    ensures (g * 32 + k) / 256 == g / 8 && (g * 32 + k) % 256 == 32 * (g % 8) + k
    ensures (g * 32 + k) / 32 == g && (g * 32 + k) % 32 == k
    ensures (32 * (g % 8) + k) / 32 == g % 8
  {
    assert g * 32 + k == 256 * (g / 8) + (32 * (g % 8) + k);
  }

  lemma ElementOfRow(h: nat -> real, x: seq<Q4K>, y: seq<Q81>, g: nat, k: nat)
    requires |y| == 8 * |x| && g < |y| && k < 32
    ensures Product(h, x, y, g * 32 + k)
         == ElementValue(ScaleOf(h, x, g), MinOf(h, x, g), y[g].d)(Nibble(x[g / 8].qs, 32 * (g % 8) + k), y[g].qs[k])
  {
    hide WeightAt, InputAt, ScaleOf, MinOf, Nibble, Product, ElementValue;
    var n: int, q: int := Nibble(x[g / 8].qs, 32 * (g % 8) + k), y[g].qs[k];
    WeightInRow(h, x, g, k, n);
    InputInRow(y, g, k, q);
    ProductIs(h, x, y, g * 32 + k, ScaleOf(h, x, g), MinOf(h, x, g), y[g].d, n, q);
  }

  /** The two factors of an element, scale times an integer each. */
  function Scaled(a: real, n: int, m: real): real { a * (n as real) - m }

  lemma ProductIs(h: nat -> real, x: seq<Q4K>, y: seq<Q81>, e: nat, a: real, m: real, d: real, n: int, q: int)
    requires WeightAt(h, x, e) == Scaled(a, n, m) && InputAt(y, e) == Scaled(d, q, 0.0)
    ensures Product(h, x, y, e) == ElementValue(a, m, d)(n, q)
  {
    hide WeightAt, InputAt;
  }

  lemma WeightInRow(h: nat -> real, x: seq<Q4K>, g: nat, k: nat, n: int)
    requires g < 8 * |x| && k < 32 && n == Nibble(x[g / 8].qs, 32 * (g % 8) + k)
    ensures WeightAt(h, x, g * 32 + k) == Scaled(ScaleOf(h, x, g), n, MinOf(h, x, g))
  {
    PlaceInRow(g, k);
    WeightInBlock(h, x, g * 32 + k, g / 8, 32 * (g % 8) + k);
    hide WeightAt, WeightQ4K, SubScale, SubMin, Nibble;
    WeightOfBlock(h, x[g / 8], 32 * (g % 8) + k, g % 8, n);
  }

  lemma WeightOfBlock(h: nat -> real, b: Q4K, j: nat, sub: nat, n: int)
    requires j < 256 && sub < 8 && j / 32 == sub && n == Nibble(b.qs, j)
    ensures WeightQ4K(RealOps(h), b, j) == Scaled(SubScale(RealOps(h), b, sub), n, SubMin(RealOps(h), b, sub))
  {
    hide SubScale, SubMin, Nibble;
  }

  lemma WeightInBlock(h: nat -> real, x: seq<Q4K>, e: nat, i: nat, j: nat)
    requires i < |x| && j < 256 && e / 256 == i && e % 256 == j
    ensures WeightAt(h, x, e) == WeightQ4K(RealOps(h), x[i], j)
  {
    hide WeightQ4K;
  }

  lemma InputInRow(y: seq<Q81>, g: nat, k: nat, q: int)
    requires g < |y| && k < 32 && q == y[g].qs[k]
    ensures InputAt(y, g * 32 + k) == Scaled(y[g].d, q, 0.0)
  {
    PlaceInRow(g, k);
  }

  /** What the kernel adds for sub-block `g`. */
  function KernelTerm(h: nat -> real, x: seq<Q4K>, y: seq<Q81>, g: nat): real
  {
    if g < 8 * |x| && g < |y| then
      GroupTerm(h(x[g / 8].d), h(x[g / 8].dmin),
                ScaleBits(x[g / 8].scales, g % 8) as real, MinBits(x[g / 8].scales, g % 8) as real,
                y[g].d, y[g].s, GroupSum(x[g / 8], g % 8, y[g].qs, 32) as real)
    else 0.0
  }

  lemma SplitAlgebra(xd: real, xdmin: real, sc: int, m: int, yd: real, s: real, gs: int, q: int, a: real, am: real)
    requires a == xd * (sc as real) && am == xdmin * (m as real)
    ensures GroupTerm(xd, xdmin, sc as real, m as real, yd, s, gs as real)
         == PartialValue(a, am, yd)(gs, q) + MinGap(am, yd, q, s)
  {
    GroupAlgebra(xd, xdmin, sc as real, m as real, yd, s, gs as real, q as real);
  }

  lemma KernelTermSplits(h: nat -> real, x: seq<Q4K>, y: seq<Q81>, g: nat)
    requires |y| == 8 * |x| && g < |y|
    ensures KernelTerm(h, x, y, g)
         == PartialValue(ScaleOf(h, x, g), MinOf(h, x, g), y[g].d)
              (GroupSum(x[g / 8], g % 8, y[g].qs, 32), QuantSum(y[g].qs, 32))
            + Residue(h, x, y, g)
  {
    hide GroupTerm, PartialValue, MinGap, ScaleBits, MinBits, GroupSum, QuantSum;
    var b := x[g / 8];
    SplitAlgebra(h(b.d), h(b.dmin), ScaleBits(b.scales, g % 8), MinBits(b.scales, g % 8), y[g].d, y[g].s,
                 GroupSum(b, g % 8, y[g].qs, 32), QuantSum(y[g].qs, 32), ScaleOf(h, x, g), MinOf(h, x, g));
  }

  lemma KernelTermIsGroupDot(h: nat -> real, x: seq<Q4K>, y: seq<Q81>, g: nat)
    requires |y| == 8 * |x| && g < |y|
    ensures KernelTerm(h, x, y, g) == BlockSums(Products(h, x, y), 32)(g) + Residue(h, x, y, g)
  {
    hide Product, KernelTerm, Residue, PartialValue, ElementValue, GroupSum, QuantSum, ScaleOf, MinOf, Nibble,
      Accumulates;
    var a, m, d := ScaleOf(h, x, g), MinOf(h, x, g), y[g].d;
    var all := Products(h, x, y);
    var f := (k: nat) => all(g * 32 + k);
    forall k: nat | k < 32
      ensures Accumulates(PartialValue(a, m, d), ElementValue(a, m, d), x[g / 8], g % 8, y[g].qs, k)
      ensures f(k) == ElementValue(a, m, d)(Nibble(x[g / 8].qs, 32 * (g % 8) + k), y[g].qs[k])
    {
      GroupAccumulates(a, m, d, x[g / 8], g % 8, y[g].qs, k);
      ElementOfRow(h, x, y, g, k);
    }
    PartialZero(a, m, d);
    GroupDot(PartialValue(a, m, d), ElementValue(a, m, d), x[g / 8], g % 8, y[g].qs, 32, f);
    KernelTermSplits(h, x, y, g);
  }

  lemma PartialZero(a: real, m: real, d: real)
    ensures PartialValue(a, m, d)(0, 0) == 0.0
  {
  }

  /** Summed over the row, the kernel computes the dequantised product plus the residues. */
  lemma KernelSum(h: nat -> real, x: seq<Q4K>, y: seq<Q81>)
    requires |y| == 8 * |x|
    ensures RSum(KernelTerms(h, x, y), 8 * |x|)
         == DequantisedDot(h, x, y) + RSum((g: nat) => Residue(h, x, y, g), 8 * |x|)
  {
    hide KernelTerm, Residue, Product, BlockSums, Products, RSum;
    forall g: nat | g < 8 * |x|
      ensures KernelTerm(h, x, y, g) == BlockSums(Products(h, x, y), 32)(g) + Residue(h, x, y, g)
    {
      KernelTermIsGroupDot(h, x, y, g);
    }
    RSumBlocksWithRest(KernelTerms(h, x, y), Products(h, x, y), (g: nat) => Residue(h, x, y, g), 32, 8 * |x|);
    assert 8 * |x| * 32 == 256 * |x|;
  }

  // ---------------------------------------------------------------- the kernel

  function Combine(xd: real, xdmin: real, sumi: real, summs: real): real { xd * sumi - xdmin * summs }

  ghost function KernelTerms(h: nat -> real, x: seq<Q4K>, y: seq<Q81>): nat -> real
  {
    (g: nat) => KernelTerm(h, x, y, g)
  }

  /** The loop over the eight sub-blocks of block `i`. */
  method BlockLoop(h: nat -> real, x: seq<Q4K>, y: seq<Q81>, i: nat) returns (sumi: real, summs: real)
    requires |y| == 8 * |x| && i < |x|
    ensures RSum(KernelTerms(h, x, y), 8 * i + 8)
         == RSum(KernelTerms(h, x, y), 8 * i) + Combine(h(x[i].d), h(x[i].dmin), sumi, summs)
  {
    hide GroupTerm, ScaleBits, MinBits, Combine, KernelTerm, RSum;
    var xb := x[i];
    ghost var term := KernelTerms(h, x, y);
    ghost var base := RSum(term, 8 * i);
    ghost var total := base;
    sumi, summs := 0.0, 0.0;
    CombineZero(h(xb.d), h(xb.dmin));
    for j := 0 to 8
      invariant total == RSum(term, 8 * i + j)
      invariant total == base + Combine(h(xb.d), h(xb.dmin), sumi, summs)
    {
      var yb := y[i * 8 + j];
      var sc, m := ScaleBits(xb.scales, j), MinBits(xb.scales, j);
      var groupSum := GroupLoop(xb, j, yb.qs);
      RSumNext(term, 8 * i + j);
      KernelTermAt(h, x, y, i, j);
      var minTerm := yb.s * (m as real);
      var scaledTerm := (sc as real) * yb.d * (groupSum as real);
      AccumulatorStep(h(xb.d), h(xb.dmin), sumi, summs, sc as real, m as real, yb.d, yb.s, groupSum as real,
                      scaledTerm, minTerm);
      total := total + term(8 * i + j);
      summs := summs + minTerm;
      sumi := sumi + scaledTerm;
    }
  }

  lemma KernelTermAt(h: nat -> real, x: seq<Q4K>, y: seq<Q81>, i: nat, j: nat)
    requires |y| == 8 * |x| && i < |x| && j < 8
    ensures KernelTerm(h, x, y, 8 * i + j)
         == GroupTerm(h(x[i].d), h(x[i].dmin), ScaleBits(x[i].scales, j) as real, MinBits(x[i].scales, j) as real,
                      y[8 * i + j].d, y[8 * i + j].s, GroupSum(x[i], j, y[8 * i + j].qs, 32) as real)
  {
    hide GroupTerm, ScaleBits, MinBits;
    assert (8 * i + j) / 8 == i && (8 * i + j) % 8 == j;
  }

  /** `vec_dot_q4_k_q8_1`: equals the product of the dequantised rows up to exactly the residues. */
  method VecDotQ4KQ81(h: nat -> real, x: seq<Q4K>, y: seq<Q81>) returns (sumf: real)
    requires |y| == 8 * |x|
    ensures sumf == DequantisedDot(h, x, y) + RSum((g: nat) => Residue(h, x, y, g), 8 * |x|)
    ensures forall fs: seq<Fields> :: PackedFrom(x, fs) ==>
              sumf == RSum(FieldProducts(h, fs, y), 256 * |x|) + RSum(FieldGaps(h, fs, y), 8 * |x|)
  {
    hide DequantisedDot, Residue, KernelTerm, RSum, FieldProducts, FieldGaps;
    sumf := 0.0;
    RSumNext(KernelTerms(h, x, y), 0);
    for i := 0 to |x|
      invariant sumf == RSum(KernelTerms(h, x, y), 8 * i)
    {
      var sumi, summs := BlockLoop(h, x, y, i);
      sumf := sumf + (h(x[i].d) * sumi - h(x[i].dmin) * summs);
    }
    KernelSum(h, x, y);
    forall fs: seq<Fields> | PackedFrom(x, fs)
      ensures sumf == RSum(FieldProducts(h, fs, y), 256 * |x|) + RSum(FieldGaps(h, fs, y), 8 * |x|)
    {
      FusedOfFields(h, x, fs, y);
    }
  }

  lemma CombineZero(xd: real, xdmin: real)
    ensures Combine(xd, xdmin, 0.0, 0.0) == 0.0
  {
  }

  lemma AccumulatorStep(xd: real, xdmin: real, sumi: real, summs: real, sc: real, m: real, yd: real, s: real, gs: real,
                        scaledTerm: real, minTerm: real)
    requires scaledTerm == sc * yd * gs && minTerm == s * m
    ensures Combine(xd, xdmin, sumi + scaledTerm, summs + minTerm)
         == Combine(xd, xdmin, sumi, summs) + GroupTerm(xd, xdmin, sc, m, yd, s, gs)
  {
    Distribute(xd, sumi, scaledTerm);
    Distribute(xdmin, summs, minTerm);
  }

  lemma GroupNext(xb: Q4K, j: nat, qs: seq<Int8>, k: nat, xVal: int)
    requires j < 8 && |qs| == 32 && k < 32 && xVal == Half(xb.qs, j / 2 * 32 + k, j % 2 == 1)
    ensures GroupSum(xb, j, qs, k + 1) == GroupSum(xb, j, qs, k) + xVal * qs[k]
  {
    ElementAt(xb.qs, 32 * j + k, j / 2, k, j % 2 == 1);
    hide Nibble, Half;
  }

  /** The innermost loop: even sub-blocks use the low nibbles of their 32 bytes, odd ones the high. */
  method GroupLoop(xb: Q4K, j: nat, qs: seq<Int8>) returns (groupSum: int)
    requires j < 8 && |qs| == 32
    ensures groupSum == GroupSum(xb, j, qs, 32)
  {
    var base := j / 2 * 32;
    var useHigh := j % 2 == 1;
    groupSum := 0;
    assert GroupSum(xb, j, qs, 0) == 0;
    hide GroupSum;
    for k := 0 to 32
      invariant groupSum == GroupSum(xb, j, qs, k)
    {
      var xVal := if useHigh then xb.qs[base + k] / 16 else xb.qs[base + k] % 16;
      GroupNext(xb, j, qs, k, xVal);
      groupSum := groupSum + xVal * qs[k];
    }
  }
}
