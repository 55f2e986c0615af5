/**
 Quantising the input on the fly, and what the fused kernels lose by it, over exact reals.
 */
module QuantError {
  import opened RealSums
  import opened QuantFormats
  import opened QuantFused

  // ---------------------------------------------------------------- rounding

  /** The C conversion of a float to an integer: towards zero. */
  function Trunc(r: real): int
  {
    if r >= 0.0 then r.Floor else -((-r).Floor)
  }

  function RoundHalfAway(w: real): int
  {
    Trunc(w + (if w > 0.0 then 0.5 else -0.5))
  }

  function Clamp(q: int): Int8
  {
    if q > 127 then 127 else if q < -128 then -128 else q
  }

  lemma RoundError(w: real)
    requires -127.0 <= w <= 127.0
    ensures -0.5 <= (RoundHalfAway(w) as real) - w <= 0.5
    ensures -127 <= RoundHalfAway(w) <= 127
  {
  }

  lemma ScaledBound(v: real, d: real, id: real)
    requires d > 0.0 && id == 1.0 / d && -127.0 * d <= v <= 127.0 * d
    ensures (v * id) * d == v && -127.0 <= v * id <= 127.0
  {
    Reciprocal(d, id);
    Associate(v, id, d, id * d);
    WithinOf(v * id, d, v);
  }

  lemma Reciprocal(d: real, id: real)
    requires d > 0.0 && id == 1.0 / d
    ensures id * d == 1.0
  {
  }

  lemma WithinOf(w: real, d: real, v: real)
    requires d > 0.0 && w * d == v && -127.0 * d <= v <= 127.0 * d
    ensures -127.0 <= w <= 127.0
  {
    if w > 127.0 { MulLess(127.0, w, d); }
    if w < -127.0 { MulLess(w, -127.0, d); }
  }

  lemma Associate(a: real, b: real, c: real, one: real)
    requires one == b * c && one == 1.0
    ensures (a * b) * c == a
  {
    assert (a * b) * c == a * one;
  }

  lemma MulLess(a: real, b: real, c: real)
    requires a < b && c > 0.0
    ensures a * c < b * c
  {
    assert (b - a) * c > 0.0;
  }

  lemma ScaleError(w: real, q: int, v: real, d: real)
    requires d > 0.0 && w * d == v && -0.5 <= (q as real) - w <= 0.5
    ensures Abs(d * (q as real) - v) <= d / 2.0
  {
    var r := (q as real) - w;
    assert d * (q as real) - v == r * d by { Distribute(d, w, r); }
    assert r * d <= 0.5 * d by { if r < 0.5 { MulLess(r, 0.5, d); } }
    assert -0.5 * d <= r * d by { if -0.5 < r { MulLess(-0.5, r, d); } }
  }

  /** Scaling to the largest magnitude, rounding and clamping loses at most half a step, and
      neither clamp is ever taken. */
  lemma QuantiseElement(v: real, d: real, id: real, w: real, q: int)
    requires d >= 0.0 && Abs(v) <= 127.0 * d
    requires id == (if d != 0.0 then 1.0 / d else 0.0) && w == v * id && q == RoundHalfAway(w)
    ensures -127 <= q <= 127 && Clamp(q) == q && Near(d, q, v)
  {
    if d != 0.0 {
      ScaledBound(v, d, id);
      RoundError(w);
      ScaleError(w, q, v, d);
    } else {
      assert v == 0.0;
      RoundError(0.0);
    }
  }

  // ---------------------------------------------------------------- quantising a row

  ghost function Elements(v: seq<real>): nat -> real
  {
    (k: nat) => if k < |v| then v[k] else 0.0
  }

  /** Block `b` stores the 32 values `v`: 127 steps reach the largest of them exactly, each is
      within half a step, and the stored sum is the sum of the originals. */
  ghost predicate Quantises(b: Q81, v: seq<real>)
  {
    && |v| == 32 && b.d >= 0.0
    && b.s == RSum(Elements(v), 32)
    && (forall k: nat :: k < 32 ==> Abs(v[k]) <= 127.0 * b.d)
    && (b.d == 0.0 || exists k: nat :: k < 32 && Abs(v[k]) == 127.0 * b.d)
    && (forall k: nat :: k < 32 ==> -127 <= b.qs[k] <= 127)
    && (forall k: nat :: k < 32 ==> Near(b.d, b.qs[k], v[k]))
  }

  /** `q` steps of size `d` come within half a step of `v`. */
  predicate Near(d: real, q: int, v: real)
  {
    Abs(d * (q as real) - v) <= d / 2.0
  }

  /** The first inner loop of `quantize_row_q8_1`: largest magnitude and sum. */
  method MaxAndSum(v: seq<real>) returns (amax: real, sum: real)
    ensures sum == RSum(Elements(v), |v|)
    ensures amax >= 0.0 && forall k: nat :: k < |v| ==> Abs(v[k]) <= amax
    ensures amax == 0.0 || exists k: nat :: k < |v| && Abs(v[k]) == amax
  {
    amax, sum := 0.0, 0.0;
    for j := 0 to |v|
      invariant sum == RSum(Elements(v), j)
      invariant amax >= 0.0 && forall k: nat :: k < j ==> Abs(v[k]) <= amax
      invariant amax == 0.0 || exists k: nat :: k < j && Abs(v[k]) == amax
    {
      sum := sum + v[j];
      var av := if v[j] < 0.0 then -v[j] else v[j];
      if av > amax { amax := av; }
    }
  }

  /** The second inner loop: scale, round, clamp. */
  method QuantizeValues(v: seq<real>, d: real) returns (qs: seq<Int8>)
    requires d >= 0.0 && forall k: nat :: k < |v| ==> Abs(v[k]) <= 127.0 * d
    ensures |qs| == |v|
    ensures forall k: nat :: k < |v| ==> -127 <= qs[k] <= 127 && Near(d, qs[k], v[k])
  {
    hide RoundHalfAway, Near, Clamp;
    var id := if d != 0.0 then 1.0 / d else 0.0;
    qs := [];
    for j := 0 to |v|
      invariant |qs| == j
      invariant forall k: nat :: k < j ==> -127 <= qs[k] <= 127 && Near(d, qs[k], v[k])
    {
      var w := v[j] * id;
      var q := RoundHalfAway(w);
      QuantiseElement(v[j], d, id, w, q);
      qs := qs + [Clamp(q)];
    }
  }

  /** Both inner loops on one block. */
  method QuantizeBlock(v: seq<real>) returns (b: Q81)
    requires |v| == 32
    ensures Quantises(b, v)
  {
    hide Near;
    var amax, sum := MaxAndSum(v);
    var d := amax / 127.0;
    assert amax == 127.0 * d;
    var qs := QuantizeValues(v, d);
    b := BlockQ81(d, sum, qs);
  }

  /** `quantize_row_q8_1`: fills one block for every 32 whole values. */
  method QuantizeRowQ81(x: seq<real>, y: array<Q81>)
    requires |x| / 32 <= y.Length
    modifies y
    ensures forall b: nat :: b < |x| / 32 ==> Quantises(y[b], x[32 * b..32 * b + 32])
    ensures forall b: nat :: |x| / 32 <= b < y.Length ==> y[b] == old(y[b])
  {
    hide Quantises;
    for i := 0 to |x| / 32
      invariant forall b: nat :: b < i ==> Quantises(y[b], x[32 * b..32 * b + 32])
      invariant forall b: nat :: i <= b < y.Length ==> y[b] == old(y[b])
    {
      var b := QuantizeBlock(x[32 * i..32 * i + 32]);
      y[i] := b;
    }
  }
}
