/**
 The Q4_K and Q8_0 block formats and their decoders.

 Packed fields are bytes; the shifts and masks of the C code are written as division and
 remainder by powers of two, which `MasksAreArithmetic` justifies on 8-bit words.  Float
 operations are uninterpreted here, so equal results mean the same operations on the same
 operands, rounding included.
 */
module QuantFormats {
  import opened Common

  type Int8 = x: int | -128 <= x <= 127

  /** `fp16` reads a stored half-precision scale; `fromInt` converts an integer. */
  datatype DecodeOps<!F> = DecodeOps(fp16: nat -> F, fromInt: int -> F, mul: (F, F) -> F, sub: (F, F) -> F)

  datatype BlockQ4K = BlockQ4K(d: nat, dmin: nat, scales: seq<Byte>, qs: seq<Byte>)
  datatype BlockQ80 = BlockQ80(d: nat, qs: seq<Int8>)

  /** 256 weights: 12 bytes of packed 6-bit scales and mins, 128 bytes of nibbles. */
  type Q4K = b: BlockQ4K | |b.scales| == 12 && |b.qs| == 128
    witness BlockQ4K(0, 0, seq(12, _ => 0), seq(128, _ => 0))

  type Q80 = b: BlockQ80 | |b.qs| == 32 witness BlockQ80(0, seq(32, _ => 0))

  /** `get_scale_min_k4`: the 6-bit scale of sub-block `j`. */
  function ScaleBits(q: seq<Byte>, j: nat): (v: int)
    requires |q| == 12 && j < 8
    ensures 0 <= v < 64
  {
    if j < 4 then q[j] % 64 else q[j + 4] % 16 + q[j - 4] / 64 * 16
  }

  /** `get_scale_min_k4`: the 6-bit min of sub-block `j`. */
  function MinBits(q: seq<Byte>, j: nat): (v: int)
    requires |q| == 12 && j < 8
    ensures 0 <= v < 64
  {
    if j < 4 then q[j + 4] % 64 else q[j + 4] / 16 + q[j] / 64 * 16
  }

  /** The packing loses nothing and wastes nothing: the sixteen 6-bit fields determine the twelve bytes. */
  lemma ScalePackingIsExact(a: seq<Byte>, b: seq<Byte>)
    requires |a| == |b| == 12
    requires forall j: nat :: j < 8 ==> ScaleBits(a, j) == ScaleBits(b, j) && MinBits(a, j) == MinBits(b, j)
    ensures a == b
  {
    TripleFromFields(a, b, 0);
    TripleFromFields(a, b, 1);
    TripleFromFields(a, b, 2);
    TripleFromFields(a, b, 3);
  }

  lemma TripleFromFields(a: seq<Byte>, b: seq<Byte>, j: nat)
    requires |a| == |b| == 12 && j < 4
    requires ScaleBits(a, j) == ScaleBits(b, j) && MinBits(a, j) == MinBits(b, j)
    requires ScaleBits(a, j + 4) == ScaleBits(b, j + 4) && MinBits(a, j + 4) == MinBits(b, j + 4)
    ensures a[j] == b[j] && a[j + 4] == b[j + 4] && a[j + 8] == b[j + 8]
  {
    assert ScaleBits(a, j + 4) == a[j + 8] % 16 + a[j] / 64 * 16
        && ScaleBits(b, j + 4) == b[j + 8] % 16 + b[j] / 64 * 16;
    assert MinBits(a, j + 4) == a[j + 8] / 16 + a[j + 4] / 64 * 16
        && MinBits(b, j + 4) == b[j + 8] / 16 + b[j + 4] / 64 * 16;
    LowAndHigh(a[j + 8] % 16, a[j] / 64, b[j + 8] % 16, b[j] / 64);
    LowAndHigh(a[j + 8] / 16, a[j + 4] / 64, b[j + 8] / 16, b[j + 4] / 64);
  }

  lemma LowAndHigh(x: int, y: int, x': int, y': int)
    requires 0 <= x < 16 && 0 <= x' < 16 && x + y * 16 == x' + y' * 16
    ensures x == x' && y == y'
  {
  }

  // ---------------------------------------------------------------- what a block was packed from

  /** The fields of a Q4_K block before packing: eight 6-bit scales and mins, 256 4-bit values. */
  datatype Fields = Fields(d: nat, dmin: nat, scales: seq<nat>, mins: seq<nat>, values: seq<nat>)
  {
    predicate InRange() {
      && |scales| == |mins| == 8 && (forall j :: 0 <= j < 8 ==> scales[j] < 64 && mins[j] < 64)
      && |values| == 256 && forall e :: 0 <= e < 256 ==> values[e] < 16
    }
  }

  /** Bytes 0-3 and 4-7 hold the first four scales and mins, with the upper two bits of the last four
      above them; bytes 8-11 hold the lower four bits of the last four, the scale's below the min's. */
  function PackScales(sc: seq<nat>, mn: seq<nat>): (q: seq<Byte>)
    requires |sc| == |mn| == 8 && forall j :: 0 <= j < 8 ==> sc[j] < 64 && mn[j] < 64
    ensures |q| == 12
  {
    seq(12, i requires 0 <= i < 12 =>
      if i < 4 then BelowTopBits(sc[i], sc[i + 4])
      else if i < 8 then BelowTopBits(mn[i - 4], mn[i])
      else LowHalves(sc[i - 4], mn[i - 4]))
  }

  /** A whole field below the upper two bits of another. */
  function BelowTopBits(x: nat, y: nat): Byte
    requires x < 64 && y < 64
  {
    x + 64 * (y / 16)
  }

  function LowHalves(x: nat, y: nat): Byte { x % 16 + 16 * (y % 16) }

  lemma BelowTopBitsReads(x: nat, y: nat)
    requires x < 64 && y < 64
    ensures BelowTopBits(x, y) % 64 == x && BelowTopBits(x, y) / 64 == y / 16
  {
  }

  lemma LowHalvesReads(x: nat, y: nat)
    ensures LowHalves(x, y) % 16 == x % 16 && LowHalves(x, y) / 16 == y % 16
  {
  }

  /** Each run of 64 values takes 32 bytes: value l of the run below value 32 + l in byte l. */
  function PackValues(v: seq<nat>): (q: seq<Byte>)
    requires |v| == 256 && forall e :: 0 <= e < 256 ==> v[e] < 16
    ensures |q| == 128
  {
    seq(128, k requires 0 <= k < 128 => v[64 * (k / 32) + k % 32] + 16 * v[64 * (k / 32) + 32 + k % 32])
  }

  function Pack(f: Fields): Q4K
    requires f.InRange()
  {
    BlockQ4K(f.d, f.dmin, PackScales(f.scales, f.mins), PackValues(f.values))
  }

  /** The decoders read every field as it was packed. */
  lemma PackedScales(sc: seq<nat>, mn: seq<nat>, j: nat)
    requires |sc| == |mn| == 8 && (forall i :: 0 <= i < 8 ==> sc[i] < 64 && mn[i] < 64) && j < 8
    ensures ScaleBits(PackScales(sc, mn), j) == sc[j] && MinBits(PackScales(sc, mn), j) == mn[j]
  {
    var q := PackScales(sc, mn);
    hide BelowTopBits, LowHalves;
    if j < 4 {
      assert q[j] == BelowTopBits(sc[j], sc[j + 4]) && q[j + 4] == BelowTopBits(mn[j], mn[j + 4]);
      BelowTopBitsReads(sc[j], sc[j + 4]);
      BelowTopBitsReads(mn[j], mn[j + 4]);
    } else {
      assert q[j + 4] == LowHalves(sc[j], mn[j]);
      assert q[j - 4] == BelowTopBits(sc[j - 4], sc[j]) && q[j] == BelowTopBits(mn[j - 4], mn[j]);
      LowHalvesReads(sc[j], mn[j]);
      BelowTopBitsReads(sc[j - 4], sc[j]);
      BelowTopBitsReads(mn[j - 4], mn[j]);
    }
  }

  lemma PackedValues(v: seq<nat>, e: nat)
    requires |v| == 256 && (forall i :: 0 <= i < 256 ==> v[i] < 16) && e < 256
    ensures Nibble(PackValues(v), e) == v[e]
  {
    var p, l, high := e / 64, e % 32, e / 32 % 2 == 1;
    Position(e);
    ElementAt(PackValues(v), e, p, l, high);
    PackedByte(v, p, l);
    hide Nibble, PackValues;
  }

  lemma Position(e: nat)
    ensures e == 64 * (e / 64) + (if e / 32 % 2 == 1 then 32 else 0) + e % 32
  {
  }

  lemma PackedByte(v: seq<nat>, p: nat, l: nat)
    requires |v| == 256 && (forall i :: 0 <= i < 256 ==> v[i] < 16) && p < 4 && l < 32
    ensures PackValues(v)[32 * p + l] % 16 == v[64 * p + l] && PackValues(v)[32 * p + l] / 16 == v[64 * p + 32 + l]
  {
    assert (32 * p + l) / 32 == p && (32 * p + l) % 32 == l;
    assert PackValues(v)[32 * p + l] == v[64 * p + l] + 16 * v[64 * p + 32 + l];
  }

  /** Every block was packed from some fields. */
  lemma Unpacked(b: Q4K) returns (f: Fields)
    ensures f.InRange() && Pack(f) == b
  {
    var sc := seq(8, j requires 0 <= j < 8 => ScaleBits(b.scales, j) as nat);
    var mn := seq(8, j requires 0 <= j < 8 => MinBits(b.scales, j) as nat);
    var v := seq(256, e requires 0 <= e < 256 => Nibble(b.qs, e) as nat);
    f := Fields(b.d, b.dmin, sc, mn, v);
    forall j: nat | j < 8
      ensures ScaleBits(PackScales(sc, mn), j) == ScaleBits(b.scales, j)
      ensures MinBits(PackScales(sc, mn), j) == MinBits(b.scales, j)
    {
      PackedScales(sc, mn, j);
    }
    ScalePackingIsExact(PackScales(sc, mn), b.scales);
    forall k | 0 <= k < 128 ensures PackValues(v)[k] == b.qs[k] { ByteFromValues(b.qs, v, k); }
  }

  lemma ByteFromValues(qs: seq<Byte>, v: seq<nat>, k: nat)
    requires |qs| == 128 && |v| == 256 && (forall e :: 0 <= e < 256 ==> v[e] < 16) && k < 128
    requires forall e: nat :: e < 256 ==> v[e] == Nibble(qs, e)
    ensures PackValues(v)[k] == qs[k]
  {
    var p, l := k / 32, k % 32;
    ElementAt(qs, 64 * p + l, p, l, false);
    ElementAt(qs, 64 * p + 32 + l, p, l, true);
    hide Nibble;
    assert v[64 * p + l] == qs[k] % 16 && v[64 * p + 32 + l] == qs[k] / 16;
  }

  /** The value the format gives to element `e` of a block packed from `f`: the super-block's scale times
      the sub-block's times the value, less the super-block's min times the sub-block's. */
  function FieldValue<F>(ops: DecodeOps<F>, f: Fields, e: nat): F
    requires f.InRange() && e < 256
  {
    ops.sub(ops.mul(ops.mul(ops.fp16(f.d), ops.fromInt(f.scales[e / 32])), ops.fromInt(f.values[e])),
            ops.mul(ops.fp16(f.dmin), ops.fromInt(f.mins[e / 32])))
  }

  /** The blocks were packed from these fields. */
  ghost predicate PackedFrom(blocks: seq<Q4K>, fs: seq<Fields>) {
    |fs| == |blocks| && forall i :: 0 <= i < |fs| ==> fs[i].InRange() && blocks[i] == Pack(fs[i])
  }

  lemma SubScaleIs<F>(ops: DecodeOps<F>, b: Q4K, j: nat, n: int)
    requires j < 8 && n == ScaleBits(b.scales, j)
    ensures SubScale(ops, b, j) == ops.mul(ops.fp16(b.d), ops.fromInt(n))
  {
  }

  lemma SubMinIs<F>(ops: DecodeOps<F>, b: Q4K, j: nat, n: int)
    requires j < 8 && n == MinBits(b.scales, j)
    ensures SubMin(ops, b, j) == ops.mul(ops.fp16(b.dmin), ops.fromInt(n))
  {
  }

  lemma WeightOfPacked<F>(ops: DecodeOps<F>, f: Fields, e: nat)
    requires f.InRange() && e < 256
    ensures WeightQ4K(ops, Pack(f), e) == FieldValue(ops, f, e)
  {
    PackedScales(f.scales, f.mins, e / 32);
    PackedValues(f.values, e);
    hide ScaleBits, MinBits, Nibble, PackScales, PackValues;
  }

  /** Row by row, decoding gives the values the blocks were packed from. */
  lemma RowOfPacked<F>(ops: DecodeOps<F>, blocks: seq<Q4K>, fs: seq<Fields>, e: nat)
    requires PackedFrom(blocks, fs) && e < 256 * |blocks|
    ensures fs[e / 256].InRange() && RowValues(ops, blocks)[e] == FieldValue(ops, fs[e / 256], e % 256)
  {
    WeightOfPacked(ops, fs[e / 256], e % 256);
    hide WeightQ4K, FieldValue, Pack;
  }

  /** `row` holds the values of blocks packed from `fs`, in their order. */
  ghost predicate HoldsValues<F>(ops: DecodeOps<F>, fs: seq<Fields>, row: seq<F>) {
    && |row| == 256 * |fs| && (forall i :: 0 <= i < |fs| ==> fs[i].InRange())
    && forall e :: 0 <= e < |row| ==> row[e] == FieldValue(ops, fs[e / 256], e % 256)
  }

  /** Whatever the blocks were packed from, `value` is the value of element `e` of block k. */
  ghost predicate IsFieldValue<F>(ops: DecodeOps<F>, blocks: seq<Q4K>, k: nat, e: nat, value: F)
    requires k < |blocks| && e < 256
  {
    forall fs: seq<Fields> :: PackedFrom(blocks, fs) ==> value == FieldValue(ops, fs[k], e)
  }

  lemma WeightIsFieldValue<F>(ops: DecodeOps<F>, blocks: seq<Q4K>, k: nat, e: nat)
    requires k < |blocks| && e < 256
    ensures IsFieldValue(ops, blocks, k, e, WeightQ4K(ops, blocks[k], e))
  {
    forall fs: seq<Fields> | PackedFrom(blocks, fs) ensures WeightQ4K(ops, blocks[k], e) == FieldValue(ops, fs[k], e) {
      WeightOfPacked(ops, fs[k], e);
    }
    hide WeightQ4K, FieldValue;
  }

  lemma RowsOfPacked<F>(ops: DecodeOps<F>, blocks: seq<Q4K>, fs: seq<Fields>)
    requires PackedFrom(blocks, fs)
    ensures HoldsValues(ops, fs, RowValues(ops, blocks))
  {
    forall e: nat | e < 256 * |blocks| ensures RowValues(ops, blocks)[e] == FieldValue(ops, fs[e / 256], e % 256) {
      RowOfPacked(ops, blocks, fs, e);
    }
    hide RowValues, FieldValue;
  }

  /** On 8-bit words the masks and shifts of the decoders are remainders and quotients, and the
      or of the two disjoint parts is their sum. */
  lemma MasksAreArithmetic(x: bv8, y: bv8)
    ensures x & 63 == x % 64 && x & 0xF == x % 16 && x >> 4 == x / 16
    ensures (x & 0xF) | ((y >> 6) << 4) == x % 16 + y / 64 * 16
    ensures (x >> 4) | ((y >> 6) << 4) == x / 16 + y / 64 * 16
  {
  }

  /** The 4-bit value of element `e`: sub-blocks 2p and 2p+1 share 32 bytes, low nibbles first. */
  function Nibble(qs: seq<Byte>, e: nat): (v: int)
    requires |qs| == 128 && e < 256
    ensures 0 <= v < 16
  {
    var byte := qs[e / 64 * 32 + e % 32];
    if e / 32 % 2 == 1 then byte / 16 else byte % 16
  }

  /** The scale of sub-block `j`. */
  function SubScale<F>(ops: DecodeOps<F>, b: Q4K, j: nat): F
    requires j < 8
  {
    ops.mul(ops.fp16(b.d), ops.fromInt(ScaleBits(b.scales, j)))
  }

  /** The min subtracted from every weight of sub-block `j`. */
  function SubMin<F>(ops: DecodeOps<F>, b: Q4K, j: nat): F
    requires j < 8
  {
    ops.mul(ops.fp16(b.dmin), ops.fromInt(MinBits(b.scales, j)))
  }

  /** The value of element `e` of a Q4_K block. */
  function WeightQ4K<F>(ops: DecodeOps<F>, b: Q4K, e: nat): F
    requires e < 256
  {
    ops.sub(ops.mul(SubScale(ops, b, e / 32), ops.fromInt(Nibble(b.qs, e))), SubMin(ops, b, e / 32))
  }

  /** The value of element `e` of a row of Q4_K blocks. */
  function RowQ4K<F>(ops: DecodeOps<F>, x: seq<Q4K>, e: nat): F
    requires e < 256 * |x|
  {
    WeightQ4K(ops, x[e / 256], e % 256)
  }

  function WeightQ80<F>(ops: DecodeOps<F>, b: Q80, e: nat): F
    requires e < 32
  {
    ops.mul(ops.fp16(b.d), ops.fromInt(b.qs[e]))
  }

  function RowQ80<F>(ops: DecodeOps<F>, x: seq<Q80>, e: nat): F
    requires e < 32 * |x|
  {
    WeightQ80(ops, x[e / 32], e % 32)
  }

  /** All the values of a row. */
  function RowValues<F>(ops: DecodeOps<F>, x: seq<Q4K>): (row: seq<F>)
    ensures |row| == 256 * |x|
  {
    seq(256 * |x|, (e: nat) requires e < 256 * |x| => RowQ4K(ops, x, e))
  }

  // ---------------------------------------------------------------- addresses

  /** Where an element of pair `p` sits: its sub-block, its byte and which half of the byte. */
  lemma ElementAt(qs: seq<Byte>, e: nat, p: nat, l: nat, high: bool)
    requires |qs| == 128 && p < 4 && l < 32 && e == 64 * p + (if high then 32 else 0) + l
    ensures e < 256 && e / 32 == 2 * p + (if high then 1 else 0)
    ensures Nibble(qs, e) == Half(qs, 32 * p + l, high)
  {
  }

  lemma RowBlock<F>(ops: DecodeOps<F>, blocks: seq<Q4K>, i: nat, e: nat)
    requires i < |blocks| && e < 256
    ensures 256 * i + e < 256 * |blocks|
    ensures RowQ4K(ops, blocks, 256 * i + e) == WeightQ4K(ops, blocks[i], e)
  {
    assert (256 * i + e) / 256 == i && (256 * i + e) % 256 == e;
  }

  /** The low or high nibble of byte `k`. */
  function Half(qs: seq<Byte>, k: nat, high: bool): int
    requires k < |qs|
  {
    if high then qs[k] / 16 else qs[k] % 16
  }

  // ---------------------------------------------------------------- sequential decoder

  /** One inner loop of the decoder: 32 values from one half of the 32 bytes at `q`. */
  method DequantHalf<F>(ops: DecodeOps<F>, dst: array<F>, y: nat, d: F, m: F, qs: seq<Byte>, q: nat, high: bool)
    requires y + 32 <= dst.Length && q + 32 <= |qs|
    modifies dst
    ensures forall k: nat :: k < dst.Length && !(y <= k < y + 32) ==> dst[k] == old(dst[k])
    ensures forall k: nat :: y <= k < y + 32 ==>
              dst[k] == ops.sub(ops.mul(d, ops.fromInt(Half(qs, q + k - y, high))), m)
  {
    for l := 0 to 32
      invariant forall k: nat :: k < dst.Length && !(y <= k < y + l) ==> dst[k] == old(dst[k])
      invariant forall k: nat :: y <= k < y + l ==>
                  dst[k] == ops.sub(ops.mul(d, ops.fromInt(Half(qs, q + k - y, high))), m)
    {
      dst[y + l] := ops.sub(ops.mul(d, ops.fromInt(Half(qs, q + l, high))), m);
    }
  }

  /** `stream_dequant_q4_K`: writes the 256 values of every block, two sub-blocks of 32 at a time. */
  method StreamDequantQ4K<F>(ops: DecodeOps<F>, blocks: seq<Q4K>, dst: array<F>)
    requires dst.Length == 256 * |blocks|
    modifies dst
    ensures dst[..] == RowValues(ops, blocks)
    ensures forall fs: seq<Fields> :: PackedFrom(blocks, fs) ==> HoldsValues(ops, fs, dst[..])
  {
    ghost var want := RowValues(ops, blocks);
    for i := 0 to |blocks|
      invariant forall k: nat :: k < 256 * i ==> dst[k] == want[k]
    {
      for p := 0 to 4
        invariant forall k: nat :: k < 256 * i + 64 * p ==> dst[k] == want[k]
      {
        DequantPair(ops, blocks, i, p, dst);
      }
    }
    assert dst[..] == want;
    forall fs: seq<Fields> | PackedFrom(blocks, fs) ensures HoldsValues(ops, fs, want) {
      RowsOfPacked(ops, blocks, fs);
    }
    hide HoldsValues, PackedFrom, RowValues;
  }

  /** One round of the inner loop: 64 values from 32 bytes and two scale and min pairs. */
  method DequantPair<F>(ops: DecodeOps<F>, blocks: seq<Q4K>, i: nat, p: nat, dst: array<F>)
    requires dst.Length == 256 * |blocks| && i < |blocks| && p < 4
    modifies dst
    ensures var y := 256 * i + 64 * p;
      forall k: nat :: k < dst.Length ==> dst[k] == if y <= k < y + 64 then RowValues(ops, blocks)[k] else old(dst[k])
  {
    var b, y, q, sub := blocks[i], 256 * i + 64 * p, 32 * p, 2 * p;
    HalfOfRow(ops, blocks, i, p, false, y, sub);
    HalfOfRow(ops, blocks, i, p, true, y + 32, sub + 1);
    var d1 := ops.mul(ops.fp16(b.d), ops.fromInt(ScaleBits(b.scales, sub)));
    var m1 := ops.mul(ops.fp16(b.dmin), ops.fromInt(MinBits(b.scales, sub)));
    var d2 := ops.mul(ops.fp16(b.d), ops.fromInt(ScaleBits(b.scales, sub + 1)));
    var m2 := ops.mul(ops.fp16(b.dmin), ops.fromInt(MinBits(b.scales, sub + 1)));
    assert d1 == SubScale(ops, b, sub) && d2 == SubScale(ops, b, sub + 1);
    assert m1 == SubMin(ops, b, sub) && m2 == SubMin(ops, b, sub + 1);
    hide ScaleBits, MinBits, Half, RowValues, SubScale, SubMin;
    DequantHalf(ops, dst, y, d1, m1, b.qs, q, false);
    DequantHalf(ops, dst, y + 32, d2, m2, b.qs, q, true);
  }

  /** What the row holds at the 32 places from `y` on: one half of pair `p` of block `i`. */
  lemma HalfOfRow<F>(ops: DecodeOps<F>, blocks: seq<Q4K>, i: nat, p: nat, high: bool, y: nat, sub: nat)
    requires i < |blocks| && p < 4
    requires y == 256 * i + 64 * p + (if high then 32 else 0) && sub == 2 * p + (if high then 1 else 0)
    ensures y + 32 <= |RowValues(ops, blocks)|
    ensures forall k: nat :: y <= k < y + 32 ==>
              RowValues(ops, blocks)[k]
              == ops.sub(ops.mul(SubScale(ops, blocks[i], sub), ops.fromInt(Half(blocks[i].qs, 32 * p + k - y, high))),
                         SubMin(ops, blocks[i], sub))
  {
    hide ScaleBits, MinBits, Half, Nibble, SubScale, SubMin, RowQ4K;
    forall k: nat | y <= k < y + 32
      ensures RowValues(ops, blocks)[k]
              == ops.sub(ops.mul(SubScale(ops, blocks[i], sub), ops.fromInt(Half(blocks[i].qs, 32 * p + k - y, high))),
                         SubMin(ops, blocks[i], sub))
    {
      ElementAt(blocks[i].qs, k - 256 * i, p, k - y, high);
      RowBlock(ops, blocks, i, k - 256 * i);
    }
  }

  // ---------------------------------------------------------------- column extractors

  /** Row `r` of a table whose rows are `width` blocks each. */
  function TableRow<B>(table: seq<B>, width: nat, rows: nat, r: nat): (row: seq<B>)
    requires |table| == rows * width && r < rows
    ensures |row| == width
    ensures forall k :: 0 <= k < width && r * width + k < |table| ==> row[k] == table[r * width + k]
  {
    RowInTable(r, rows, width);
    table[r * width..r * width + width]
  }

  lemma RowInTable(r: nat, rows: nat, width: nat)
    requires r < rows
    ensures r * width + width <= rows * width
  {
    assert (r + 1) * width <= rows * width;
  }

  /** The block that the transposed extractors read for row r: the idx-th behind the r rows before it.
      Nothing keeps idx below the width of a row. */
  function BlockAt(r: nat, width: nat, idx: nat): nat { r * width + idx }

  lemma BlocksOrdered(r: nat, u: nat, width: nat, idx: nat)
    requires r <= u
    ensures BlockAt(r, width, idx) <= BlockAt(u, width, idx)
  {
    assert (u - r) * width >= 0;
  }

  /** Inside a row it is that row's block; one past the row it is the next row's first. */
  lemma BlockOfRow<B>(table: seq<B>, width: nat, rows: nat, r: nat, idx: nat)
    requires |table| == rows * width && r < rows && (idx < width || (idx == width > 0 && r + 1 < rows))
    ensures BlockAt(r, width, idx) < |table|
    ensures table[BlockAt(r, width, idx)]
         == if idx < width then TableRow(table, width, rows, r)[idx] else TableRow(table, width, rows, r + 1)[0]
  {
    RowInTable(r, rows, width);
    if idx == width { RowInTable(r + 1, rows, width); }
  }

  /** Every read of a column lies in a table of exactly `rows` rows if and only if the column's block
      is one of a row's. */
  lemma ColumnInsideIff(blocks: nat, rows: nat, width: nat, idx: nat)
    requires blocks == rows * width
    ensures rows == 0 || idx < width <==> forall r: nat :: r < rows ==> BlockAt(r, width, idx) < blocks
  {
    if idx < width {
      forall r: nat | r < rows ensures BlockAt(r, width, idx) < blocks { RowInTable(r, rows, width); }
    } else if rows > 0 {
      assert BlockAt(rows - 1, width, idx) >= rows * width;
    }
  }

  /** What the Q4_K extractor reads from a table of whole rows: for a token among a row's whole blocks the
      value that decoding row r would put there; for a token in the tail of a vocabulary that 256 does
      not divide, a value of the next row. */
  lemma ColumnValueQ4K<F>(ops: DecodeOps<F>, table: seq<Q4K>, vocab: nat, rows: nat, r: nat, token: nat)
    requires |table| == rows * (vocab / 256) && r < rows && token < vocab
    requires token < 256 * (vocab / 256) || (vocab / 256 > 0 && r + 1 < rows)
    ensures BlockAt(r, vocab / 256, token / 256) < |table|
    ensures WeightQ4K(ops, table[BlockAt(r, vocab / 256, token / 256)], token % 256)
         == if token < 256 * (vocab / 256) then RowValues(ops, TableRow(table, vocab / 256, rows, r))[token]
            else RowValues(ops, TableRow(table, vocab / 256, rows, r + 1))[token - 256 * (vocab / 256)]
  {
    var width := vocab / 256;
    BlockOfRow(table, width, rows, r, token / 256);
    if token >= 256 * width { assert token / 256 == width && token % 256 == token - 256 * width; }
  }

  /** The same for Q8_0, whose blocks have 32 elements. */
  lemma ColumnValueQ80<F>(ops: DecodeOps<F>, table: seq<Q80>, vocab: nat, rows: nat, r: nat, token: nat)
    requires |table| == rows * (vocab / 32) && r < rows && token < vocab
    requires token < 32 * (vocab / 32) || (vocab / 32 > 0 && r + 1 < rows)
    ensures BlockAt(r, vocab / 32, token / 32) < |table|
    ensures WeightQ80(ops, table[BlockAt(r, vocab / 32, token / 32)], token % 32)
         == if token < 32 * (vocab / 32) then RowQ80(ops, TableRow(table, vocab / 32, rows, r), token)
            else RowQ80(ops, TableRow(table, vocab / 32, rows, r + 1), token - 32 * (vocab / 32))
  {
    var width := vocab / 32;
    BlockOfRow(table, width, rows, r, token / 32);
    if token >= 32 * width { assert token / 32 == width && token % 32 == token - 32 * width; }
  }

  /** The address arithmetic of the transposed extractor, on one block. */
  method StoreColumnValue<F>(ops: DecodeOps<F>, block: Q4K, posInBlock: nat, dst: array<F>, r: nat)
    requires posInBlock < 256 && r < dst.Length
    modifies dst
    ensures dst[..] == old(dst[..])[r := WeightQ4K(ops, block, posInBlock)]
  {
    var group := posInBlock / 64;
    var posInGroup := posInBlock % 64;
    var isHigh := posInGroup >= 32;
    var qsOffset := group * 32 + posInGroup % 32;
    var scaleIdx := group * 2 + (if isHigh then 1 else 0);
    ElementAt(block.qs, posInBlock, group, posInGroup % 32, isHigh);
    var dScale := ops.mul(ops.fp16(block.d), ops.fromInt(ScaleBits(block.scales, scaleIdx)));
    var dMin := ops.mul(ops.fp16(block.dmin), ops.fromInt(MinBits(block.scales, scaleIdx)));
    var qVal := if isHigh then block.qs[qsOffset] / 16 else block.qs[qsOffset] % 16;
    dst[r] := ops.sub(ops.mul(dScale, ops.fromInt(qVal)), dMin);
  }

  /** The first n values of a column are the ones their blocks were packed from. */
  lemma ColumnIsFieldValues<F>(ops: DecodeOps<F>, table: seq<Q4K>, column: seq<F>, width: nat, token: nat, n: nat)
    requires n <= |column|
    requires forall r: nat :: r < n ==> BlockAt(r, width, token / 256) < |table|
    requires forall r: nat :: r < n ==>
               column[r] == WeightQ4K(ops, table[BlockAt(r, width, token / 256)], token % 256)
    ensures forall r: nat :: r < n ==>
              IsFieldValue(ops, table, BlockAt(r, width, token / 256), token % 256, column[r])
  {
    hide IsFieldValue, BlockAt, WeightQ4K;
    forall r: nat | r < n ensures IsFieldValue(ops, table, BlockAt(r, width, token / 256), token % 256, column[r]) {
      WeightIsFieldValue(ops, table, BlockAt(r, width, token / 256), token % 256);
    }
  }

  /** `extract_embedding_q4_k_transposed`: column `token`, found by address arithmetic. `table` is what
      lies behind the table's address; a read past it ends the model's loop with `inside` false. */
  method ExtractEmbeddingQ4KTransposed<F>(ops: DecodeOps<F>, table: seq<Q4K>, dst: array<F>, vocab: nat, token: nat)
    returns (inside: bool)
    modifies dst
    ensures inside <==> forall r: nat :: r < dst.Length ==> BlockAt(r, vocab / 256, token / 256) < |table|
    ensures forall r: nat :: r < dst.Length ==>
              dst[r] == if BlockAt(r, vocab / 256, token / 256) < |table|
                        then WeightQ4K(ops, table[BlockAt(r, vocab / 256, token / 256)], token % 256)
                        else old(dst[r])
    ensures forall r: nat :: r < dst.Length && BlockAt(r, vocab / 256, token / 256) < |table| ==>
              IsFieldValue(ops, table, BlockAt(r, vocab / 256, token / 256), token % 256, dst[r])
  {
    hide IsFieldValue;
    hide WeightQ4K, BlockAt;
    var blocksPerRow := vocab / 256;
    var blockIdx := token / 256;
    for r := 0 to dst.Length
      invariant forall k: nat :: k < r ==> BlockAt(k, blocksPerRow, blockIdx) < |table|
      invariant forall k: nat :: k < r ==>
                  dst[k] == WeightQ4K(ops, table[BlockAt(k, blocksPerRow, blockIdx)], token % 256)
      invariant forall k: nat :: r <= k < dst.Length ==> dst[k] == old(dst[k])
    {
      var at := BlockAt(r, blocksPerRow, blockIdx);
      if at >= |table| {
        forall k: nat | r <= k < dst.Length ensures BlockAt(k, blocksPerRow, blockIdx) >= |table| {
          BlocksOrdered(r, k, blocksPerRow, blockIdx);
        }
        ColumnIsFieldValues(ops, table, dst[..], blocksPerRow, token, r);
        return false;
      }
      ghost var before := dst[..];
      StoreColumnValue(ops, table[at], token % 256, dst, r);
      assert forall k: nat :: k < dst.Length && k != r ==> dst[k] == dst[..][k] == before[k];
    }
    ColumnIsFieldValues(ops, table, dst[..], blocksPerRow, token, dst.Length);
    inside := true;
  }

  /** `extract_embedding_q8_0_transposed`. */
  method ExtractEmbeddingQ80Transposed<F>(ops: DecodeOps<F>, table: seq<Q80>, dst: array<F>, vocab: nat, token: nat)
    returns (inside: bool)
    modifies dst
    ensures inside <==> forall r: nat :: r < dst.Length ==> BlockAt(r, vocab / 32, token / 32) < |table|
    ensures forall r: nat :: r < dst.Length ==>
              dst[r] == if BlockAt(r, vocab / 32, token / 32) < |table|
                        then WeightQ80(ops, table[BlockAt(r, vocab / 32, token / 32)], token % 32)
                        else old(dst[r])
  {
    hide BlockAt;
    var blocksPerRow := vocab / 32;
    var blockIdx := token / 32;
    for r := 0 to dst.Length
      invariant forall k: nat :: k < r ==> BlockAt(k, blocksPerRow, blockIdx) < |table|
      invariant forall k: nat :: k < r ==>
                  dst[k] == WeightQ80(ops, table[BlockAt(k, blocksPerRow, blockIdx)], token % 32)
      invariant forall k: nat :: r <= k < dst.Length ==> dst[k] == old(dst[k])
    {
      var at := BlockAt(r, blocksPerRow, blockIdx);
      if at >= |table| {
        forall k: nat | r <= k < dst.Length ensures BlockAt(k, blocksPerRow, blockIdx) >= |table| {
          BlocksOrdered(r, k, blocksPerRow, blockIdx);
        }
        return false;
      }
      var block := table[at];
      dst[r] := ops.mul(ops.fp16(block.d), ops.fromInt(block.qs[token % 32]));
    }
    inside := true;
  }
}
