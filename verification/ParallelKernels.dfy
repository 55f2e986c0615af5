/**
 The work functions handed to the thread pool, on the caller's arrays.  Float
 operations are uninterpreted: only which operations run, and in which order, matters.
 */
module ParallelKernels {
  import opened ThreadPool
  import opened ThreadPoolResults

  /** The float operations a kernel uses. */
  datatype FloatOps<!F> = FloatOps(zero: F, add: (F, F) -> F, mul: (F, F) -> F, silu: F -> F)

  /** The running sum of the products of the first `n` columns, in column order. */
  function RowDot<F>(ops: FloatOps<F>, row: seq<F>, input: seq<F>, n: nat): F
    requires n <= |row| && n <= |input|
  {
    if n == 0 then ops.zero
    else ops.add(RowDot(ops, row, input, n - 1), ops.mul(row[n - 1], input[n - 1]))
  }

  function RowEnd(r: nat, cols: nat): nat { (r + 1) * cols }

  /** Row `r` of a row-major matrix. */
  function Row<F>(weights: seq<F>, cols: nat, r: nat): (row: seq<F>)
    requires RowEnd(r, cols) <= |weights|
    ensures |row| == cols
  {
    assert r * cols + cols == RowEnd(r, cols);
    weights[r * cols..r * cols + cols]
  }

  lemma RowFits(r: nat, rows: nat, cols: nat)
    requires r < rows
    ensures RowEnd(r, cols) <= rows * cols
  {
  }

  /** `p` is the running sum of the products of weights r * cols .. (r + 1) * cols with the input. */
  ghost predicate RunningSum<F>(ops: FloatOps<F>, weights: seq<F>, input: seq<F>, r: nat, p: seq<F>) {
    var cols, base := |input|, r * |input|;
    && base + cols <= |weights| && |p| == cols + 1 && p[0] == ops.zero
    && forall c :: 0 <= c < cols ==> p[c + 1] == ops.add(p[c], ops.mul(weights[base + c], input[c]))
  }

  /** The value of row r of the product: the last of the running sums. */
  ghost predicate IsProduct<F(!new)>(ops: FloatOps<F>, weights: seq<F>, input: seq<F>, r: nat, value: F) {
    exists p :: RunningSum(ops, weights, input, r, p) && value == p[|input|]
  }

  lemma {:induction false} DotSums<F>(ops: FloatOps<F>, row: seq<F>, input: seq<F>, n: nat) returns (p: seq<F>)
    requires n <= |row| && n <= |input|
    ensures |p| == n + 1 && p[0] == ops.zero && p[n] == RowDot(ops, row, input, n)
    ensures forall c :: 0 <= c < n ==> p[c + 1] == ops.add(p[c], ops.mul(row[c], input[c]))
  {
    p := [ops.zero];
    if n > 0 {
      var q := DotSums(ops, row, input, n - 1);
      p := q + [RowDot(ops, row, input, n)];
    }
  }

  lemma RowAt<F>(weights: seq<F>, cols: nat, r: nat)
    requires RowEnd(r, cols) <= |weights|
    ensures r * cols + cols <= |weights|
    ensures forall c :: 0 <= c < cols ==> Row(weights, cols, r)[c] == weights[r * cols + c]
  {
  }

  /** The kernel's row is that value. */
  lemma RowIsProduct<F(!new)>(ops: FloatOps<F>, weights: seq<F>, input: seq<F>, r: nat)
    requires RowEnd(r, |input|) <= |weights|
    ensures IsProduct(ops, weights, input, r, RowDot(ops, Row(weights, |input|, r), input, |input|))
  {
    var p := DotSums(ops, Row(weights, |input|, r), input, |input|);
    RowAt(weights, |input|, r);
    hide RowDot, Row, RowEnd;
    assert RunningSum(ops, weights, input, r, p);
  }

  function MatmulItem<F>(ops: FloatOps<F>, weights: seq<F>, input: seq<F>, rows: nat): (nat, F) -> F
    requires |weights| == rows * |input|
  {
    (r: nat, old_value: F) =>
      if r < rows then
        RowFits(r, rows, |input|);
        RowDot(ops, Row(weights, |input|, r), input, |input|)
      else old_value
  }

  lemma MatmulItemAt<F>(ops: FloatOps<F>, weights: seq<F>, input: seq<F>, rows: nat, r: nat, x: F)
    requires |weights| == rows * |input| && r < rows
    ensures RowEnd(r, |input|) <= |weights|
    ensures MatmulItem(ops, weights, input, rows)(r, x) == RowDot(ops, Row(weights, |input|, r), input, |input|)
  {
    RowFits(r, rows, |input|);
    hide RowDot, Row, RowEnd;
  }

  /** `matmul_worker`: fills rows [start, end) of `out` with the product and touches no other row. */
  method MatmulWorker<F(!new)>(ops: FloatOps<F>, out: array<F>, weights: seq<F>, input: seq<F>, start: nat, end: nat)
    requires start <= end <= out.Length && |weights| == out.Length * |input|
    modifies out
    ensures forall r :: start <= r < end ==> out[r] == MatmulItem(ops, weights, input, out.Length)(r, old(out[r]))
    ensures forall r: nat :: start <= r < end ==> IsProduct(ops, weights, input, r, out[r])
    ensures forall r :: 0 <= r < out.Length && !(start <= r < end) ==> out[r] == old(out[r])
  {
    hide IsProduct;
    var cols := |input|;
    for r := start to end
      invariant forall q :: start <= q < r ==> out[q] == MatmulItem(ops, weights, input, out.Length)(q, old(out[q]))
      invariant forall q :: 0 <= q < out.Length && !(start <= q < r) ==> out[q] == old(out[q])
    {
      RowFits(r, out.Length, cols);
      var row := Row(weights, cols, r);
      var sum := ops.zero;
      for c := 0 to cols
        invariant sum == RowDot(ops, row, input, c)
      {
        sum := ops.add(sum, ops.mul(row[c], input[c]));
      }
      out[r] := sum;
    }
    forall r: nat | start <= r < end ensures IsProduct(ops, weights, input, r, out[r]) {
      MatmulItemAt(ops, weights, input, out.Length, r, old(out[r]));
      RowIsProduct(ops, weights, input, r);
    }
  }

  function SwigluItem<F>(ops: FloatOps<F>, up: seq<F>): (nat, F) -> F
  {
    (i: nat, gate: F) => if i < |up| then ops.mul(ops.silu(gate), up[i]) else gate
  }

  /** `swiglu_worker`: rewrites elements [start, end) of `gate` in place. */
  method SwigluWorker<F>(ops: FloatOps<F>, gate: array<F>, up: seq<F>, start: nat, end: nat)
    requires start <= end <= gate.Length == |up|
    modifies gate
    ensures forall i :: start <= i < end ==>
              gate[i] == SwigluItem(ops, up)(i, old(gate[i])) == ops.mul(ops.silu(old(gate[i])), up[i])
    ensures forall i :: 0 <= i < gate.Length && !(start <= i < end) ==> gate[i] == old(gate[i])
  {
    for i := start to end
      invariant forall j :: start <= j < i ==> gate[j] == SwigluItem(ops, up)(j, old(gate[j]))
      invariant forall j :: 0 <= j < gate.Length && !(start <= j < i) ==> gate[j] == old(gate[j])
    {
      gate[i] := ops.mul(ops.silu(gate[i]), up[i]);
    }
  }

  /** The chunk size `parallel_matmul_f32` asks for. */
  function MatmulChunk(rows: nat, threads: nat): int
    requires threads > 0
  {
    if rows / threads < 16 then 16 else rows / threads
  }

  /** A chunk is a thread's share of the rows, but never below 16. */
  lemma ChunkIsShare(rows: nat, threads: nat)
    requires threads > 0
    ensures MatmulChunk(rows, threads) >= 16
    ensures rows >= 16 * threads ==>
      threads * MatmulChunk(rows, threads) <= rows < threads * (MatmulChunk(rows, threads) + 1)
    ensures rows < 16 * threads ==> MatmulChunk(rows, threads) == 16
  {
    var share := rows / threads;
    assert rows == threads * share + rows % threads;
    if rows >= 16 * threads { NotBelow(rows, threads); }
    if rows < 16 * threads { NotAbove(rows, threads); }
  }

  lemma NotBelow(rows: nat, threads: nat)
    requires threads > 0 && rows >= 16 * threads
    ensures rows / threads >= 16
  {
    var share := rows / threads;
    assert rows < threads * share + threads == threads * (share + 1);
    assert share + 1 <= 16 ==> threads * (share + 1) <= threads * 16;
  }

  lemma NotAbove(rows: nat, threads: nat)
    requires threads > 0 && rows < 16 * threads
    ensures rows / threads < 16
  {
    var share := rows / threads;
    assert rows >= threads * share;
    assert share >= 16 ==> threads * share >= threads * 16;
  }

  function MatmulCall<F>(ops: FloatOps<F>, out: seq<F>, weights: seq<F>, input: seq<F>, threads: nat,
      det: bool): Call<F>
    requires threads > 0 && |weights| == |out| * |input|
  {
    Call(MatmulItem(ops, weights, input, |out|), out, MatmulChunk(|out|, threads), det)
  }

  function SwigluCall<F>(ops: FloatOps<F>, gate: seq<F>, up: seq<F>, threads: nat, det: bool): Call<F>
    requires threads > 0 && |gate| == |up|
  {
    Call(SwigluItem(ops, up), gate, |gate| / threads + 1, det)
  }

  /** However the pool schedules it, and in either mode, the parallel product leaves in every
      row the sequential running sum of that row's products. */
  lemma ParallelMatmulIsSequential<F(!new)>(ops: FloatOps<F>, out: seq<F>, weights: seq<F>, input: seq<F>,
                                            threads: nat, det: bool, idle: Call<F>, schedule: seq<Event<F>>)
    requires threads > 0 && |weights| == |out| * |input| && idle.input == []
    ensures var s := Exec(Init(threads, idle), schedule);
            s.main.Outside? && s.call == MatmulCall(ops, out, weights, input, threads, det) ==>
              |s.out| == |out| && forall r: nat :: r < |out| ==> IsProduct(ops, weights, input, r, s.out[r])
  {
    hide Exec, Init, RowDot, Row, RowEnd, MatmulChunk, MatmulItem, IsProduct;
    ExactlyOnce(threads, idle, schedule);
    var s := Exec(Init(threads, idle), schedule);
    if s.main.Outside? && s.call == MatmulCall(ops, out, weights, input, threads, det) {
      forall r: nat | r < |out| ensures IsProduct(ops, weights, input, r, s.out[r]) {
        MatmulItemAt(ops, weights, input, |out|, r, out[r]);
        RowIsProduct(ops, weights, input, r);
      }
    }
  }

  /** Likewise for SwiGLU, which reads the element it overwrites: no element is activated twice. */
  lemma ParallelSwigluIsSequential<F>(ops: FloatOps<F>, gate: seq<F>, up: seq<F>,
                                      threads: nat, det: bool, idle: Call<F>, schedule: seq<Event<F>>)
    requires threads > 0 && |gate| == |up| && idle.input == []
    ensures var s := Exec(Init(threads, idle), schedule);
            s.main.Outside? && s.call == SwigluCall(ops, gate, up, threads, det) ==>
              && |s.out| == |gate|
              && forall i: nat :: i < |gate| ==> s.out[i] == ops.mul(ops.silu(gate[i]), up[i])
  {
    ExactlyOnce(threads, idle, schedule);
  }
}
