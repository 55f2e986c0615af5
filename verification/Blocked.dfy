/**
 Products accumulated block by block, each block's sum shifted before it is added:
 `matmul_tiled` and the fixed-point `matmul_q8_0`, and what the early shifts cost.
 */
module Blocked {
  import opened Sums
  import opened FixedPoint

  const TILE: nat := 32

  function Min(a: nat, b: nat): nat { if a < b then a else b }

  /** The number of blocks of 32 that cover `n` elements. */
  function Blocks(n: nat): nat { (n + 31) / 32 }

  /** The first `t` blocks of an n-term sum, each shifted on its own. */
  ghost function BlockedSum(f: nat -> int, n: nat, t: nat): int
  {
    if t == 0 then 0
    else BlockedSum(f, n, t - 1) + Shift16(Sum(f, Min(TILE * t, n)) - Sum(f, Min(TILE * (t - 1), n)))
  }

  /** The terms of block t, counted from its beginning. */
  ghost function BlockTerms(f: nat -> int, t: nat): nat -> int { (k: nat) => f(32 * t + k) }

  /** Each block adds the sum of its own 32 terms, or of those that are left, divided by 2^16 and rounded
      down. */
  lemma BlockedSumNext(f: nat -> int, n: nat, t: nat) returns (q: int)
    requires 32 * t < n
    ensures BlockedSum(f, n, 0) == 0 && BlockedSum(f, n, t + 1) == BlockedSum(f, n, t) + q
    ensures 65536 * q <= Sum(BlockTerms(f, t), if n - 32 * t < 32 then n - 32 * t else 32) < 65536 * q + 65536
  {
    hide Shift16, Min, BlockTerms, BlockedSum;
    var count := if n - 32 * t < 32 then n - 32 * t else 32;
    SumShift(f, BlockTerms(f, t), 32 * t, count) by { BlockTermsAre(f, t); }
    BlockEnds(n, t, count);
    BlockedSumUnfolds(f, n, t);
    var sum := Sum(f, 32 * t + count) - Sum(f, 32 * t);
    ShiftBounds(sum);
    q := Shift16(sum);
  }

  lemma BlockTermsAre(f: nat -> int, t: nat)
    ensures forall k: nat :: BlockTerms(f, t)(k) == f(32 * t + k)
  {
  }

  lemma BlockedSumUnfolds(f: nat -> int, n: nat, t: nat)
    ensures BlockedSum(f, n, 0) == 0
    ensures BlockedSum(f, n, t + 1)
         == BlockedSum(f, n, t) + Shift16(Sum(f, Min(TILE * (t + 1), n)) - Sum(f, Min(TILE * t, n)))
  {
    hide Shift16, Min;
  }

  lemma BlockEnds(n: nat, t: nat, count: nat)
    requires 32 * t < n && count == if n - 32 * t < 32 then n - 32 * t else 32
    ensures Min(TILE * (t + 1), n) == 32 * t + count && Min(TILE * t, n) == 32 * t
  {
  }

  /** Shifting t blocks separately never rounds up, and loses at most t - 1 against one shift. */
  lemma {:induction false} BlockedWithin(f: nat -> int, n: nat, t: nat)
    requires t >= 1
    ensures Shift16(Sum(f, Min(TILE * t, n))) - (t - 1) <= BlockedSum(f, n, t) <= Shift16(Sum(f, Min(TILE * t, n)))
  {
    if t > 1 {
      BlockedWithin(f, n, t - 1);
    } else {
      assert BlockedSum(f, n, 0) == 0;
    }
  }

  /** Over all blocks: between ceil(n / 32) - 1 below the single shift and the single shift itself. */
  lemma TruncationBound(f: nat -> int, n: nat)
    ensures n > 0 ==> Shift16(Sum(f, n)) - (Blocks(n) - 1) <= BlockedSum(f, n, Blocks(n)) <= Shift16(Sum(f, n))
    ensures n == 0 ==> BlockedSum(f, n, Blocks(n)) == 0
  {
    if n > 0 { BlockedWithin(f, n, Blocks(n)); }
  }

  ghost function Spikes(): nat -> int { (k: nat) => if k % 32 == 0 then 65535 else 0 }

  /** Blocks whose sums fall just short of a unit lose one unit each, all but the first. */
  lemma SpikesLoseMost(t: nat)
    requires 1 <= t <= 65536
    ensures BlockedSum(Spikes(), 32 * t, Blocks(32 * t)) == Shift16(Sum(Spikes(), 32 * t)) - (Blocks(32 * t) - 1)
  {
    hide Spikes;
    SpikeSum(t);
    SpikeBlocks(t, t);
    assert Blocks(32 * t) == t;
    assert Shift16(65535 * t) == t - 1;
  }

  lemma {:induction false} SpikeSum(t: nat)
    ensures Sum(Spikes(), 32 * t) == 65535 * t
  {
    if t > 0 {
      SpikeSum(t - 1);
      SpikeStep(t - 1, 32);
    }
  }

  lemma {:induction false} SpikeStep(t: nat, l: nat)
    requires l <= 32
    ensures Sum(Spikes(), 32 * t + l) == Sum(Spikes(), 32 * t) + (if l > 0 then 65535 else 0)
  {
    hide Spikes;
    if l > 0 {
      SpikeStep(t, l - 1);
      SpikeAt(t, l - 1);
    }
  }

  lemma SpikeAt(t: nat, l: nat)
    requires l < 32
    ensures Spikes()(32 * t + l) == if l == 0 then 65535 else 0
  {
  }

  lemma {:induction false} SpikeBlocks(n: nat, t: nat)
    requires t <= n
    ensures BlockedSum(Spikes(), 32 * n, t) == 0
  {
    if t > 0 {
      SpikeBlocks(n, t - 1);
      SpikeSum(t);
      SpikeSum(t - 1);
    }
  }

  // ---------------------------------------------------------------- tiled matrix product

  ghost function Terms(A: seq<Fixed>, B: seq<Fixed>, M: nat, N: nat, K: nat, r: nat, c: nat): nat -> int
    requires |A| == M * K && |B| == K * N && r < M && c < N
  {
    Products(Row(A, M, K, r), Column(B, K, N, c))
  }

  /** They are the products of row r of A and column c of B in row-major order. */
  lemma TermIs(A: seq<Fixed>, B: seq<Fixed>, M: nat, N: nat, K: nat, r: nat, c: nat, idx: nat)
    requires |A| == M * K && |B| == K * N && r < M && c < N && idx < K
    ensures r * K + idx < |A| && idx * N + c < |B|
    ensures Terms(A, B, M, N, K, r, c)(idx) == (A[r * K + idx] as int) * (B[idx * N + c] as int)
  {
    CellTermIs(A, B, M, K, N, r, c, idx);
    RowEntry(A, M, K, r, idx);
    ColumnEntry(B, K, N, idx, c);
    hide Row, Column, Products;
  }

  /** Cell (r, c) holds the first `t` blocks of its product; before the first it may hold anything. */
  ghost predicate CellHas(C: seq<Fixed>, A: seq<Fixed>, B: seq<Fixed>, M: nat, N: nat, K: nat, r: nat, c: nat, t: nat)
    requires |A| == M * K && |B| == K * N && r < M && c < N
  {
    && Place(r, c, N) < |C|
    && (t > 0 ==> C[Place(r, c, N)] == Wrap32(BlockedSum(Terms(A, B, M, N, K, r, c), K, t)))
  }

  /** All cells of a rectangle. */
  ghost predicate RectHas(C: seq<Fixed>, A: seq<Fixed>, B: seq<Fixed>, M: nat, N: nat, K: nat,
                          rLo: nat, rHi: nat, cLo: nat, cHi: nat, t: nat)
    requires |A| == M * K && |B| == K * N && rHi <= M && cHi <= N
  {
    forall r: nat, c: nat :: rLo <= r < rHi && cLo <= c < cHi ==> CellHas(C, A, B, M, N, K, r, c, t)
  }

  /** Only cells of the rectangle differ. */
  ghost predicate SameOutside(C0: seq<Fixed>, C1: seq<Fixed>, M: nat, N: nat, rLo: nat, rHi: nat, cLo: nat, cHi: nat)
  {
    |C0| == |C1| == M * N &&
    forall r: nat, c: nat :: r < M && c < N && !(rLo <= r < rHi && cLo <= c < cHi) ==>
      Place(r, c, N) < M * N && C1[Place(r, c, N)] == C0[Place(r, c, N)]
  }

  /** A rectangle that a change stays out of keeps what it has. */
  lemma RectKept(C0: seq<Fixed>, C1: seq<Fixed>, A: seq<Fixed>, B: seq<Fixed>, M: nat, N: nat, K: nat,
                 rLo: nat, rHi: nat, cLo: nat, cHi: nat, t: nat, a: nat, b: nat, c: nat, d: nat)
    requires |A| == M * K && |B| == K * N && rHi <= M && cHi <= N
    requires RectHas(C0, A, B, M, N, K, rLo, rHi, cLo, cHi, t) && SameOutside(C0, C1, M, N, a, b, c, d)
    requires rHi <= a || b <= rLo || cHi <= c || d <= cLo
    ensures RectHas(C1, A, B, M, N, K, rLo, rHi, cLo, cHi, t)
  {
    hide Place, Wrap32, Terms;
    forall r: nat, q: nat | rLo <= r < rHi && cLo <= q < cHi ensures CellHas(C1, A, B, M, N, K, r, q, t) {
      assert CellHas(C0, A, B, M, N, K, r, q, t);
    }
  }

  /** Two changes confined to rectangles are confined to any rectangle around both. */
  lemma SameCompose(C0: seq<Fixed>, C1: seq<Fixed>, C2: seq<Fixed>, M: nat, N: nat,
                    a: nat, b: nat, c: nat, d: nat, a': nat, b': nat, c': nat, d': nat,
                    rLo: nat, rHi: nat, cLo: nat, cHi: nat)
    requires SameOutside(C0, C1, M, N, a, b, c, d) && SameOutside(C1, C2, M, N, a', b', c', d')
    requires rLo <= a && b <= rHi && cLo <= c && d <= cHi
    requires rLo <= a' && b' <= rHi && cLo <= c' && d' <= cHi
    ensures SameOutside(C0, C2, M, N, rLo, rHi, cLo, cHi)
  {
    hide Place;
  }

  lemma SameSelf(C: seq<Fixed>, M: nat, N: nat, rLo: nat, rHi: nat, cLo: nat, cHi: nat)
    requires |C| == M * N
    ensures SameOutside(C, C, M, N, rLo, rHi, cLo, cHi)
  {
    hide Place;
    forall r: nat, c: nat | r < M && c < N ensures Place(r, c, N) < M * N { PlaceFits(r, c, M, N); }
  }

  lemma OneCellChanged(C0: seq<Fixed>, C1: seq<Fixed>, M: nat, N: nat, r: nat, c: nat, v: Fixed)
    requires |C0| == M * N && r < M && c < N && Place(r, c, N) < |C0| && C1 == C0[Place(r, c, N) := v]
    ensures SameOutside(C0, C1, M, N, r, r + 1, c, c + 1)
  {
    hide Place;
    PlaceFits(r, c, M, N);
    forall r': nat, c': nat | r' < M && c' < N ensures Place(r', c', N) < M * N { PlaceFits(r', c', M, N); }
  }

  /** The innermost loop: the products of one tile depth for one cell, added in 64 bits. */
  method TileSum(A: seq<Fixed>, B: seq<Fixed>, M: nat, N: nat, K: nat, ii: nat, jj: nat, k: nat, kEnd: nat)
    returns (sum: int)
    requires |A| == M * K && |B| == K * N && ii < M && jj < N && k <= kEnd <= K
    ensures sum == Wrap64(Sum(Terms(A, B, M, N, K, ii, jj), kEnd) - Sum(Terms(A, B, M, N, K, ii, jj), k))
  {
    hide CellMul, Products, Row, Column, Wrap64;
    ghost var f := Terms(A, B, M, N, K, ii, jj);
    sum := 0;
    assert Wrap64(0) == 0 by { Wrap64Identity(0); }
    for kk := k to kEnd
      invariant sum == Wrap64(Sum(f, kk) - Sum(f, k))
    {
      Wrap64Add(Sum(f, kk) - Sum(f, k), f(kk));
      sum := Wrap64(sum + CellMul(A, B, M, K, N, ii, jj, kk));
    }
  }

  /** The block at depth `k` is the next one of the sum. */
  lemma OneMoreBlock(f: nat -> int, K: nat, k: nat, kEnd: nat)
    requires k % TILE == 0 && k < K && kEnd == Min(k + TILE, K)
    ensures BlockedSum(f, K, k / TILE + 1) == BlockedSum(f, K, k / TILE) + Shift16(Sum(f, kEnd) - Sum(f, k))
    ensures k == 0 ==> BlockedSum(f, K, k / TILE) == 0
  {
    hide Shift16;
    var t := k / TILE;
    assert TILE * t == k && Min(TILE * (t + 1), K) == kEnd && Min(TILE * t, K) == k;
  }

  /** The update of one cell by the tile at depth `k`. */
  method TileCell(A: seq<Fixed>, B: seq<Fixed>, C: array<Fixed>, M: nat, N: nat, K: nat, ii: nat, jj: nat, k: nat,
      kEnd: nat)
    requires |A| == M * K && |B| == K * N && C.Length == M * N && ii < M && jj < N
    requires k % TILE == 0 && k < K && kEnd == Min(k + TILE, K)
    requires CellHas(C[..], A, B, M, N, K, ii, jj, k / TILE)
    modifies C
    ensures CellHas(C[..], A, B, M, N, K, ii, jj, k / TILE + 1)
    ensures SameOutside(old(C[..]), C[..], M, N, ii, ii + 1, jj, jj + 1)
  {
    hide Wrap32, Wrap64, Terms, Shift16, Place, BlockedSum, Sum;
    PlaceFits(ii, jj, M, N);
    var sum := TileSum(A, B, M, N, K, ii, jj, k, kEnd);
    ghost var f := Terms(A, B, M, N, K, ii, jj);
    ghost var before := C[..];
    ghost var t := k / TILE;
    ghost var exact := Sum(f, kEnd) - Sum(f, k);
    OneMoreBlock(f, K, k, kEnd);
    WrapThenShift(exact);
    var at := Place(ii, jj, N);
    if k == 0 {
      C[at] := Wrap32(Shift16(sum));
    } else {
      Wrap32Add(BlockedSum(f, K, t), Shift16(exact));
      C[at] := Wrap32(C[at] + Wrap32(Shift16(sum)));
    }
    OneCellChanged(before, C[..], M, N, ii, jj, C[Place(ii, jj, N)]);
  }

  /** The jj loop: one row of the tile. */
  method TileRow(A: seq<Fixed>, B: seq<Fixed>, C: array<Fixed>, M: nat, N: nat, K: nat,
                 ii: nat, j: nat, jEnd: nat, k: nat, kEnd: nat)
    requires |A| == M * K && |B| == K * N && C.Length == M * N && ii < M && j <= jEnd <= N
    requires k % TILE == 0 && k < K && kEnd == Min(k + TILE, K)
    requires RectHas(C[..], A, B, M, N, K, ii, ii + 1, j, jEnd, k / TILE)
    modifies C
    ensures RectHas(C[..], A, B, M, N, K, ii, ii + 1, j, jEnd, k / TILE + 1)
    ensures SameOutside(old(C[..]), C[..], M, N, ii, ii + 1, j, jEnd)
  {
    hide CellHas, SameOutside, Min;
    ghost var start := C[..];
    SameSelf(start, M, N, ii, ii + 1, j, j);
    for jj := j to jEnd
      invariant RectHas(C[..], A, B, M, N, K, ii, ii + 1, j, jj, k / TILE + 1)
      invariant RectHas(C[..], A, B, M, N, K, ii, ii + 1, jj, jEnd, k / TILE)
      invariant SameOutside(start, C[..], M, N, ii, ii + 1, j, jj)
    {
      ghost var before := C[..];
      assert CellHas(before, A, B, M, N, K, ii, jj, k / TILE);
      TileCell(A, B, C, M, N, K, ii, jj, k, kEnd);
      RectKept(before, C[..], A, B, M, N, K, ii, ii + 1, j, jj, k / TILE + 1, ii, ii + 1, jj, jj + 1);
      RectKept(before, C[..], A, B, M, N, K, ii, ii + 1, jj + 1, jEnd, k / TILE, ii, ii + 1, jj, jj + 1);
      SameCompose(start, before, C[..], M, N, ii, ii + 1, j, jj, ii, ii + 1, jj, jj + 1, ii, ii + 1, j, jj + 1);
    }
  }

  /** The ii loop: a whole tile. */
  method Tile(A: seq<Fixed>, B: seq<Fixed>, C: array<Fixed>, M: nat, N: nat, K: nat,
              i: nat, iEnd: nat, j: nat, jEnd: nat, k: nat, kEnd: nat)
    requires |A| == M * K && |B| == K * N && C.Length == M * N && i <= iEnd <= M && j <= jEnd <= N
    requires k % TILE == 0 && k < K && kEnd == Min(k + TILE, K)
    requires RectHas(C[..], A, B, M, N, K, i, iEnd, j, jEnd, k / TILE)
    modifies C
    ensures RectHas(C[..], A, B, M, N, K, i, iEnd, j, jEnd, k / TILE + 1)
    ensures SameOutside(old(C[..]), C[..], M, N, i, iEnd, j, jEnd)
  {
    hide CellHas, SameOutside;
    ghost var start := C[..];
    SameSelf(start, M, N, i, i, j, jEnd);
    for ii := i to iEnd
      invariant RectHas(C[..], A, B, M, N, K, i, ii, j, jEnd, k / TILE + 1)
      invariant RectHas(C[..], A, B, M, N, K, ii, iEnd, j, jEnd, k / TILE)
      invariant SameOutside(start, C[..], M, N, i, ii, j, jEnd)
    {
      ghost var before := C[..];
      TileRow(A, B, C, M, N, K, ii, j, jEnd, k, kEnd);
      RectKept(before, C[..], A, B, M, N, K, i, ii, j, jEnd, k / TILE + 1, ii, ii + 1, j, jEnd);
      RectKept(before, C[..], A, B, M, N, K, ii + 1, iEnd, j, jEnd, k / TILE, ii, ii + 1, j, jEnd);
      SameCompose(start, before, C[..], M, N, i, ii, j, jEnd, ii, ii + 1, j, jEnd, i, ii + 1, j, jEnd);
    }
  }

  /** The k loop: all depths of one tile position. */
  method TileStack(A: seq<Fixed>, B: seq<Fixed>, C: array<Fixed>, M: nat, N: nat, K: nat, i: nat, j: nat)
    requires |A| == M * K && |B| == K * N && C.Length == M * N && i < M && j < N
    modifies C
    ensures RectHas(C[..], A, B, M, N, K, i, Min(i + TILE, M), j, Min(j + TILE, N), Blocks(K))
    ensures SameOutside(old(C[..]), C[..], M, N, i, Min(i + TILE, M), j, Min(j + TILE, N))
  {
    hide SameOutside;
    var iEnd, jEnd := Min(i + TILE, M), Min(j + TILE, N);
    ghost var start := C[..];
    SameSelf(start, M, N, i, iEnd, j, jEnd);
    NothingYet(C[..], A, B, M, N, K, i, iEnd, j, jEnd);
    hide CellHas;
    var k := 0;
    while k < K
      invariant k % TILE == 0 && k / TILE <= Blocks(K) && (k >= K ==> k / TILE == Blocks(K))
      invariant RectHas(C[..], A, B, M, N, K, i, iEnd, j, jEnd, k / TILE)
      invariant SameOutside(start, C[..], M, N, i, iEnd, j, jEnd)
      decreases K + TILE - k
    {
      ghost var before := C[..];
      Tile(A, B, C, M, N, K, i, iEnd, j, jEnd, k, Min(k + TILE, K));
      SameCompose(start, before, C[..], M, N, i, iEnd, j, jEnd, i, iEnd, j, jEnd, i, iEnd, j, jEnd);
      k := k + TILE;
    }
  }

  lemma NothingYet(C: seq<Fixed>, A: seq<Fixed>, B: seq<Fixed>, M: nat, N: nat, K: nat, a: nat, b: nat, c: nat, d: nat)
    requires |A| == M * K && |B| == K * N && |C| == M * N && b <= M && d <= N
    ensures RectHas(C, A, B, M, N, K, a, b, c, d, 0)
  {
    hide Place;
    forall r: nat, q: nat | a <= r < b && c <= q < d
      ensures CellHas(C, A, B, M, N, K, r, q, 0)
    {
      PlaceFits(r, q, M, N);
    }
  }

  /** The j loop: one band of rows. */
  method TileBand(A: seq<Fixed>, B: seq<Fixed>, C: array<Fixed>, M: nat, N: nat, K: nat, i: nat)
    requires |A| == M * K && |B| == K * N && C.Length == M * N && i < M
    modifies C
    ensures RectHas(C[..], A, B, M, N, K, i, Min(i + TILE, M), 0, N, Blocks(K))
    ensures SameOutside(old(C[..]), C[..], M, N, i, Min(i + TILE, M), 0, N)
  {
    hide CellHas, SameOutside;
    var iEnd := Min(i + TILE, M);
    ghost var start := C[..];
    SameSelf(start, M, N, i, iEnd, 0, 0);
    var j := 0;
    while j < N
      invariant RectHas(C[..], A, B, M, N, K, i, iEnd, 0, Min(j, N), Blocks(K))
      invariant SameOutside(start, C[..], M, N, i, iEnd, 0, Min(j, N))
      decreases N + TILE - j
    {
      ghost var before := C[..];
      var jEnd := Min(j + TILE, N);
      TileStack(A, B, C, M, N, K, i, j);
      RectKept(before, C[..], A, B, M, N, K, i, iEnd, 0, j, Blocks(K), i, iEnd, j, jEnd);
      SameCompose(start, before, C[..], M, N, i, iEnd, 0, j, i, iEnd, j, jEnd, i, iEnd, 0, jEnd);
      j := j + TILE;
    }
  }

  /** `matmul_tiled`: every cell ends as the sum of its separately shifted blocks. */
  method MatmulTiled(A: seq<Fixed>, B: seq<Fixed>, C: array<Fixed>, M: nat, N: nat, K: nat)
    requires |A| == M * K && |B| == K * N && C.Length == M * N
    modifies C
    ensures RectHas(C[..], A, B, M, N, K, 0, M, 0, N, Blocks(K))
  {
    hide CellHas, SameOutside;
    var i := 0;
    while i < M
      invariant RectHas(C[..], A, B, M, N, K, 0, Min(i, M), 0, N, Blocks(K))
      decreases M + TILE - i
    {
      ghost var before := C[..];
      var iEnd := Min(i + TILE, M);
      TileBand(A, B, C, M, N, K, i);
      RectKept(before, C[..], A, B, M, N, K, 0, i, 0, N, Blocks(K), i, iEnd, 0, N);
      i := i + TILE;
    }
  }

  /** A finished cell is the naive single-shift product less a loss of at most ceil(K/32) - 1, wrapped
      to 32 bits like every cell; where the interval is representable the cell lies in it. */
  lemma TiledCellBound(C: seq<Fixed>, A: seq<Fixed>, B: seq<Fixed>, M: nat, N: nat, K: nat, r: nat, c: nat)
    returns (loss: nat)
    requires |A| == M * K && |B| == K * N && r < M && c < N && K >= 1
    requires CellHas(C, A, B, M, N, K, r, c, Blocks(K))
    ensures var naive := Shift16(Sum(Terms(A, B, M, N, K, r, c), K));
      && loss <= Blocks(K) - 1 && C[Place(r, c, N)] == Wrap32(naive - loss)
      && (-TWO31 <= naive - loss < TWO31 ==> C[Place(r, c, N)] == naive - loss)
  {
    hide Terms, Shift16;
    var f := Terms(A, B, M, N, K, r, c);
    TruncationBound(f, K);
    loss := Shift16(Sum(f, K)) - BlockedSum(f, K, Blocks(K));
  }

  /** A row with one value just below a unit at the start of each of t blocks, against a column of ones. */
  function SpikeRow(t: nat): (row: seq<Fixed>)
    ensures |row| == 32 * t
  {
    seq(32 * t, k => if k % 32 == 0 then 65535 else 0)
  }

  function UnitColumn(t: nat): (col: seq<Fixed>)
    ensures |col| == 32 * t
  {
    seq(32 * t, _ => 1)
  }

  ghost function SpikeTerms(t: nat): nat -> int { Terms(SpikeRow(t), UnitColumn(t), 1, 1, 32 * t, 0, 0) }

  /** The largest loss does occur: in the product of these matrices, which `MatmulTiled` leaves in `C`,
      the only cell is ceil(K/32) - 1 below the naive product. */
  lemma TruncationBoundIsTight(C: seq<Fixed>, t: nat)
    requires 1 <= t <= 65536
    requires RectHas(C, SpikeRow(t), UnitColumn(t), 1, 1, 32 * t, 0, 1, 0, 1, Blocks(32 * t))
    ensures |C| > 0 && C[0] == Shift16(Sum(SpikeTerms(t), 32 * t)) - (Blocks(32 * t) - 1)
  {
    hide Spikes, Wrap32, Shift16, SpikeTerms, Blocks;
    SpikeCell(C, t);
    TermsAreSpikes(t);
    SumSame(SpikeTerms(t), Spikes(), 32 * t);
    BlockedSame(SpikeTerms(t), Spikes(), 32 * t, Blocks(32 * t));
    SpikesLoseMost(t);
    SpikesVanish(t);
  }

  lemma SpikeCell(C: seq<Fixed>, t: nat)
    requires 1 <= t && RectHas(C, SpikeRow(t), UnitColumn(t), 1, 1, 32 * t, 0, 1, 0, 1, Blocks(32 * t))
    ensures |C| > 0 && C[0] == Wrap32(BlockedSum(SpikeTerms(t), 32 * t, Blocks(32 * t)))
  {
    hide Wrap32, Terms, SpikeRow, UnitColumn;
    assert CellHas(C, SpikeRow(t), UnitColumn(t), 1, 1, 32 * t, 0, 0, Blocks(32 * t));
  }

  lemma TermsAreSpikes(t: nat)
    ensures forall k: nat :: k < 32 * t ==> SpikeTerms(t)(k) == Spikes()(k)
  {
    var row, col := SpikeRow(t), UnitColumn(t);
    assert Row(row, 1, 32 * t, 0) == row;
    forall k: nat | k < 32 * t ensures SpikeTerms(t)(k) == Spikes()(k) {
      assert Column(col, 32 * t, 1, 0)[k] == 1;
    }
  }

  lemma SpikesVanish(t: nat)
    requires 1 <= t
    ensures Blocks(32 * t) == t && BlockedSum(Spikes(), 32 * t, t) == 0 && Wrap32(0) == 0
  {
    SpikeBlocks(t, t);
  }

  lemma {:induction false} BlockedSame(f: nat -> int, g: nat -> int, n: nat, t: nat)
    requires forall k: nat :: k < n ==> f(k) == g(k)
    ensures BlockedSum(f, n, t) == BlockedSum(g, n, t)
  {
    if t > 0 {
      BlockedSame(f, g, n, t - 1);
      SumSame(f, g, Min(TILE * t, n));
      SumSame(f, g, Min(TILE * (t - 1), n));
    }
  }

  // ---------------------------------------------------------------- Q8_0 matrix-vector product

  type Int16 = x: int | -32768 <= x < 32768
  type Quant = x: int | -128 <= x < 128

  /** A Q8_0 block with an 8.8 fixed-point scale. */
  datatype FixedBlock = FixedBlock(d: Int16, qs: seq<Quant>)
  type BlockQ80 = b: FixedBlock | |b.qs| == 32 witness FixedBlock(0, seq(32, _ => 0))

  /** `(d_fixed * q) >> 7`. */
  function DequantValue(d: Int16, q: Quant): (v: Fixed)
    ensures -0x80_0000 <= v <= 0x80_0000
  {
    DequantRange(d, q);
    d * 256 * q / 128
  }

  lemma DequantRange(d: Int16, q: Quant)
    ensures -0x80_0000 <= d * 256 * q / 128 <= 0x80_0000
  {
    assert d * 256 * q == 256 * (d * q);
    ProductRange(d, q, 32768, 128);
  }

  /** The shift loses nothing, since the 8.8 scale was shifted up by 8 before. */
  lemma DequantIsExact(d: Int16, q: Quant)
    ensures DequantValue(d, q) == 2 * d * q
  {
    assert d * 256 * q == 128 * (2 * d * q);
  }

  lemma Scaled(c: int, x: int, y: int)
    requires c >= 0 && 0 <= x <= y
    ensures 0 <= c * x <= c * y && c * x == x * c && c * y == y * c
  {
  }

  lemma ProductRange(x: int, y: int, a: int, b: int)
    requires -a <= x <= a && -b <= y <= b
    ensures -(a * b) <= x * y <= a * b
  {
    var p, q := if x >= 0 then x else -x, if y >= 0 then y else -y;
    Scaled(p, q, b);
    Scaled(b, p, a);
    assert x * y == p * q || x * y == -(p * q);
  }

  /** `dequantize_block_q8_0`. */
  method DequantizeBlockQ80(b: BlockQ80) returns (values: seq<Fixed>)
    ensures |values| == 32
    ensures forall k: nat :: k < 32 ==> values[k] == DequantValue(b.d, b.qs[k])
  {
    values := [];
    for k := 0 to 32
      invariant |values| == k
      invariant forall l: nat :: l < k ==> values[l] == DequantValue(b.d, b.qs[l])
    {
      values := values + [DequantValue(b.d, b.qs[k])];
    }
  }

  /** The product of element `e` of a dequantised row with the input. */
  ghost function RowTerm(row: seq<BlockQ80>, x: seq<Fixed>, e: nat): int
  {
    if e < |x| && e / 32 < |row| then DequantValue(row[e / 32].d, row[e / 32].qs[e % 32]) * (x[e] as int) else 0
  }

  ghost function RowTerms(row: seq<BlockQ80>, x: seq<Fixed>): nat -> int
  {
    (e: nat) => RowTerm(row, x, e)
  }

  /** Element k of block t contributes twice the product of the block's scale, its quant and the input. */
  lemma RowTermIs(row: seq<BlockQ80>, x: seq<Fixed>, t: nat, k: nat)
    requires t < |row| && k < 32 && 32 * t + k < |x|
    ensures RowTerms(row, x)(32 * t + k) == (2 * row[t].d * row[t].qs[k]) * (x[32 * t + k] as int)
  {
    assert (32 * t + k) / 32 == t && (32 * t + k) % 32 == k;
    DequantIsExact(row[t].d, row[t].qs[k]);
    hide DequantValue;
  }

  /** One call of `vec_dot_neon` inside the row loop: exactly one shifted block of the row. */
  method BlockDot(row: seq<BlockQ80>, x: seq<Fixed>, t: nat) returns (r: Fixed)
    requires |row| == Blocks(|x|) && t < |row|
    ensures r == Wrap32(Shift16(Sum(RowTerms(row, x), Min(TILE * (t + 1), |x|))
                                - Sum(RowTerms(row, x), Min(TILE * t, |x|))))
  {
    hide Wrap32, Wrap64, DequantValue, RowTerms, RowTerm, Products, Shift16;
    var offset := t * 32;
    var count := if t == |row| - 1 then |x| - offset else 32;
    var values := DequantizeBlockQ80(row[t]);
    var xs := x[offset..offset + count];
    r := VecDotNeon(values[..count], xs);
    BlockProducts(row, x, t, values[..count], xs, offset, count);
  }

  lemma BlockProducts(row: seq<BlockQ80>, x: seq<Fixed>, t: nat, values: seq<Fixed>, xs: seq<Fixed>, offset: nat,
      count: nat)
    requires |row| == Blocks(|x|) && t < |row| && offset == 32 * t && count <= 32
    requires offset + count == Min(TILE * (t + 1), |x|) && |values| == |xs| == count && xs == x[offset..offset + count]
    requires forall k: nat :: k < count ==> values[k] == DequantValue(row[t].d, row[t].qs[k])
    ensures Sum(Products(values, xs), count) == Sum(RowTerms(row, x), offset + count) - Sum(RowTerms(row, x), offset)
    ensures Wrap64(Sum(Products(values, xs), count)) == Sum(Products(values, xs), count)
  {
    hide DequantValue, Wrap64;
    forall k: nat | k < count
      ensures Products(values, xs)(k) == RowTerms(row, x)(offset + k)
      ensures -0x40_0000_0000_0000 <= Products(values, xs)(k) <= 0x40_0000_0000_0000
    {
      assert (offset + k) / 32 == t && (offset + k) % 32 == k;
      ProductRange(values[k], xs[k], 0x80_0000, TWO31);
    }
    SumShift(RowTerms(row, x), Products(values, xs), offset, count);
    SumBounds(Products(values, xs), count, -0x40_0000_0000_0000, 0x40_0000_0000_0000);
    Wrap64Identity(Sum(Products(values, xs), count));
  }

  /** `matmul_q8_0`, CPU path: every output is the sum of its separately shifted blocks. */
  method MatmulQ80(A: seq<BlockQ80>, x: seq<Fixed>, y: array<Fixed>)
    requires |A| == y.Length * Blocks(|x|)
    modifies y
    ensures forall r: nat :: r < y.Length ==> y[r] == RowResult(A, x, y.Length, r)
  {
    hide RowResult;
    for i := 0 to y.Length
      invariant forall r: nat :: r < i ==> y[r] == RowResult(A, x, y.Length, r)
    {
      var sum := RowAt(A, x, y.Length, i);
      y[i] := sum;
    }
  }

  /** One iteration of the row loop. */
  method RowAt(A: seq<BlockQ80>, x: seq<Fixed>, m: nat, i: nat) returns (sum: Fixed)
    requires |A| == m * Blocks(|x|) && i < m
    ensures sum == RowResult(A, x, m, i)
  {
    hide Wrap32, RowTerms, Blocks;
    InMatrix(i, m, Blocks(|x|));
    sum := RowSum(A[i * Blocks(|x|)..i * Blocks(|x|) + Blocks(|x|)], x);
  }

  method RowSum(row: seq<BlockQ80>, x: seq<Fixed>) returns (sum: Fixed)
    requires |row| == Blocks(|x|)
    ensures sum == Wrap32(BlockedSum(RowTerms(row, x), |x|, Blocks(|x|)))
  {
    hide Wrap32, Shift16, RowTerms;
    Wrap32Identity(0);
    sum := 0;
    for t := 0 to |row|
      invariant sum == Wrap32(BlockedSum(RowTerms(row, x), |x|, t))
    {
      var d := BlockDot(row, x, t);
      Wrap32Add(BlockedSum(RowTerms(row, x), |x|, t),
                Shift16(Sum(RowTerms(row, x), Min(TILE * (t + 1), |x|)) - Sum(RowTerms(row, x), Min(TILE * t, |x|))));
      sum := Wrap32(sum + d);
    }
  }

  ghost function RowResult(A: seq<BlockQ80>, x: seq<Fixed>, m: nat, r: nat): Fixed
    requires |A| == m * Blocks(|x|) && r < m
  {
    InMatrix(r, m, Blocks(|x|));
    Wrap32(BlockedSum(RowTerms(A[r * Blocks(|x|)..r * Blocks(|x|) + Blocks(|x|)], x), |x|, Blocks(|x|)))
  }

  /** An output is the single-shift product of the dequantised row less a loss of at most
      blocks_per_row - 1, wrapped to 32 bits. */
  lemma Q80RowBound(A: seq<BlockQ80>, x: seq<Fixed>, m: nat, r: nat, row: seq<BlockQ80>) returns (loss: nat)
    requires |A| == m * Blocks(|x|) && r < m && |x| > 0 && r * Blocks(|x|) + Blocks(|x|) <= |A|
    requires row == A[r * Blocks(|x|)..r * Blocks(|x|) + Blocks(|x|)]
    ensures var single := Shift16(Sum(RowTerms(row, x), |x|));
      && loss <= Blocks(|x|) - 1 && RowResult(A, x, m, r) == Wrap32(single - loss)
      && (-TWO31 <= single - loss < TWO31 ==> RowResult(A, x, m, r) == single - loss)
  {
    hide RowTerms, Shift16;
    TruncationBound(RowTerms(row, x), |x|);
    loss := Shift16(Sum(RowTerms(row, x), |x|)) - BlockedSum(RowTerms(row, x), |x|, Blocks(|x|));
  }
}
