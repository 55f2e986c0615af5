/**
 Q16.16 arithmetic: the lane-split NEON products against their scalar references, and what
 blocked products lose by shifting each block's sum separately.
 */
module FixedPoint {
  import opened Sums

  const TWO31 := 0x8000_0000
  const TWO63 := 0x8000_0000_0000_0000
  type Fixed = x: int | -TWO31 <= x < TWO31

  /** Two's-complement truncation, as in a cast to `fixed_t` and in 64-bit vector lanes. */
  function Wrap32(x: int): Fixed { (x + TWO31) % (2 * TWO31) - TWO31 }
  function Wrap64(x: int): int { (x + TWO63) % (2 * TWO63) - TWO63 }

  /** `>> 16`, rounding towards minus infinity. */
  function Shift16(x: int): int { x / 65536 }

  lemma Wrap64Add(x: int, y: int)
    ensures Wrap64(Wrap64(x) + y) == Wrap64(x + y)
    ensures Wrap64(Wrap64(x) + Wrap64(y)) == Wrap64(x + y)
  {
    var m := 2 * TWO63;
    var j, k := (x + TWO63) / m, (y + TWO63) / m;
    assert Wrap64(x) == x - m * j && Wrap64(y) == y - m * k;
    Shifted64(x + y + TWO63, -j);
    Shifted64(x + y + TWO63, -(j + k));
  }

  lemma Shifted64(x: int, k: int)
    ensures (x + 2 * TWO63 * k) % (2 * TWO63) == x % (2 * TWO63)
  {
  }

  lemma Shifted32(x: int, k: int)
    ensures (x + 2 * TWO31 * k) % (2 * TWO31) == x % (2 * TWO31)
  {
  }

  lemma Wrap32Add(x: int, y: int)
    ensures Wrap32(Wrap32(x) + y) == Wrap32(x + y)
    ensures Wrap32(Wrap32(x) + Wrap32(y)) == Wrap32(x + y)
  {
    var m := 2 * TWO31;
    var j, k := (x + TWO31) / m, (y + TWO31) / m;
    assert Wrap32(x) as int == x - m * j && Wrap32(y) as int == y - m * k;
    Shifted32(x + y + TWO31, -j);
    Shifted32(x + y + TWO31, -(j + k));
  }

  lemma Wrap32Identity(x: int)
    requires -TWO31 <= x < TWO31
    ensures Wrap32(x) == x
  {
  }

  /** The low 32 bits of a shifted sum do not depend on whether the sum wrapped at 64 bits. */
  lemma WrapThenShift(x: int)
    ensures Wrap32(Shift16(Wrap64(x))) == Wrap32(Shift16(x))
  {
    var k := (x + TWO63) / (2 * TWO63);
    assert Wrap64(x) == x - 2 * TWO63 * k;
    assert 2 * TWO63 == 65536 * 0x1_0000_0000_0000;
    ShiftMultiple(x, -k * 0x1_0000_0000_0000);
    assert Shift16(Wrap64(x)) == Shift16(x) - 0x1_0000_0000_0000 * k;
    Shifted32(Shift16(x) + TWO31, -k * 0x1_0000);
  }

  lemma ShiftMultiple(x: int, k: int)
    ensures Shift16(x + 65536 * k) == Shift16(x) + k
  {
  }

  lemma Wrap64Identity(x: int)
    requires -TWO63 <= x < TWO63
    ensures Wrap64(x) == x
  {
  }

  /** The products of two vectors, element by element. */
  ghost function Products(a: seq<Fixed>, b: seq<Fixed>): nat -> int
  {
    (k: nat) => if k < |a| && k < |b| then (a[k] as int) * (b[k] as int) else 0
  }

  /** The integer whose low word is `r`, `t` turns of 2^32 up, as a sum before the shift. */
  function Turned(r: Fixed, t: int): int { 65536 * (r + 0x1_0000_0000 * t) }

  /** `r` is what is left of `sum` when its low 16 bits are dropped and 32 bits are kept. */
  ghost predicate KeptOf(sum: int, r: Fixed) { exists t :: Turned(r, t) <= sum < Turned(r, t) + 65536 }

  /** Shifting and wrapping do that, and the earlier wrap at 64 bits makes no difference. */
  lemma FixedIsKept(x: int)
    ensures KeptOf(x, Wrap32(Shift16(Wrap64(x))))
  {
    WrapThenShift(x);
    var q := Shift16(x);
    ShiftBounds(x);
    var t := WrapTurns(q);
    hide Shift16, Wrap32, Wrap64;
    assert Turned(Wrap32(q), t) == 65536 * q;
  }

  lemma ShiftBounds(x: int)
    ensures 65536 * Shift16(x) <= x < 65536 * Shift16(x) + 65536
  {
  }

  lemma WrapTurns(x: int) returns (t: int)
    ensures x == Wrap32(x) + 0x1_0000_0000 * t
  {
    t := (x + TWO31) / (2 * TWO31);
  }

  /** The result both dot products promise. */
  ghost function FixedResult(f: nat -> int, n: nat): (r: Fixed)
    ensures KeptOf(Sum(f, n), r)
  {
    FixedIsKept(Sum(f, n));
    Wrap32(Shift16(Wrap64(Sum(f, n))))
  }

  /** `p` is the running sum of the products of two vectors. */
  ghost predicate RunningSum(f: nat -> int, n: nat, p: seq<int>) {
    |p| == n + 1 && p[0] == 0 && forall k: nat :: k < n ==> p[k + 1] == p[k] + f(k)
  }

  lemma {:induction false} SumRuns(f: nat -> int, n: nat) returns (p: seq<int>)
    ensures RunningSum(f, n, p) && p[n] == Sum(f, n)
  {
    p := [0];
    if n > 0 {
      var q := SumRuns(f, n - 1);
      p := q + [Sum(f, n)];
    }
  }

  lemma SumFour(f: nat -> int, i: nat)
    ensures Sum(f, i + 4) == Sum(f, i) + f(i) + f(i + 1) + f(i + 2) + f(i + 3)
  {
    assert Sum(f, i + 1) == Sum(f, i) + f(i);
    assert Sum(f, i + 2) == Sum(f, i + 1) + f(i + 1);
    assert Sum(f, i + 3) == Sum(f, i + 2) + f(i + 2);
  }

  // ---------------------------------------------------------------- dot products

  /** The scalar reference `vec_dot_neon`. */
  method VecDotScalar(a: seq<Fixed>, b: seq<Fixed>) returns (r: Fixed)
    requires |a| == |b|
    ensures r == FixedResult(Products(a, b), |a|) && KeptOf(Sum(Products(a, b), |a|), r)
  {
    var sum := 0;
    for i := 0 to |a|
      invariant sum == Wrap64(Sum(Products(a, b), i))
    {
      hide Wrap64;
      Wrap64Add(Sum(Products(a, b), i), Products(a, b)(i));
      sum := Wrap64(sum + (a[i] as int) * (b[i] as int));
    }
    r := Wrap32(Shift16(sum));
  }

  /** The two lanes hold between them the sum of the first `i` products. */
  ghost predicate Lanes(lane0: int, lane1: int, even: int, odd: int, f: nat -> int, i: nat)
  {
    lane0 == Wrap64(even) && lane1 == Wrap64(odd) && even + odd == Sum(f, i)
  }

  /** Adds products i .. i + 3 to the lanes: elements 0 and 2 to the first, 1 and 3 to the second. */
  method AddFour(lane0: int, lane1: int, p0: int, p1: int, p2: int, p3: int,
                 ghost even: int, ghost odd: int, ghost f: nat -> int, ghost i: nat)
    returns (new0: int, new1: int, ghost newEven: int, ghost newOdd: int)
    requires Lanes(lane0, lane1, even, odd, f, i)
    requires p0 == f(i) && p1 == f(i + 1) && p2 == f(i + 2) && p3 == f(i + 3)
    ensures Lanes(new0, new1, newEven, newOdd, f, i + 4)
  {
    hide Wrap64;
    SumFour(f, i);
    Wrap64Add(even, p0);
    Wrap64Add(odd, p1);
    new0, new1 := Wrap64(lane0 + p0), Wrap64(lane1 + p1);
    Wrap64Add(even + p0, p2);
    Wrap64Add(odd + p1, p3);
    new0, new1 := Wrap64(new0 + p2), Wrap64(new1 + p3);
    newEven, newOdd := even + p0 + p2, odd + p1 + p3;
  }

  /** Adds the lanes together. */
  method Reduce(lane0: int, lane1: int, ghost even: int, ghost odd: int, ghost f: nat -> int, ghost i: nat)
    returns (sum: int)
    requires Lanes(lane0, lane1, even, odd, f, i)
    ensures sum == Wrap64(Sum(f, i))
  {
    Wrap64Add(even, odd);
    hide Wrap64;
    sum := Wrap64(lane0 + lane1);
  }

  /** The AArch64 `vec_dot_neon`: two 64-bit lanes, unrolled by 8, then by 4, then scalar. */
  method VecDotNeon(a: seq<Fixed>, b: seq<Fixed>) returns (r: Fixed)
    requires |a| == |b|
    ensures r == FixedResult(Products(a, b), |a|) && KeptOf(Sum(Products(a, b), |a|), r)
  {
    hide Lanes, Wrap64, Wrap32, Mul, Products;
    var n := |a|;
    ghost var f := Products(a, b);
    var lane0, lane1 := Wrap64(0), Wrap64(0);
    ghost var even, odd := 0, 0;
    NoLanes(f);
    var i := 0;
    while i + 8 <= n
      invariant i <= n && Lanes(lane0, lane1, even, odd, f, i)
    {
      lane0, lane1, even, odd := AddFour(lane0, lane1,
        Mul(a, b, i), Mul(a, b, i + 1), Mul(a, b, i + 2), Mul(a, b, i + 3), even, odd, f, i);
      lane0, lane1, even, odd := AddFour(lane0, lane1,
        Mul(a, b, i + 4), Mul(a, b, i + 5), Mul(a, b, i + 6), Mul(a, b, i + 7), even, odd, f, i + 4);
      i := i + 8;
    }
    while i + 4 <= n
      invariant i <= n && Lanes(lane0, lane1, even, odd, f, i)
    {
      lane0, lane1, even, odd := AddFour(lane0, lane1,
        Mul(a, b, i), Mul(a, b, i + 1), Mul(a, b, i + 2), Mul(a, b, i + 3), even, odd, f, i);
      i := i + 4;
    }
    var sum := Reduce(lane0, lane1, even, odd, f, i);
    while i < n
      invariant i <= n && sum == Wrap64(Sum(f, i))
    {
      Wrap64Add(Sum(f, i), f(i));
      sum := Wrap64(sum + Mul(a, b, i));
      i := i + 1;
    }
    r := Wrap32(Shift16(sum));
  }

  lemma NoLanes(f: nat -> int)
    ensures Lanes(Wrap64(0), Wrap64(0), 0, 0, f, 0)
  {
  }

  /** The widening multiply of one lane. */
  function Mul(a: seq<Fixed>, b: seq<Fixed>, i: nat): (p: int)
    requires i < |a| == |b|
    ensures p == Products(a, b)(i)
  {
    (a[i] as int) * (b[i] as int)
  }

  // ---------------------------------------------------------------- matrix products

  lemma InMatrix(i: nat, rows: nat, width: nat)
    requires i < rows
    ensures i * width + width <= rows * width
  {
    assert (i + 1) * width <= rows * width;
  }

  /** Row `i` of a row-major matrix. */
  function Row(a: seq<Fixed>, rows: nat, width: nat, i: nat): (row: seq<Fixed>)
    requires |a| == rows * width && i < rows
    ensures |row| == width
  {
    InMatrix(i, rows, width);
    a[i * width..i * width + width]
  }

  /** Entry `idx` of column `j`. */
  function At(b: seq<Fixed>, rows: nat, width: nat, idx: nat, j: nat): Fixed
    requires |b| == rows * width && idx < rows && j < width
  {
    InMatrix(idx, rows, width);
    b[idx * width + j]
  }

  /** Column `j` of a row-major matrix. */
  function Column(b: seq<Fixed>, rows: nat, width: nat, j: nat): (col: seq<Fixed>)
    requires |b| == rows * width && j < width
    ensures |col| == rows
  {
    seq(rows, (idx: nat) requires idx < rows => At(b, rows, width, idx, j))
  }

  /** `p` is the running sum of the products of row i of `a` and column j of `b`. */
  ghost predicate CellSums(a: seq<Fixed>, b: seq<Fixed>, k: nat, n: nat, i: nat, j: nat, p: seq<int>) {
    && |p| == k + 1 && p[0] == 0
    && forall idx: nat :: idx < k ==> p[idx + 1] == p[idx] + CellTerm(a, b, k, n, i, j, idx)
  }

  function CellTerm(a: seq<Fixed>, b: seq<Fixed>, k: nat, n: nat, i: nat, j: nat, idx: nat): int {
    if i * k + idx < |a| && idx * n + j < |b| then (a[i * k + idx] as int) * (b[idx * n + j] as int) else 0
  }

  /** `r` is what is kept of the last of them. */
  ghost predicate IsCell(a: seq<Fixed>, b: seq<Fixed>, k: nat, n: nat, i: nat, j: nat, r: Fixed) {
    exists p :: CellSums(a, b, k, n, i, j, p) && KeptOf(p[k], r)
  }

  lemma CellIs(a: seq<Fixed>, b: seq<Fixed>, m: nat, k: nat, n: nat, i: nat, j: nat)
    requires |a| == m * k && |b| == k * n && i < m && j < n
    ensures IsCell(a, b, k, n, i, j, FixedResult(Products(Row(a, m, k, i), Column(b, k, n, j)), k))
  {
    var f := Products(Row(a, m, k, i), Column(b, k, n, j));
    var p := SumRuns(f, k);
    FixedIsKept(p[k]);
    CellSumsAre(a, b, m, k, n, i, j, p);
    hide Products, Row, Column, KeptOf, CellSums;
  }

  lemma CellSumsAre(a: seq<Fixed>, b: seq<Fixed>, m: nat, k: nat, n: nat, i: nat, j: nat, p: seq<int>)
    requires |a| == m * k && |b| == k * n && i < m && j < n
    requires RunningSum(Products(Row(a, m, k, i), Column(b, k, n, j)), k, p)
    ensures CellSums(a, b, k, n, i, j, p)
  {
    hide Products, Row, Column, CellTerm;
    forall idx: nat | idx < k ensures p[idx + 1] == p[idx] + CellTerm(a, b, k, n, i, j, idx) {
      CellTermIs(a, b, m, k, n, i, j, idx);
    }
  }

  lemma RowEntry(a: seq<Fixed>, rows: nat, width: nat, i: nat, idx: nat)
    requires |a| == rows * width && i < rows && idx < width
    ensures i * width + idx < |a| && Row(a, rows, width, i)[idx] == a[i * width + idx]
  {
    InMatrix(i, rows, width);
  }

  lemma ColumnEntry(b: seq<Fixed>, rows: nat, width: nat, idx: nat, j: nat)
    requires |b| == rows * width && idx < rows && j < width
    ensures idx * width + j < |b| && Column(b, rows, width, j)[idx] == b[idx * width + j]
  {
    InMatrix(idx, rows, width);
  }

  lemma CellTermIs(a: seq<Fixed>, b: seq<Fixed>, m: nat, k: nat, n: nat, i: nat, j: nat, idx: nat)
    requires |a| == m * k && |b| == k * n && i < m && j < n && idx < k
    ensures Products(Row(a, m, k, i), Column(b, k, n, j))(idx) == CellTerm(a, b, k, n, i, j, idx)
  {
    RowEntry(a, m, k, i, idx);
    ColumnEntry(b, k, n, idx, j);
    hide Row, Column;
  }

  /** What both matrix products put at row `i`, column `j`. */
  ghost function CellResult(a: seq<Fixed>, b: seq<Fixed>, m: nat, k: nat, n: nat, i: nat, j: nat): (r: Fixed)
    requires |a| == m * k && |b| == k * n && i < m && j < n
    ensures IsCell(a, b, k, n, i, j, r)
  {
    CellIs(a, b, m, k, n, i, j);
    FixedResult(Products(Row(a, m, k, i), Column(b, k, n, j)), k)
  }

  /** One product of the inner loops: row element times gathered column element. */
  function CellMul(a: seq<Fixed>, b: seq<Fixed>, m: nat, k: nat, n: nat, i: nat, j: nat, idx: nat): (p: int)
    requires |a| == m * k && |b| == k * n && i < m && j < n && idx < k
    ensures p == Products(Row(a, m, k, i), Column(b, k, n, j))(idx)
  {
    InMatrix(i, m, k);
    InMatrix(idx, k, n);
    (a[i * k + idx] as int) * (b[idx * n + j] as int)
  }

  method ScalarCell(a: seq<Fixed>, b: seq<Fixed>, m: nat, k: nat, n: nat, i: nat, j: nat) returns (r: Fixed)
    requires |a| == m * k && |b| == k * n && i < m && j < n
    ensures r == CellResult(a, b, m, k, n, i, j)
  {
    hide Wrap64, Wrap32, CellMul, Products, Row, Column;
    ghost var f := Products(Row(a, m, k, i), Column(b, k, n, j));
    var sum := Wrap64(0);
    for idx := 0 to k
      invariant sum == Wrap64(Sum(f, idx))
    {
      Wrap64Add(Sum(f, idx), f(idx));
      sum := Wrap64(sum + CellMul(a, b, m, k, n, i, j, idx));
    }
    r := Wrap32(Shift16(sum));
  }

  /** The body of `matmul_neon` for one cell: columns gathered four at a time into the lanes. */
  method NeonCell(a: seq<Fixed>, b: seq<Fixed>, m: nat, k: nat, n: nat, i: nat, j: nat) returns (r: Fixed)
    requires |a| == m * k && |b| == k * n && i < m && j < n
    ensures r == CellResult(a, b, m, k, n, i, j)
  {
    hide Lanes, Wrap64, Wrap32, CellMul, Products, Row, Column;
    ghost var f := Products(Row(a, m, k, i), Column(b, k, n, j));
    var lane0, lane1 := Wrap64(0), Wrap64(0);
    ghost var even, odd := 0, 0;
    NoLanes(f);
    var idx := 0;
    while idx + 8 <= k
      invariant idx <= k && Lanes(lane0, lane1, even, odd, f, idx)
    {
      lane0, lane1, even, odd := GatherFour(a, b, m, k, n, i, j, idx, lane0, lane1, even, odd);
      lane0, lane1, even, odd := GatherFour(a, b, m, k, n, i, j, idx + 4, lane0, lane1, even, odd);
      idx := idx + 8;
    }
    while idx + 4 <= k
      invariant idx <= k && Lanes(lane0, lane1, even, odd, f, idx)
    {
      lane0, lane1, even, odd := GatherFour(a, b, m, k, n, i, j, idx, lane0, lane1, even, odd);
      idx := idx + 4;
    }
    var sum := Reduce(lane0, lane1, even, odd, f, idx);
    while idx < k
      invariant idx <= k && sum == Wrap64(Sum(f, idx))
    {
      Wrap64Add(Sum(f, idx), f(idx));
      sum := Wrap64(sum + CellMul(a, b, m, k, n, i, j, idx));
      idx := idx + 1;
    }
    r := Wrap32(Shift16(sum));
  }

  method GatherFour(a: seq<Fixed>, b: seq<Fixed>, m: nat, k: nat, n: nat, i: nat, j: nat, idx: nat,
                    lane0: int, lane1: int, ghost even: int, ghost odd: int)
    returns (new0: int, new1: int, ghost newEven: int, ghost newOdd: int)
    requires |a| == m * k && |b| == k * n && i < m && j < n && idx + 4 <= k
    requires Lanes(lane0, lane1, even, odd, Products(Row(a, m, k, i), Column(b, k, n, j)), idx)
    ensures Lanes(new0, new1, newEven, newOdd, Products(Row(a, m, k, i), Column(b, k, n, j)), idx + 4)
  {
    hide Lanes, CellMul, Products, Row, Column;
    new0, new1, newEven, newOdd := AddFour(lane0, lane1,
      CellMul(a, b, m, k, n, i, j, idx), CellMul(a, b, m, k, n, i, j, idx + 1),
      CellMul(a, b, m, k, n, i, j, idx + 2), CellMul(a, b, m, k, n, i, j, idx + 3),
      even, odd, Products(Row(a, m, k, i), Column(b, k, n, j)), idx);
  }

  /** Cell (i, j) of an m x n matrix has a place of its own in row-major order. */
  lemma CellPlace(i: nat, j: nat, m: nat, n: nat, i': nat, j': nat)
    requires i < m && j < n && i' < m && j' < n
    ensures i * n + j < m * n
    ensures i * n + j == i' * n + j' ==> i == i' && j == j'
  {
    InMatrix(i, m, n);
    if i < i' { assert (i + 1) * n <= i' * n; }
    if i' < i { assert (i' + 1) * n <= i * n; }
  }

  /** Where a cell is stored. */
  function Place(i: nat, j: nat, n: nat): nat { i * n + j }

  lemma PlaceFits(i: nat, j: nat, m: nat, n: nat)
    requires i < m && j < n
    ensures Place(i, j, n) < m * n
    ensures forall i': nat, j': nat :: i' < m && j' < n && Place(i', j', n) == Place(i, j, n) ==> i' == i && j' == j
  {
    forall i': nat, j': nat | i' < m && j' < n && Place(i', j', n) == Place(i, j, n) ensures i' == i && j' == j {
      CellPlace(i, j, m, n, i', j');
    }
    CellPlace(i, j, m, n, i, j);
  }

  /** Every cell before (i, j) in row order holds its result. */
  ghost predicate FilledUpTo(out: seq<Fixed>, a: seq<Fixed>, b: seq<Fixed>, m: nat, k: nat, n: nat, i: nat, j: nat)
    requires |a| == m * k && |b| == k * n && |out| == m * n
  {
    forall r: nat, c: nat :: r < m && c < n && (r < i || (r == i && c < j)) ==>
      Place(r, c, n) < |out| && out[Place(r, c, n)] == CellResult(a, b, m, k, n, r, c)
  }

  lemma FillOne(before: seq<Fixed>, after: seq<Fixed>, a: seq<Fixed>, b: seq<Fixed>, m: nat, k: nat, n: nat, i: nat,
      j: nat)
    requires |a| == m * k && |b| == k * n && |before| == m * n && i < m && j < n
    requires Place(i, j, n) < |before| && FilledUpTo(before, a, b, m, k, n, i, j)
    requires after == before[Place(i, j, n) := CellResult(a, b, m, k, n, i, j)]
    ensures FilledUpTo(after, a, b, m, k, n, i, j + 1)
  {
    hide Place, CellResult;
    PlaceFits(i, j, m, n);
  }

  /** The scalar `matmul_neon`. */
  method MatmulScalar(a: seq<Fixed>, b: seq<Fixed>, out: array<Fixed>, m: nat, k: nat, n: nat)
    requires |a| == m * k && |b| == k * n && out.Length == m * n
    modifies out
    ensures forall i: nat, j: nat :: i < m && j < n ==>
              && Place(i, j, n) < out.Length && out[Place(i, j, n)] == CellResult(a, b, m, k, n, i, j)
              && IsCell(a, b, k, n, i, j, out[Place(i, j, n)])
  {
    hide CellResult;
    for i := 0 to m
      invariant FilledUpTo(out[..], a, b, m, k, n, i, 0)
    {
      for j := 0 to n
        invariant FilledUpTo(out[..], a, b, m, k, n, i, j)
      {
        PlaceFits(i, j, m, n);
        var r := ScalarCell(a, b, m, k, n, i, j);
        ghost var before := out[..];
        out[i * n + j] := r;
        FillOne(before, out[..], a, b, m, k, n, i, j);
      }
    }
  }

  /** The AArch64 `matmul_neon` leaves the same matrix as the scalar one. */
  method MatmulNeon(a: seq<Fixed>, b: seq<Fixed>, out: array<Fixed>, m: nat, k: nat, n: nat)
    requires |a| == m * k && |b| == k * n && out.Length == m * n
    modifies out
    ensures forall i: nat, j: nat :: i < m && j < n ==>
              && Place(i, j, n) < out.Length && out[Place(i, j, n)] == CellResult(a, b, m, k, n, i, j)
              && IsCell(a, b, k, n, i, j, out[Place(i, j, n)])
  {
    hide CellResult;
    for i := 0 to m
      invariant FilledUpTo(out[..], a, b, m, k, n, i, 0)
    {
      for j := 0 to n
        invariant FilledUpTo(out[..], a, b, m, k, n, i, j)
      {
        PlaceFits(i, j, m, n);
        var r := NeonCell(a, b, m, k, n, i, j);
        ghost var before := out[..];
        out[i * n + j] := r;
        FillOne(before, out[..], a, b, m, k, n, i, j);
      }
    }
  }
}
