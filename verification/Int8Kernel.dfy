/** The INT8 matrix product: what it must compute, and the scalar worker that computes it tile
    by tile with 32-bit accumulators. */
module Int8Kernel {
  import opened Bits
  import opened Basics

  /** The nearest value that fits in 8 bits. */
  function Clamp(v: int): int8 {
    if v < -128 then -128 else if v > 127 then 127 else v
  }

  /** No 8-bit number is nearer to v than its clamp. */
  lemma ClampIsNearest(v: int, w: int8)
    ensures -128 <= v <= 127 ==> Clamp(v) == v
    ensures v > 127 ==> 0 < v - Clamp(v) <= v - w
    ensures v < -128 ==> 0 < Clamp(v) - v <= w - v
  {}

  /** C = A (M×K) times B (K×N), both stored row by row.  Where C has no entries nothing is read. */
  datatype Problem = Problem(A: seq<int8>, B: seq<int8>, M: nat, N: nat, K: nat) {
    predicate WellShaped() {
      M > 0 && N > 0 ==> |A| >= M * K && |B| >= K * N
    }
  }

  /** Reading outside the vector is given an arbitrary meaning here; the methods below prove
      that they never do it. */
  function At(s: seq<int8>, i: int): int8 {
    if 0 <= i < |s| then s[i] else 0
  }

  /** The sum of the first t products of row i of A and column j of B. */
  function Dot(c: Problem, i: nat, j: nat, t: nat): int {
    if t == 0 then 0 else Dot(c, i, j, t - 1) + At(c.A, i * c.K + t - 1) * At(c.B, (t - 1) * c.N + j)
  }

  /** The plain definition of the product: a clamped dot product. */
  function Entry(c: Problem, i: nat, j: nat): int8 {
    Clamp(Dot(c, i, j, c.K))
  }

  /** The entry stored at position q of the row-major result. */
  function EntryAt(c: Problem, q: nat): int8
    requires c.N > 0
  {
    Entry(c, q / c.N, q % c.N)
  }

  // ---------------------------------------------------------------- index arithmetic

  /** Position of (i, j) in a row-major matrix with n columns, and back. */
  lemma Position(i: nat, m: nat, n: nat, j: nat)
    requires i < m && j < n
    ensures 0 <= i * n + j < m * n
    ensures (i * n + j) / n == i && (i * n + j) % n == j
  {
    NextMultiple(i, m, n);
    DivOfSum(i, n, j);
  }

  lemma DivOfSum(i: nat, n: nat, j: nat)
    requires j < n
    ensures (i * n + j) / n == i && (i * n + j) % n == j
  {
    QuotientIs(i * n + j, i, j, n);
  }

  // ---------------------------------------------------------------- 32-bit accumulators

  lemma ProductBound(a: int8, b: int8)
    ensures -16384 <= a * b <= 16384
  {
    if a >= 0 {
      ProductMonotone(a, -128, b);
      ProductMonotone(a, b, 127);
    } else {
      var m: nat := -(a as int);
      ProductMonotone(m, -128, b);
      ProductMonotone(m, b, 127);
      assert m * b == -(a * b);
    }
  }

  lemma ProductMonotone(a: nat, b: int, c: int)
    requires b <= c
    ensures a * b <= a * c
  {
    assert a * (c - b) >= 0;
    assert a * (c - b) == a * c - a * b;
  }

  lemma {:induction false} DotBound(c: Problem, i: nat, j: nat, t: nat)
    ensures -16384 * t <= Dot(c, i, j, t) <= 16384 * t
    decreases t
  {
    if t > 0 {
      DotBound(c, i, j, t - 1);
      ProductBound(At(c.A, i * c.K + t - 1), At(c.B, (t - 1) * c.N + j));
    }
  }

  /** The largest K for which no partial sum of int8 products can leave 32 bits. */
  const MAX_K := 131071

  ghost predicate NeverOverflows(k: nat) {
    forall c: Problem, i: nat, j: nat, t: nat | c.K == k && t <= k :: Int32(Dot(c, i, j, t))
  }

  lemma {:induction false} ConstantDot(c: Problem, t: nat)
    requires c.N == 1 && |c.A| == |c.B| == c.K && t <= c.K
    requires forall u | 0 <= u < c.K :: c.A[u] == -128 && c.B[u] == -128
    ensures Dot(c, 0, 0, t) == 16384 * t
    decreases t
  {
    if t > 0 {
      ConstantDot(c, t - 1);
    }
  }

  /** 32-bit accumulation is exact for all int8 inputs exactly when K is at most 131071. */
  lemma OverflowExactly(k: nat)
    ensures NeverOverflows(k) <==> k <= MAX_K
  {
    if k <= MAX_K {
      forall c: Problem, i: nat, j: nat, t: nat | c.K == k && t <= k ensures Int32(Dot(c, i, j, t)) {
        DotBound(c, i, j, t);
      }
    } else {
      var c := Problem(seq(k, _ => -128), seq(k, _ => -128), 1, 1, k);
      ConstantDot(c, 131072);
      assert !Int32(Dot(c, 0, 0, 131072));
    }
  }

  /** No partial sum of this product leaves 32 bits, so that the source's accumulation is
      defined. */
  ghost predicate SumsFit(c: Problem) {
    forall i, j, t | 0 <= i < c.M && 0 <= j < c.N && 0 <= t <= c.K :: Int32(Dot(c, i, j, t))
  }

  lemma ShortSumsFit(c: Problem)
    requires c.K <= MAX_K
    ensures SumsFit(c)
  {
    forall i, j, t | 0 <= i < c.M && 0 <= j < c.N && 0 <= t <= c.K ensures Int32(Dot(c, i, j, t)) {
      DotBound(c, i, j, t);
    }
  }

  // ---------------------------------------------------------------- the worker

  /** Entries lo up to hi of the result are in place. */
  ghost predicate Filled(c: Problem, C: seq<int8>, lo: int, hi: int)
    requires c.N > 0
  {
    forall q | 0 <= lo <= q < hi && q < |C| :: C[q] == EntryAt(c, q)
  }

  /** C differs from D in entries lo up to hi only. */
  ghost predicate SameOutside(C: seq<int8>, D: seq<int8>, lo: int, hi: int) {
    |C| == |D| && forall q | 0 <= q < |C| && !(lo <= q < hi) :: C[q] == D[q]
  }

  /** One worker: rows rowBegin up to rowEnd of C, tile by tile.  Every index is in range, every
      accumulator stays in 32 bits, the rows hold the clamped dot products, and no other entry
      of C is touched. */
  method Worker(c: Problem, C: array<int8>, tileSize: nat, rowBegin: nat, rowEnd: nat)
    requires c.WellShaped() && SumsFit(c) && C.Length == c.M * c.N
    requires rowBegin <= rowEnd <= c.M && (c.N > 0 ==> tileSize > 0)
    modifies C
    ensures c.N > 0 ==> Filled(c, C[..], rowBegin * c.N, rowEnd * c.N)
    ensures SameOutside(C[..], old(C[..]), rowBegin * c.N, rowEnd * c.N)
  {
    hide EntryAt;
    var acc := new int32[tileSize];
    var i := rowBegin;
    while i < rowEnd
      invariant rowBegin <= i <= rowEnd
      invariant c.N > 0 ==> Filled(c, C[..], rowBegin * c.N, i * c.N)
      invariant SameOutside(C[..], old(C[..]), rowBegin * c.N, i * c.N)
    {
      MulLe(rowBegin, i, c.N);
      Row(c, C, acc, i);
      assert (i + 1) * c.N == i * c.N + c.N;
      i := i + 1;
    }
  }

  method Row(c: Problem, C: array<int8>, acc: array<int32>, i: nat)
    requires c.WellShaped() && SumsFit(c) && C.Length == c.M * c.N
    requires i < c.M && (c.N > 0 ==> acc.Length > 0)
    modifies C, acc
    ensures c.N > 0 ==> Filled(c, C[..], i * c.N, i * c.N + c.N)
    ensures SameOutside(C[..], old(C[..]), i * c.N, i * c.N + c.N)
  {
    hide EntryAt;
    var jj := 0;
    while jj < c.N
      invariant c.N > 0 ==> Filled(c, C[..], i * c.N, i * c.N + Min(jj, c.N))
      invariant SameOutside(C[..], old(C[..]), i * c.N, i * c.N + Min(jj, c.N))
    {
      var tile := Min(acc.Length, c.N - jj);
      Accumulate(c, acc, i, jj, tile);
      Store(c, C, acc, i, jj, tile);
      jj := jj + acc.Length;
    }
  }

  /** Write the clamped accumulators of a tile into C. */
  method Store(c: Problem, C: array<int8>, acc: array<int32>, i: nat, jj: nat, tile: nat)
    requires C.Length == c.M * c.N && i < c.M && 0 < tile <= acc.Length && jj + tile <= c.N
    requires forall j | 0 <= j < tile :: acc[j] == Dot(c, i, jj + j, c.K)
    modifies C
    ensures Filled(c, C[..], i * c.N + jj, i * c.N + jj + tile)
    ensures SameOutside(C[..], old(C[..]), i * c.N + jj, i * c.N + jj + tile)
  {
    hide Dot, Clamp;
    NextMultiple(i, c.M, c.N);
    var j := 0;
    while j < tile
      invariant 0 <= j <= tile
      invariant Filled(c, C[..], i * c.N + jj, i * c.N + jj + j)
      invariant SameOutside(C[..], old(C[..]), i * c.N + jj, i * c.N + jj + j)
    {
      EntryAtPosition(c, i, jj + j);
      C[i * c.N + jj + j] := Clamp(acc[j]);
      j := j + 1;
    }
  }

  lemma EntryAtPosition(c: Problem, i: nat, j: nat)
    requires j < c.N
    ensures EntryAt(c, i * c.N + j) == Clamp(Dot(c, i, j, c.K))
  {
    DivOfSum(i, c.N, j);
  }

  /** The two inner loops of a tile: zero the accumulators, then add one row of B per step. */
  method Accumulate(c: Problem, acc: array<int32>, i: nat, jj: nat, tile: nat)
    requires c.WellShaped() && SumsFit(c) && i < c.M && jj + tile <= c.N && tile <= acc.Length
    modifies acc
    ensures forall j | 0 <= j < tile :: acc[j] == Dot(c, i, jj + j, c.K)
  {
    for j := 0 to tile
      invariant forall x | 0 <= x < j :: acc[x] == 0
    {
      acc[j] := 0;
    }
    for t := 0 to c.K
      invariant forall x | 0 <= x < tile :: acc[x] == Dot(c, i, jj + x, t)
    {
      AddProducts(c, acc, i, jj, tile, t);
    }
  }

  method AddProducts(c: Problem, acc: array<int32>, i: nat, jj: nat, tile: nat, t: nat)
    requires c.WellShaped() && SumsFit(c) && i < c.M && jj + tile <= c.N && tile <= acc.Length && t < c.K
    requires forall x | 0 <= x < tile :: acc[x] == Dot(c, i, jj + x, t)
    modifies acc
    ensures forall x | 0 <= x < tile :: acc[x] == Dot(c, i, jj + x, t + 1)
  {
    hide Dot;
    for j := 0 to tile
      invariant forall x | 0 <= x < j :: acc[x] == Dot(c, i, jj + x, t + 1)
      invariant forall x | j <= x < tile :: acc[x] == Dot(c, i, jj + x, t)
    {
      DotNext(c, i, jj, j, t);
      acc[j] := acc[j] + (c.A[i * c.K + t] as int) * (c.B[t * c.N + jj + j] as int);
    }
  }

  /** The next product is read inside both vectors and keeps the sum in 32 bits. */
  lemma DotNext(c: Problem, i: nat, jj: nat, j: nat, t: nat)
    requires c.WellShaped() && SumsFit(c) && i < c.M && jj + j < c.N && t < c.K
    ensures 0 <= i * c.K + t < |c.A| && 0 <= t * c.N + jj + j < |c.B|
    ensures Dot(c, i, jj + j, t + 1)
         == Dot(c, i, jj + j, t) + (c.A[i * c.K + t] as int) * (c.B[t * c.N + jj + j] as int)
    ensures Int32(Dot(c, i, jj + j, t + 1))
  {
    Position(i, c.M, c.K, t);
    Position(t, c.K, c.N, jj + j);
    assert t * c.N + jj + j == t * c.N + (jj + j);
  }
}
