/** The vector tile routines: sixteen 8-bit lanes of B are multiplied by one entry of A with a
    16-bit product and added to sixteen 32-bit accumulators; a scalar tail does the rest.
    Registers are sequences of unsigned lane patterns. */
module SimdTile {
  import opened Bits
  import opened Basics
  import opened Int8Kernel

  datatype Isa = AVX2 | NEON | SSE2

  // ---------------------------------------------------------------- lane patterns

  /** The two's complement pattern of v in a lane of modulus m. */
  function Pattern(v: int, m: nat): nat
    requires m > 0
  {
    v % m
  }

  const W8 := 0x100
  const W16 := 0x1_0000
  const W32 := 0x1_0000_0000

  /** Sign extension of an 8-bit lane to 16 bits (cvtepi8_epi16, the 8-bit half of vmull_s8). */
  function Extend8(x: int): int { if x < 0x80 then x else x + 0xFF00 }

  /** Sign extension of a 16-bit lane to 32 bits (cvtepi16_epi32, vmovl_s16). */
  function Extend16(x: int): int { if x < 0x8000 then x else x + 0xFFFF_0000 }

  /** SSE2 widening: the byte below a byte that is all ones when the byte is negative. */
  function Unpack8(x: int): int { x + 0x100 * (if x >= 0x80 then 0xFF else 0) }

  /** SSE2 widening: the word below its arithmetic shift right by 15. */
  function Unpack16(x: int): int { x + 0x1_0000 * (if x >= 0x8000 then 0xFFFF else 0) }

  /** The low 16 bits of the product of two 16-bit lanes. */
  function MulLow16(x: int, y: int): int { (x * y) % W16 }

  function Add32(x: int, y: int): int { (x + y) % W32 }

  lemma ExtendKeepsValue(v: int8)
    ensures Extend8(Pattern(v, W8)) == Pattern(v, W16) == Unpack8(Pattern(v, W8))
  {}

  lemma ExtendKeepsWord(v: int)
    requires -0x8000 <= v < 0x8000
    ensures Extend16(Pattern(v, W16)) == Pattern(v, W32) == Unpack16(Pattern(v, W16))
  {}

  lemma ModuloShift(p: int, k: int, m: nat)
    requires m > 0
    ensures (p + k * m) % m == p % m
  {
    var q, r := p / m, p % m;
    assert p + k * m == (q + k) * m + r;
    QuotientIs(p + k * m, q + k, r, m);
  }

  /** The low product of the patterns is the pattern of the product. */
  lemma LowProduct(a: int8, b: int8)
    ensures MulLow16(Pattern(a, W16), Pattern(b, W16)) == Pattern(a * b, W16)
  {
    var ka, kb := if a < 0 then 1 else 0, if b < 0 then 1 else 0;
    assert Pattern(a, W16) == a + ka * W16 && Pattern(b, W16) == b + kb * W16;
    assert (a + ka * W16) * (b + kb * W16) == a * b + (ka * b + kb * a + ka * kb * W16) * W16;
    ModuloShift(a * b, ka * b + kb * a + ka * kb * W16, W16);
  }

  lemma AddPatterns(x: int, y: int)
    ensures Add32(Pattern(x, W32), Pattern(y, W32)) == Pattern(x + y, W32)
  {}

  // ---------------------------------------------------------------- one vector step

  /** Widen eight 16-bit lanes and multiply them by one word, keeping the low halves. */
  function LowProducts(a: int8, wide: seq<int>): (r: seq<int>)
    ensures |r| == |wide|
  {
    seq(|wide|, l requires 0 <= l < |wide| => MulLow16(Pattern(a, W16), wide[l]))
  }

  function Map(f: int -> int, s: seq<int>): (r: seq<int>)
    ensures |r| == |s| && forall l | 0 <= l < |s| :: r[l] == f(s[l])
  {
    seq(|s|, l requires 0 <= l < |s| => f(s[l]))
  }

  /** The bytes of sixteen int8 values as loaded into a register. */
  function Loaded(b: seq<int8>): (r: seq<int>)
    ensures |r| == |b| && forall l | 0 <= l < |b| :: r[l] == Pattern(b[l], W8)
  {
    seq(|b|, l requires 0 <= l < |b| => Pattern(b[l], W8))
  }

  /** The 32-bit products of one entry of A with sixteen entries of B, in lane order. */
  function ChunkProducts(isa: Isa, a: int8, b: seq<int8>): (r: seq<int>)
    requires |b| == 16
    ensures |r| == 16
  {
    var bytes := Loaded(b);
    match isa
    case AVX2 =>
      var prod := LowProducts(a, Map(Extend8, bytes));
      Map(Extend16, prod[..8]) + Map(Extend16, prod[8..])
    case NEON =>
      var prod0, prod1 := LongProducts(a, b[..8]), LongProducts(a, b[8..]);
      Map(Extend16, prod0[..4]) + Map(Extend16, prod0[4..]) + Map(Extend16, prod1[..4]) + Map(Extend16, prod1[4..])
    case SSE2 =>
      var lo, hi := LowProducts(a, Map(Unpack8, bytes[..8])), LowProducts(a, Map(Unpack8, bytes[8..]));
      Map(Unpack16, lo[..4]) + Map(Unpack16, lo[4..]) + Map(Unpack16, hi[..4]) + Map(Unpack16, hi[4..])
  }

  /** vmull_s8: the exact 16-bit products of eight lanes. */
  function LongProducts(a: int8, b: seq<int8>): (r: seq<int>)
    ensures |r| == |b|
  {
    seq(|b|, l requires 0 <= l < |b| => Pattern((b[l] as int) * (a as int), W16))
  }

  /** On every instruction set, lane l holds the 32-bit pattern of the exact product: every
      product of two int8 values fits 16 bits, so the low half loses nothing. */
  lemma LaneProducts(isa: Isa, a: int8, b: seq<int8>, l: nat)
    requires |b| == 16 && l < 16
    ensures ChunkProducts(isa, a, b)[l] == Pattern((a as int) * (b[l] as int), W32)
  {
    hide Pattern, Extend8, Extend16, Unpack8, Unpack16, MulLow16;
    ExtendKeepsValue(b[l]);
    LowProduct(a, b[l]);
    ProductBound(a, b[l]);
    ExtendKeepsWord((a as int) * (b[l] as int));
    assert (b[l] as int) * (a as int) == (a as int) * (b[l] as int);
  }

  /** The int32 value of a pattern. */
  function Signed32(x: int): int { if x < 0x8000_0000 then x else x - W32 }

  /** The accumulators after one vector step. */
  function ChunkStep(isa: Isa, a: int8, b: seq<int8>, acc: seq<int>): (r: seq<int>)
    requires |b| == 16 && |acc| == 16
    ensures |r| == 16
  {
    var products := ChunkProducts(isa, a, b);
    seq(16, l requires 0 <= l < 16 => Signed32(Add32(Pattern(acc[l], W32), products[l])))
  }

  /** A vector step adds the sixteen products that the scalar loop would add. */
  lemma ChunkIsScalar(isa: Isa, a: int8, b: seq<int8>, acc: seq<int>, l: nat)
    requires |b| == 16 && |acc| == 16 && l < 16
    requires Int32(acc[l] + (a as int) * (b[l] as int))
    ensures ChunkStep(isa, a, b, acc)[l] == acc[l] + (a as int) * (b[l] as int)
  {
    hide Pattern, ChunkProducts, Add32, Signed32;
    LaneProducts(isa, a, b, l);
    AddPatterns(acc[l], (a as int) * (b[l] as int));
    SignedOfPattern(acc[l] + (a as int) * (b[l] as int));
  }

  lemma SignedOfPattern(v: int)
    requires Int32(v)
    ensures Signed32(Pattern(v, W32)) == v
  {}

  // ---------------------------------------------------------------- a whole tile

  /** The dot product a tile routine forms for its column j: B is read from offset `at` with
      the tile width as its row stride. */
  function StridedDot(A: seq<int8>, row: nat, B: seq<int8>, at: nat, width: nat, j: nat, t: nat): int {
    if t == 0 then 0
    else StridedDot(A, row, B, at, width, j, t - 1) + At(A, row + t - 1) * At(B, at + (t - 1) * width + j)
  }

  lemma {:induction false} StridedDotBound(A: seq<int8>, row: nat, B: seq<int8>, at: nat, width: nat, j: nat, t: nat)
    ensures -16384 * t <= StridedDot(A, row, B, at, width, j, t) <= 16384 * t
    decreases t
  {
    if t > 0 {
      StridedDotBound(A, row, B, at, width, j, t - 1);
      ProductBound(At(A, row + t - 1), At(B, at + (t - 1) * width + j));
    }
  }

  /** No partial sum of the tile leaves 32 bits. */
  ghost predicate StridedSumsFit(A: seq<int8>, row: nat, B: seq<int8>, at: nat, width: nat, k: nat) {
    forall j, t | 0 <= j < width && 0 <= t <= k :: Int32(StridedDot(A, row, B, at, width, j, t))
  }

  /** Always so up to K = 131071. */
  lemma ShortStridedSumsFit(A: seq<int8>, row: nat, B: seq<int8>, at: nat, width: nat, k: nat)
    requires k <= MAX_K
    ensures StridedSumsFit(A, row, B, at, width, k)
  {
    forall j, t | 0 <= j < width && 0 <= t <= k ensures Int32(StridedDot(A, row, B, at, width, j, t)) {
      StridedDotBound(A, row, B, at, width, j, t);
    }
  }

  /** The accumulation of a vector tile routine: sixteen columns at a time, then the tail.  The
      result is the scalar one on every instruction set, no read leaves A or B, and every
      accumulator stays in 32 bits. */
  method TileAccumulate(isa: Isa, A: seq<int8>, row: nat, B: seq<int8>, at: nat, width: nat, k: nat, acc: array<int32>)
    requires row + k <= |A| && (k > 0 ==> at + (k - 1) * width + width <= |B|)
    requires width <= acc.Length && StridedSumsFit(A, row, B, at, width, k)
    modifies acc
    ensures forall j | 0 <= j < width :: acc[j] == StridedDot(A, row, B, at, width, j, k)
  {
    for j := 0 to acc.Length
      invariant forall x | 0 <= x < j :: acc[x] == 0
    {
      acc[j] := 0;
    }
    for t := 0 to k
      invariant forall x | 0 <= x < width :: acc[x] == StridedDot(A, row, B, at, width, x, t)
    {
      AddRow(isa, A, row, B, at, width, k, t, acc);
    }
  }

  lemma StridedNext(A: seq<int8>, row: nat, B: seq<int8>, at: nat, width: nat, k: nat, t: nat, j: nat)
    requires row + k <= |A| && at + (k - 1) * width + width <= |B| && StridedSumsFit(A, row, B, at, width, k) && t < k
    requires j < width
    ensures row + t < |A| && 0 <= at + t * width + j < |B|
    ensures StridedDot(A, row, B, at, width, j, t + 1)
         == StridedDot(A, row, B, at, width, j, t) + (A[row + t] as int) * (B[at + t * width + j] as int)
    ensures Int32(StridedDot(A, row, B, at, width, j, t + 1))
  {
    MulLe(t, k - 1, width);
  }

  /** Columns below `done` hold the sums of t + 1 products, the others of t. */
  ghost predicate RowAdded(A: seq<int8>, row: nat, B: seq<int8>, at: nat, width: nat, t: nat, acc: seq<int32>,
                           done: nat) {
    && width <= |acc|
    && (forall x | 0 <= x < done && x < width :: acc[x] == StridedDot(A, row, B, at, width, x, t + 1))
    && (forall x | done <= x < width :: acc[x] == StridedDot(A, row, B, at, width, x, t))
  }

  method AddRow(isa: Isa, A: seq<int8>, row: nat, B: seq<int8>, at: nat, width: nat, k: nat, t: nat, acc: array<int32>)
    requires row + k <= |A| && at + (k - 1) * width + width <= |B| && StridedSumsFit(A, row, B, at, width, k) && t < k
    requires RowAdded(A, row, B, at, width, t, acc[..], 0)
    modifies acc
    ensures RowAdded(A, row, B, at, width, t, acc[..], width)
  {
    hide StridedDot;
    var j := 0;
    while j + 15 < width
      invariant 0 <= j <= width
      invariant RowAdded(A, row, B, at, width, t, acc[..], j)
    {
      AddChunk(isa, A, row, B, at, width, k, t, acc, j);
      j := j + 16;
    }
    while j < width
      invariant 0 <= j <= width
      invariant RowAdded(A, row, B, at, width, t, acc[..], j)
    {
      StridedNext(A, row, B, at, width, k, t, j);
      acc[j] := acc[j] + (A[row + t] as int) * (B[at + t * width + j] as int);
      j := j + 1;
    }
  }

  method AddChunk(isa: Isa, A: seq<int8>, row: nat, B: seq<int8>, at: nat, width: nat, k: nat, t: nat,
                  acc: array<int32>, j: nat)
    requires row + k <= |A| && at + (k - 1) * width + width <= |B| && StridedSumsFit(A, row, B, at, width, k) && t < k
    requires j + 15 < width
    requires RowAdded(A, row, B, at, width, t, acc[..], j)
    modifies acc
    ensures RowAdded(A, row, B, at, width, t, acc[..], j + 16)
  {
    hide StridedDot, StridedSumsFit, ChunkStep;
    MulLe(t, k - 1, width);
    var b := B[at + t * width + j..at + t * width + j + 16];
    var sums := ChunkStep(isa, A[row + t], b, acc[j..j + 16]);
    forall l | 0 <= l < 16
      ensures |sums| == 16 && Int32(sums[l])
      ensures sums[l] == StridedDot(A, row, B, at, width, j + l, t + 1)
    {
      StridedNext(A, row, B, at, width, k, t, j + l);
      assert b[l] == B[at + t * width + (j + l)];
      assert acc[j..j + 16][l] == acc[j + l];
      ChunkIsScalar(isa, A[row + t], b, acc[j..j + 16], l);
    }
    forall l | 0 <= l < 16 {
      acc[j + l] := sums[l];
    }
    assert forall x | j <= x < j + 16 :: acc[x] == sums[x - j];
  }

  // ---------------------------------------------------------------- whole matrices

  /** INT8_TILE of the vector builds. */
  const SIMD_TILE := 128

  /** The first column of the tile that column j belongs to. */
  function TileStart(j: nat, tileSize: nat): (jj: nat)
    requires tileSize > 0
    ensures jj <= j < jj + tileSize
  {
    assert (j / tileSize) * tileSize + j % tileSize == j;
    (j / tileSize) * tileSize
  }

  /** What the vector build stores at (i, j): the tile routine is handed the tile width where
      the row stride of B belongs. */
  function SimdEntry(c: Problem, i: nat, j: nat): int8
    requires j < c.N
  {
    var tileSize := Min(SIMD_TILE, c.N);
    var jj := TileStart(j, tileSize);
    Clamp(StridedDot(c.A, i * c.K, c.B, jj, Min(tileSize, c.N - jj), j - jj, c.K))
  }

  /** No partial sum of row i in the tile that starts at column jj leaves 32 bits. */
  ghost predicate TileSumsFit(c: Problem, i: nat, jj: nat)
    requires jj < c.N
  {
    StridedSumsFit(c.A, i * c.K, c.B, jj, Min(Min(SIMD_TILE, c.N), c.N - jj), c.K)
  }

  ghost predicate RowSumsFit(c: Problem, i: nat) {
    forall jj | 0 <= jj < c.N && jj % Min(SIMD_TILE, c.N) == 0 :: TileSumsFit(c, i, jj)
  }

  lemma ShortRowSumsFit(c: Problem, i: nat)
    requires c.K <= MAX_K
    ensures RowSumsFit(c, i)
  {
    hide StridedSumsFit;
    forall jj | 0 <= jj < c.N ensures TileSumsFit(c, i, jj) {
      ShortStridedSumsFit(c.A, i * c.K, c.B, jj, Min(Min(SIMD_TILE, c.N), c.N - jj), c.K);
    }
  }

  /** The vector worker on one row: same tiles as the scalar one, but each goes through the tile
      routine.  Every read is in range; what it stores is `SimdEntry`. */
  method SimdRow(isa: Isa, c: Problem, C: array<int8>, acc: array<int32>, i: nat)
    requires c.WellShaped() && RowSumsFit(c, i) && C.Length == c.M * c.N && i < c.M
    requires acc.Length == Min(SIMD_TILE, c.N)
    modifies C, acc
    ensures RowIsSimd(c, C[..], i, c.N)
    ensures SameOutside(C[..], old(C[..]), i * c.N, i * c.N + c.N)
  {
    hide RowIsSimd, SameOutside, RowSumsFit, Problem.WellShaped;
    RowStart(c, C[..], i);
    var jj := 0;
    ghost var m := 0;
    while jj < c.N
      invariant 0 <= jj && jj == m * acc.Length
      invariant SameOutside(C[..], old(C[..]), i * c.N, i * c.N + c.N)
      invariant RowIsSimd(c, C[..], i, Min(jj, c.N))
    {
      ghost var before := C[..];
      OneTile(isa, c, C, acc, i, jj, m);
      SameOutsideTrans(C[..], before, old(C[..]), i * c.N, i * c.N + c.N);
      NextTile(m, acc.Length);
      jj := jj + acc.Length;
      m := m + 1;
    }
  }

  lemma NextTile(m: nat, width: nat)
    ensures (m + 1) * width == m * width + width
  {}

  /** The tile that starts at column jj: accumulate, then store. */
  method OneTile(isa: Isa, c: Problem, C: array<int8>, acc: array<int32>, i: nat, jj: nat, ghost m: nat)
    requires c.WellShaped() && RowSumsFit(c, i) && C.Length == c.M * c.N && i < c.M && jj < c.N
    requires acc.Length == Min(SIMD_TILE, c.N) && jj == m * acc.Length
    requires RowIsSimd(c, C[..], i, jj)
    modifies C, acc
    ensures RowIsSimd(c, C[..], i, Min(jj + acc.Length, c.N))
    ensures SameOutside(C[..], old(C[..]), i * c.N, i * c.N + c.N)
  {
    hide RowIsSimd, SameOutside, StridedDot, StridedSumsFit, Problem.WellShaped;
    DivOfSum(m, acc.Length, 0);
    assert TileSumsFit(c, i, jj);
    var tile := Min(acc.Length, c.N - jj);
    TileInside(c, i, jj, tile);
    TileAccumulate(isa, c.A, i * c.K, c.B, jj, tile, c.K, acc);
    SimdStore(c, C, acc, i, jj, m, tile);
  }

  /** The first n entries of row i are what the vector build computes. */
  ghost predicate RowIsSimd(c: Problem, C: seq<int8>, i: nat, n: nat) {
    && |C| == c.M * c.N
    && forall j | 0 <= j < n && j < c.N :: 0 <= i * c.N + j < |C| && C[i * c.N + j] == SimdEntry(c, i, j)
  }

  lemma RowStart(c: Problem, C: seq<int8>, i: nat)
    requires |C| == c.M * c.N
    ensures RowIsSimd(c, C, i, 0) && SameOutside(C, C, i * c.N, i * c.N + c.N)
  {}

  lemma SameOutsideTrans(C: seq<int8>, D: seq<int8>, E: seq<int8>, lo: int, hi: int)
    requires SameOutside(C, D, lo, hi) && SameOutside(D, E, lo, hi)
    ensures SameOutside(C, E, lo, hi)
  {}

  /** All that a tile routine reads lies inside A and B. */
  lemma TileInside(c: Problem, i: nat, jj: nat, tile: nat)
    requires c.WellShaped() && i < c.M && 0 < tile && jj + tile <= c.N
    ensures i * c.K + c.K <= |c.A|
    ensures c.K > 0 ==> jj + (c.K - 1) * tile + tile <= |c.B|
  {
    NextMultiple(i, c.M, c.K);
    if c.K > 0 {
      MulLe(tile, c.N, c.K - 1);
      assert c.K * c.N == (c.K - 1) * c.N + c.N;
    }
  }

  method SimdStore(c: Problem, C: array<int8>, acc: array<int32>, i: nat, jj: nat, ghost m: nat, tile: nat)
    requires C.Length == c.M * c.N && i < c.M && jj < c.N
    requires acc.Length == Min(SIMD_TILE, c.N) && jj == m * acc.Length && tile == Min(acc.Length, c.N - jj)
    requires forall j | 0 <= j < tile :: acc[j] == StridedDot(c.A, i * c.K, c.B, jj, tile, j, c.K)
    requires RowIsSimd(c, C[..], i, jj)
    modifies C
    ensures RowIsSimd(c, C[..], i, jj + tile)
    ensures SameOutside(C[..], old(C[..]), i * c.N, i * c.N + c.N)
  {
    hide StridedDot, Clamp, SimdEntry, RowIsSimd, SameOutside;
    RowStart(c, C[..], i);
    var j := 0;
    while j < tile
      invariant 0 <= j <= tile
      invariant SameOutside(C[..], old(C[..]), i * c.N, i * c.N + c.N)
      invariant RowIsSimd(c, C[..], i, jj + j)
    {
      SimdEntryInTile(c, i, jj, m, j);
      Position(i, c.M, c.N, jj + j);
      ghost var before := C[..];
      C[i * c.N + jj + j] := Clamp(acc[j]);
      assert C[..] == before[i * c.N + (jj + j) := SimdEntry(c, i, jj + j)];
      OneMore(c, before, old(C[..]), i, jj + j);
      j := j + 1;
    }
  }

  lemma OneMore(c: Problem, C: seq<int8>, D: seq<int8>, i: nat, j: nat)
    requires RowIsSimd(c, C, i, j) && i < c.M && j < c.N && 0 <= i * c.N + j < |C|
    requires SameOutside(C, D, i * c.N, i * c.N + c.N)
    ensures RowIsSimd(c, C[i * c.N + j := SimdEntry(c, i, j)], i, j + 1)
    ensures SameOutside(C[i * c.N + j := SimdEntry(c, i, j)], D, i * c.N, i * c.N + c.N)
  {
    hide SimdEntry;
    NextMultiple(i, c.M, c.N);
  }

  lemma SimdEntryInTile(c: Problem, i: nat, jj: nat, m: nat, j: nat)
    requires var ts := Min(SIMD_TILE, c.N); ts > 0 && jj == m * ts && jj < c.N && j < Min(ts, c.N - jj)
    ensures var tile := Min(Min(SIMD_TILE, c.N), c.N - jj);
            SimdEntry(c, i, jj + j) == Clamp(StridedDot(c.A, i * c.K, c.B, jj, tile, j, c.K))
  {
    hide StridedDot, Clamp;
    DivOfSum(m, Min(SIMD_TILE, c.N), j);
  }

  /** Neither build's sums leave 32 bits, so that both are defined. */
  ghost predicate BothDefined(c: Problem) {
    SumsFit(c) && forall i | 0 <= i < c.M :: RowSumsFit(c, i)
  }

  lemma ShortBothDefined(c: Problem)
    requires c.K <= MAX_K
    ensures BothDefined(c)
  {
    hide SumsFit, RowSumsFit;
    ShortSumsFit(c);
    forall i | 0 <= i < c.M ensures RowSumsFit(c, i) {
      ShortRowSumsFit(c, i);
    }
  }

  ghost predicate SimdMatchesScalar(M: nat, N: nat, K: nat) {
    forall c: Problem | c.M == M && c.N == N && c.K == K && |c.A| == M * K && |c.B| == K * N && BothDefined(c) ::
      forall i, j | 0 <= i < M && 0 <= j < N :: SimdEntry(c, i, j) == Entry(c, i, j)
  }

  lemma {:induction false} SameStride(c: Problem, i: nat, at: nat, j: nat, t: nat)
    requires t <= 1 || (at == 0 && j < c.N)
    ensures StridedDot(c.A, i * c.K, c.B, at, if at == 0 then c.N else 0, j, t) == Dot(c, i, at + j, t)
    decreases t
  {
    if t > 0 {
      SameStride(c, i, at, j, t - 1);
      assert (t - 1) * c.N + (at + j) == at + (t - 1) * c.N + j;
    }
  }

  lemma StrideIrrelevant(A: seq<int8>, row: nat, B: seq<int8>, at: nat, w: nat, w': nat, j: nat, t: nat)
    requires t <= 1
    ensures StridedDot(A, row, B, at, w, j, t) == StridedDot(A, row, B, at, w', j, t)
  {
    if t == 1 {
      assert 0 * w == 0 * w';
      assert StridedDot(A, row, B, at, w, j, 0) == StridedDot(A, row, B, at, w', j, 0);
    }
  }

  lemma MatchesWhenNarrow(c: Problem, i: nat, j: nat)
    requires j < c.N && (c.N <= SIMD_TILE || c.K <= 1)
    ensures SimdEntry(c, i, j) == Entry(c, i, j)
  {
    hide Clamp, Dot, StridedDot;
    var tileSize := Min(SIMD_TILE, c.N);
    var jj := TileStart(j, tileSize);
    if c.N <= SIMD_TILE {
      DivOfSum(0, tileSize, j);
      assert 0 * tileSize == 0 && jj == 0;
      SameStride(c, i, 0, j, c.K);
    } else {
      SameStride(c, i, jj, j - jj, c.K);
      StrideIrrelevant(c.A, i * c.K, c.B, jj, Min(tileSize, c.N - jj), if jj == 0 then c.N else 0, j - jj, c.K);
    }
  }

  /** The inputs on which a wide vector build goes wrong: one product that the scalar code reads
      at B[N] and the tile routine looks for at B[128]. */
  function Telltale(M: nat, N: nat, K: nat): Problem
    requires K >= 2 && N > SIMD_TILE && M > 0
  {
    Problem(seq(M * K, q => if q == 1 then 1 else 0), seq(K * N, q => if q == N then 1 else 0), M, N, K)
  }

  lemma {:induction false} TelltaleDots(M: nat, N: nat, K: nat, t: nat)
    requires K >= 2 && N > SIMD_TILE && M > 0 && t <= K
    ensures var c := Telltale(M, N, K);
            && |c.A| == M * K >= 2 && |c.B| == K * N > N
            && Dot(c, 0, 0, t) == (if t >= 2 then 1 else 0)
            && StridedDot(c.A, 0, c.B, 0, SIMD_TILE, 0, t) == 0
    decreases t
  {
    var c := Telltale(M, N, K);
    MulLe(1, M, K);
    assert 1 * K == K;
    MulLe(2, K, N);
    assert 2 * N == N + N;
    if t > 0 {
      TelltaleDots(M, N, K, t - 1);
      if t >= 3 {
        MulLe(2, t - 1, N);
      }
    }
  }

  /** Its only non-zero product keeps every sum at 0 or 1. */
  lemma {:induction false} TelltaleSums(M: nat, N: nat, K: nat, i: nat, j: nat, t: nat)
    requires K >= 2 && N > SIMD_TILE && M > 0
    ensures 0 <= Dot(Telltale(M, N, K), i, j, t) <= TelltaleBound(K, i, t)
    decreases t
  {
    hide Telltale;
    var c := Telltale(M, N, K);
    TelltaleShape(M, N, K);
    BoundSteps(K, i, t);
    if t > 0 {
      TelltaleSums(M, N, K, i, j, t - 1);
      TelltaleFactors(M, N, K, i * K + t - 1, (t - 1) * N + j);
    }
  }

  lemma {:induction false} TelltaleStridedSums(M: nat, N: nat, K: nat, i: nat, j: nat, at: nat, width: nat, t: nat)
    requires K >= 2 && N > SIMD_TILE && M > 0
    ensures var c := Telltale(M, N, K);
            0 <= StridedDot(c.A, i * K, c.B, at, width, j, t) <= TelltaleBound(K, i, t)
    decreases t
  {
    hide Telltale;
    BoundSteps(K, i, t);
    if t > 0 {
      TelltaleStridedSums(M, N, K, i, j, at, width, t - 1);
      TelltaleFactors(M, N, K, i * K + t - 1, at + (t - 1) * width + j);
    }
  }

  function TelltaleBound(K: nat, i: nat, t: nat): nat {
    if i * K + t >= 2 && i == 0 then 1 else 0
  }

  /** The bound rises exactly where position 1 of A is passed. */
  lemma BoundSteps(K: nat, i: nat, t: nat)
    requires K >= 2
    ensures t > 0 ==> TelltaleBound(K, i, t) == TelltaleBound(K, i, t - 1) + if i * K + t - 1 == 1 then 1 else 0
  {
    if i > 0 {
      MulLe(1, i, K);
    }
  }

  lemma TelltaleFactors(M: nat, N: nat, K: nat, p: nat, q: nat)
    requires K >= 2 && N > SIMD_TILE && M > 0
    ensures var c := Telltale(M, N, K);
            0 <= At(c.A, p) * At(c.B, q) <= if p == 1 then 1 else 0
  {
    var a, b := At(Telltale(M, N, K).A, p), At(Telltale(M, N, K).B, q);
    assert 0 <= b <= 1 && (a == 0 || (a == 1 && p == 1));
  }

  lemma TelltaleDefined(M: nat, N: nat, K: nat)
    requires K >= 2 && N > SIMD_TILE && M > 0
    ensures BothDefined(Telltale(M, N, K))
  {
    hide Dot, StridedDot, Telltale;
    var c := Telltale(M, N, K);
    TelltaleShape(M, N, K);
    forall i, j, t | 0 <= i < c.M && 0 <= j < c.N && 0 <= t <= c.K ensures Int32(Dot(c, i, j, t)) {
      TelltaleSums(M, N, K, i, j, t);
    }
    forall i | 0 <= i < c.M ensures RowSumsFit(c, i) {
      TelltaleRow(M, N, K, i);
    }
  }

  lemma TelltaleRow(M: nat, N: nat, K: nat, i: nat)
    requires K >= 2 && N > SIMD_TILE && M > 0
    ensures RowSumsFit(Telltale(M, N, K), i)
  {
    hide StridedDot, Telltale;
    var c := Telltale(M, N, K);
    TelltaleShape(M, N, K);
    forall jj | 0 <= jj < c.N ensures TileSumsFit(c, i, jj) {
      var width := Min(Min(SIMD_TILE, c.N), c.N - jj);
      forall j, t | 0 <= j < width && 0 <= t <= c.K ensures Int32(StridedDot(c.A, i * c.K, c.B, jj, width, j, t)) {
        TelltaleStridedSums(M, N, K, i, j, jj, width, t);
      }
    }
  }

  /** The vector build equals the scalar one on all inputs of a shape exactly when the matrix is
      no wider than a tile, or there is at most one product per entry, or there are no rows.
      (All inputs on which both are defined: up to K = 131071 every input, `ShortBothDefined`.) */
  lemma SimdRefinesExactly(M: nat, N: nat, K: nat)
    ensures SimdMatchesScalar(M, N, K) <==> N <= 128 || K <= 1 || M == 0
  {
    hide SimdEntry, Entry, BothDefined, Telltale;
    if N <= SIMD_TILE || K <= 1 || M == 0 {
      forall c: Problem, i, j | c.M == M && c.N == N && c.K == K && 0 <= i < M && 0 <= j < N
        ensures SimdEntry(c, i, j) == Entry(c, i, j)
      {
        MatchesWhenNarrow(c, i, j);
      }
    } else {
      TelltaleDiffers(M, N, K);
      TelltaleShape(M, N, K);
    }
  }

  lemma TelltaleDiffers(M: nat, N: nat, K: nat)
    requires K >= 2 && N > SIMD_TILE && M > 0
    ensures var c := Telltale(M, N, K);
            && |c.A| == M * K && |c.B| == K * N && BothDefined(c)
            && SimdEntry(c, 0, 0) == 0 && Entry(c, 0, 0) == 1
  {
    hide Telltale, Dot, StridedDot, BothDefined;
    TelltaleDefined(M, N, K);
    TelltaleDots(M, N, K, K);
    var c := Telltale(M, N, K);
    TelltaleShape(M, N, K);
    assert 0 * c.K == 0;
  }

  lemma TelltaleShape(M: nat, N: nat, K: nat)
    requires K >= 2 && N > SIMD_TILE && M > 0
    ensures var c := Telltale(M, N, K); c.M == M && c.N == N && c.K == K
  {}
}
