/** The threaded product: how rows are dealt to workers, and what happens when the workers run
    concurrently.  A worker is a small machine whose every step touches at most one entry of C;
    the scheduler may interleave the steps of all workers in any order. */
module MatmulThreads {
  import opened Bits
  import opened Basics
  import opened Int8Kernel

  const INT8_TILE := 64

  // ---------------------------------------------------------------- dealing out the rows

  /** `hardware` is hardware_concurrency(), `setting` the integer read from the environment. */
  function TuneThreadCount(rows: nat, hardware: nat, setting: Option<int>): nat {
    var val := match setting case None => 0 case Some(x) => x % 0x1_0000_0000;
    var workers := if val > 0 then val else hardware;
    Min(if workers == 0 then 1 else workers, rows)
  }

  /** Never more workers than rows; the environment decides if it names a positive number (of 32
      bits), else the hardware, and one worker if neither does. */
  lemma ThreadCount(rows: nat, hardware: nat, setting: Option<int>)
    ensures TuneThreadCount(rows, hardware, setting) <= rows
    ensures setting.Some? && 0 < setting.value < 0x1_0000_0000 && setting.value <= rows ==>
              TuneThreadCount(rows, hardware, setting) == setting.value
    ensures (setting.None? || setting.value == 0) && 0 < hardware <= rows ==>
              TuneThreadCount(rows, hardware, setting) == hardware
    ensures (setting.None? || setting.value == 0) && hardware == 0 && rows > 0 ==>
              TuneThreadCount(rows, hardware, setting) == 1
  {}

  datatype Range = Range(begin: nat, end: nat)

  /** The ranges are non-empty, follow each other, and together are exactly the rows 0 to m. */
  ghost predicate Partition(rs: seq<Range>, m: nat) {
    && |rs| > 0 && rs[0].begin == 0 && rs[|rs| - 1].end == m
    && (forall k | 0 <= k < |rs| :: rs[k].begin < rs[k].end)
    && (forall k | 0 < k < |rs| :: rs[k].begin == rs[k - 1].end)
  }

  method RowRanges(m: nat, workers: nat) returns (rs: seq<Range>)
    requires 0 < workers && 0 < m
    ensures Partition(rs, m) && |rs| <= workers
  {
    var rowsPerWorker := (m + workers - 1) / workers;
    CeilCovers(m, workers);
    rs := [];
    var start, w := 0, 0;
    while w < workers && start < m
      invariant 0 <= w <= workers && |rs| == w && start == Min(w * rowsPerWorker, m)
      invariant forall k | 0 <= k < w :: rs[k].begin < rs[k].end
      invariant forall k | 0 < k < w :: rs[k].begin == rs[k - 1].end
      invariant w > 0 ==> rs[0].begin == 0 && rs[w - 1].end == start
    {
      var end := Min(start + rowsPerWorker, m);
      assert (w + 1) * rowsPerWorker == w * rowsPerWorker + rowsPerWorker;
      rs := rs + [Range(start, end)];
      start := end;
      w := w + 1;
    }
  }

  lemma CeilCovers(m: nat, w: nat)
    requires w > 0
    ensures w * ((m + w - 1) / w) >= m && (m > 0 ==> (m + w - 1) / w > 0)
  {
    var q, r := (m + w - 1) / w, (m + w - 1) % w;
    assert w * q + r == m + w - 1 && r < w;
    assert q == 0 ==> w * q == 0;
  }

  lemma {:induction false} RangesInOrder(rs: seq<Range>, m: nat, k: nat, l: nat)
    requires Partition(rs, m) && k <= l < |rs|
    ensures rs[k].begin <= rs[l].begin && rs[k].end <= rs[l].end <= m
    ensures k < l ==> rs[k].end <= rs[l].begin
    decreases |rs| - l, l - k
  {
    if k < l {
      RangesInOrder(rs, m, k + 1, l);
    } else if l + 1 < |rs| {
      RangesInOrder(rs, m, l, l + 1);
    }
  }

  /** Every row belongs to exactly one worker. */
  lemma RowHasOneOwner(rs: seq<Range>, m: nat, row: nat) returns (k: nat)
    requires Partition(rs, m) && row < m
    ensures k < |rs| && rs[k].begin <= row < rs[k].end
    ensures forall l | 0 <= l < |rs| && rs[l].begin <= row < rs[l].end :: l == k
  {
    k := 0;
    while row >= rs[k].end
      invariant k < |rs| && rs[k].begin <= row
      decreases |rs| - k
    {
      assert rs[|rs| - 1].end == m;
      k := k + 1;
    }
    forall l | 0 <= l < |rs| && rs[l].begin <= row < rs[l].end ensures l == k {
      if l < k {
        RangesInOrder(rs, m, l, k);
      } else if k < l {
        RangesInOrder(rs, m, k, l);
      }
    }
  }

  // ---------------------------------------------------------------- one worker as a machine

  /** Where a worker is inside a tile: zeroing accumulator j, adding product (t, j), storing j. */
  datatype Phase = Fill(j: nat) | Mac(t: nat, j: nat) | Put(j: nat)

  datatype Local = Local(rows: Range, i: nat, jj: nat, phase: Phase, acc: seq<int>)

  function Fresh(rows: Range, tileSize: nat): Local {
    Local(rows, rows.begin, 0, Fill(0), seq(tileSize, _ => 0))
  }

  predicate Finished(w: Local) { w.i >= w.rows.end }

  function Width(c: Problem, w: Local): nat
    requires w.jj <= c.N
  {
    Min(|w.acc|, c.N - w.jj)
  }

  /** The private part of the next step. */
  function Advance(c: Problem, w: Local): Local
    requires !Finished(w) && (w.jj < c.N ==> |w.acc| > 0)
  {
    if w.jj >= c.N then w.(i := w.i + 1, jj := 0, phase := Fill(0))
    else
      var tile := Width(c, w);
      match w.phase
      case Fill(j) =>
        if j >= tile then w.(phase := Mac(0, 0)) else w.(acc := w.acc[j := 0], phase := Fill(j + 1))
      case Mac(t, j) =>
        if t >= c.K then w.(phase := Put(0))
        else if j >= tile then w.(phase := Mac(t + 1, 0))
        else w.(acc := w.acc[j := w.acc[j] + At(c.A, w.i * c.K + t) * At(c.B, t * c.N + w.jj + j)],
                phase := Mac(t, j + 1))
      case Put(j) =>
        if j >= tile then w.(jj := w.jj + |w.acc|, phase := Fill(0)) else w.(phase := Put(j + 1))
  }

  /** The entry of C that the next step writes, if any. */
  predicate Writes(c: Problem, w: Local) {
    !Finished(w) && w.jj < c.N && w.phase.Put? && w.phase.j < Width(c, w)
  }

  function Target(c: Problem, w: Local): int
    requires Writes(c, w)
  {
    w.i * c.N + w.jj + w.phase.j
  }

  /** The first entry of C, in row-major order, that the worker has not yet stored. */
  function Cursor(c: Problem, w: Local): int {
    w.i * c.N + Min(w.jj, c.N) + if w.jj < c.N && w.phase.Put? then Min(w.phase.j, Width(c, w)) else 0
  }

  /** What holds of a worker between any two steps: accumulators are the partial dot products of
      its place, within 32 bits. */
  ghost predicate InPlace(c: Problem, w: Local) {
    && w.rows.begin <= w.i <= w.rows.end <= c.M
    && (w.i == w.rows.end ==> w.jj == 0 && w.phase == Fill(0))
    && (c.N > 0 ==> |w.acc| > 0)
    && (forall x | 0 <= x < |w.acc| :: Int32(w.acc[x]))
    && (w.i < w.rows.end && w.jj < c.N ==>
          var tile := Width(c, w);
          match w.phase
          case Fill(j) => j <= tile && forall x | 0 <= x < j :: w.acc[x] == 0
          case Mac(t, j) =>
            && t <= c.K && j <= tile && (t == c.K ==> j == 0)
            && (forall x | 0 <= x < j :: w.acc[x] == Dot(c, w.i, w.jj + x, t + 1))
            && (forall x | j <= x < tile :: w.acc[x] == Dot(c, w.i, w.jj + x, t))
          case Put(j) => j <= tile && forall x | 0 <= x < tile :: w.acc[x] == Dot(c, w.i, w.jj + x, c.K))
  }

  lemma FreshInPlace(c: Problem, rows: Range, tileSize: nat)
    requires rows.begin < rows.end <= c.M && (c.N > 0 ==> tileSize > 0)
    ensures InPlace(c, Fresh(rows, tileSize)) && Cursor(c, Fresh(rows, tileSize)) == rows.begin * c.N
  {}

  lemma AdvanceInPlace(c: Problem, w: Local)
    requires c.WellShaped() && SumsFit(c) && InPlace(c, w) && !Finished(w)
    ensures InPlace(c, Advance(c, w))
  {
    hide Dot;
    if w.jj < c.N {
      match w.phase
      case Fill(_) => FillInPlace(c, w);
      case Mac(_, _) => MacInPlace(c, w);
      case Put(_) =>
    }
  }

  lemma FillInPlace(c: Problem, w: Local)
    requires InPlace(c, w) && !Finished(w) && w.jj < c.N && w.phase.Fill?
    ensures InPlace(c, Advance(c, w))
  {
    hide Dot;
    if w.phase.j >= Width(c, w) {
      forall x | 0 <= x < Width(c, w) ensures w.acc[x] == Dot(c, w.i, w.jj + x, 0) {
        DotNone(c, w.i, w.jj + x);
      }
    }
  }

  lemma MacInPlace(c: Problem, w: Local)
    requires c.WellShaped() && SumsFit(c) && InPlace(c, w) && !Finished(w) && w.jj < c.N && w.phase.Mac?
    ensures InPlace(c, Advance(c, w))
  {
    hide Dot;
    var t, j := w.phase.t, w.phase.j;
    if t < c.K && j < Width(c, w) {
      DotNext(c, w.i, w.jj, j, t);
    }
  }

  lemma DotNone(c: Problem, i: nat, j: nat)
    ensures Dot(c, i, j, 0) == 0
  {}

  /** A step moves the cursor past exactly the entry it writes, and writes it right. */
  lemma AdvanceCursor(c: Problem, w: Local)
    requires InPlace(c, w) && !Finished(w)
    ensures Cursor(c, Advance(c, w)) == Cursor(c, w) + if Writes(c, w) then 1 else 0
    ensures Writes(c, w) ==> Target(c, w) == Cursor(c, w)
    ensures Writes(c, w) ==> Clamp(w.acc[w.phase.j]) == EntryAt(c, Target(c, w))
    ensures w.rows.begin * c.N <= Cursor(c, w) <= w.rows.end * c.N
    ensures Writes(c, w) ==> Cursor(c, w) < w.rows.end * c.N
  {
    hide Dot, Clamp;
    MulLe(w.rows.begin, w.i, c.N);
    NextMultiple(w.i, w.rows.end, c.N);
    assert (w.i + 1) * c.N == w.i * c.N + c.N;
    if Writes(c, w) {
      EntryAtPosition(c, w.i, w.jj + w.phase.j);
    }
  }

  // ---------------------------------------------------------------- all workers together

  /** Workers own the ranges of a partition, are in place, and their finished parts of C are
      the plain product. */
  ghost predicate Joint(c: Problem, rs: seq<Range>, ws: seq<Local>, C: seq<int8>)
    requires c.N > 0
  {
    && |ws| == |rs| && |C| == c.M * c.N
    && forall k | 0 <= k < |ws| ::
         ws[k].rows == rs[k] && InPlace(c, ws[k]) && Filled(c, C, rs[k].begin * c.N, Cursor(c, ws[k]))
  }

  function Stored(c: Problem, w: Local, C: seq<int8>): seq<int8>
  {
    if Writes(c, w) && 0 <= Target(c, w) < |C| then C[Target(c, w) := Clamp(w.acc[w.phase.j])] else C
  }

  lemma CursorInRange(c: Problem, w: Local)
    requires InPlace(c, w)
    ensures w.rows.begin * c.N <= Cursor(c, w) <= w.rows.end * c.N
  {
    MulLe(w.rows.begin, w.i, c.N);
    if w.i < w.rows.end {
      NextMultiple(w.i, w.rows.end, c.N);
    }
  }

  /** Whichever worker the scheduler picks, one step keeps the joint invariant: workers write
      disjoint parts of C. */
  lemma StepKeepsJoint(c: Problem, rs: seq<Range>, ws: seq<Local>, C: seq<int8>, k: nat)
    requires c.N > 0 && c.WellShaped() && SumsFit(c)
    requires Partition(rs, c.M) && Joint(c, rs, ws, C) && k < |ws| && !Finished(ws[k])
    ensures Joint(c, rs, ws[k := Advance(c, ws[k])], Stored(c, ws[k], C))
  {
    hide InPlace, Advance, EntryAt, Cursor, Writes, Target, Clamp, Finished;
    var w := ws[k];
    StepReady(c, w);
    var next, D := Advance(c, w), Stored(c, w, C);
    AdvanceInPlace(c, w);
    AdvanceCursor(c, w);
    SameRows(c, w);
    forall l | 0 <= l < |ws| && l != k
      ensures Filled(c, D, rs[l].begin * c.N, Cursor(c, ws[l]))
    {
      CursorInRange(c, ws[l]);
      if l < k {
        RangesInOrder(rs, c.M, l, k);
        MulLe(rs[l].end, rs[k].begin, c.N);
      } else {
        RangesInOrder(rs, c.M, k, l);
        MulLe(rs[k].end, rs[l].begin, c.N);
      }
    }
    forall q | rs[k].begin * c.N <= q < Cursor(c, next) && q < |D| ensures D[q] == EntryAt(c, q) {
      if q < Cursor(c, w) {
        assert C[q] == EntryAt(c, q);
      }
    }
  }

  lemma SameRows(c: Problem, w: Local)
    requires !Finished(w) && (w.jj < c.N ==> |w.acc| > 0)
    ensures Advance(c, w).rows == w.rows && |Advance(c, w).acc| == |w.acc|
  {}

  lemma AllDone(c: Problem, rs: seq<Range>, ws: seq<Local>, C: seq<int8>)
    requires c.N > 0 && Partition(rs, c.M) && Joint(c, rs, ws, C)
    requires forall k | 0 <= k < |ws| :: Finished(ws[k])
    ensures Filled(c, C, 0, c.M * c.N)
  {
    hide EntryAt, Joint, Partition, Finished;
    forall q | 0 <= q < c.M * c.N && q < |C| ensures C[q] == EntryAt(c, q) {
      DoneEntry(c, rs, ws, C, q);
    }
  }

  lemma DoneEntry(c: Problem, rs: seq<Range>, ws: seq<Local>, C: seq<int8>, q: nat)
    requires c.N > 0 && Partition(rs, c.M) && Joint(c, rs, ws, C)
    requires forall k | 0 <= k < |ws| :: Finished(ws[k])
    requires q < c.M * c.N && q < |C|
    ensures C[q] == EntryAt(c, q)
  {
    hide EntryAt, InPlace, Cursor, Finished, Partition;
    RowOfPosition(q, c.M, c.N);
    var row := q / c.N;
    var k := RowHasOneOwner(rs, c.M, row);
    FinishedCursor(c, ws[k]);
    MulLe(rs[k].begin, row, c.N);
    NextMultiple(row, rs[k].end, c.N);
    assert Filled(c, C, rs[k].begin * c.N, rs[k].end * c.N);
  }

  lemma RowOfPosition(q: nat, m: nat, n: nat)
    requires n > 0 && q < m * n
    ensures q / n < m && (q / n) * n <= q < (q / n) * n + n
  {
    var row := q / n;
    assert row * n + q % n == q;
    if row >= m {
      MulLe(m, row, n);
    }
  }

  lemma FinishedCursor(c: Problem, w: Local)
    requires InPlace(c, w) && Finished(w)
    ensures Cursor(c, w) == w.rows.end * c.N
  {}

  // ---------------------------------------------------------------- every schedule finishes

  /** Steps a worker still has to take, whatever the other workers do. */
  function StepsLeft(c: Problem, w: Local): nat
    decreases if w.i < w.rows.end then w.rows.end - w.i else 0, if w.jj < c.N then c.N - w.jj else 0,
              (match w.phase case Fill(_) => 2 case Mac(_, _) => 1 case Put(_) => 0),
              (if w.phase.Mac? && w.phase.t < c.K then c.K - w.phase.t else 0),
              if w.phase.j < |w.acc| then |w.acc| - w.phase.j else 0
  {
    if Finished(w) || (w.jj < c.N && |w.acc| == 0) then 0 else 1 + StepsLeft(c, Advance(c, w))
  }

  lemma StepsLeftDrops(c: Problem, w: Local)
    requires !Finished(w) && (w.jj < c.N ==> |w.acc| > 0)
    ensures StepsLeft(c, Advance(c, w)) + 1 == StepsLeft(c, w)
  {
    hide Advance;
  }

  function TotalLeft(c: Problem, ws: seq<Local>): nat {
    if ws == [] then 0 else TotalLeft(c, ws[..|ws| - 1]) + StepsLeft(c, ws[|ws| - 1])
  }

  lemma {:induction false} TotalDrops(c: Problem, ws: seq<Local>, k: nat)
    requires k < |ws| && !Finished(ws[k]) && (ws[k].jj < c.N ==> |ws[k].acc| > 0)
    ensures TotalLeft(c, ws[k := Advance(c, ws[k])]) + 1 == TotalLeft(c, ws)
    decreases |ws|
  {
    hide Advance, StepsLeft;
    StepsLeftDrops(c, ws[k]);
    var n := |ws| - 1;
    var vs := ws[k := Advance(c, ws[k])];
    if k < n {
      assert vs[..n] == ws[..n][k := Advance(c, ws[..n][k])];
      TotalDrops(c, ws[..n], k);
    } else {
      assert vs[..n] == ws[..n];
    }
  }

  /** Run all workers to completion under an arbitrary scheduler: at every step any unfinished
      worker may be the one that moves. */
  method RunThreads(c: Problem, C: array<int8>, tileSize: nat, rs: seq<Range>)
    requires c.WellShaped() && SumsFit(c) && C.Length == c.M * c.N
    requires c.N > 0 && tileSize > 0 && Partition(rs, c.M)
    modifies C
    ensures Filled(c, C[..], 0, c.M * c.N)
  {
    hide InPlace, Advance, EntryAt, Cursor, Dot, Clamp;
    var ws := seq(|rs|, k requires 0 <= k < |rs| => Fresh(rs[k], tileSize));
    forall k | 0 <= k < |rs|
      ensures InPlace(c, ws[k]) && Cursor(c, ws[k]) == rs[k].begin * c.N
    {
      RangesInOrder(rs, c.M, k, k);
      FreshInPlace(c, rs[k], tileSize);
    }
    while exists k | 0 <= k < |ws| :: !Finished(ws[k])
      invariant Joint(c, rs, ws, C[..])
      decreases TotalLeft(c, ws)
    {
      var k :| 0 <= k < |ws| && !Finished(ws[k]);
      var w := ws[k];
      StepReady(c, w);
      StepKeepsJoint(c, rs, ws, C[..], k);
      TotalDrops(c, ws, k);
      if Writes(c, w) {
        TargetInside(c, rs, w, k);
        ghost var before := C[..];
        C[Target(c, w)] := Clamp(w.acc[w.phase.j]);
        assert C[..] == Stored(c, w, before);
      }
      ws := ws[k := Advance(c, w)];
    }
    AllDone(c, rs, ws, C[..]);
  }

  lemma StepReady(c: Problem, w: Local)
    requires InPlace(c, w)
    ensures c.N > 0 ==> |w.acc| > 0
  {}

  lemma TargetInside(c: Problem, rs: seq<Range>, w: Local, k: nat)
    requires Partition(rs, c.M) && k < |rs| && w.rows == rs[k] && InPlace(c, w) && Writes(c, w)
    ensures 0 <= Target(c, w) < c.M * c.N
  {
    AdvanceCursor(c, w);
    RangesInOrder(rs, c.M, k, k);
    MulLe(rs[k].end, c.M, c.N);
  }

  // ---------------------------------------------------------------- the product

  /** C holds the plain clamped product, row by row. */
  ghost predicate IsProduct(c: Problem, C: seq<int8>) {
    && |C| == c.M * c.N
    && forall i, j | 0 <= i < c.M && 0 <= j < c.N :: Cell(c, C, i, j)
  }

  ghost predicate Cell(c: Problem, C: seq<int8>, i: nat, j: nat) {
    0 <= i * c.N + j < |C| && C[i * c.N + j] == Entry(c, i, j)
  }

  /** int8_matmul on the scalar path: for every worker count and every interleaving the result
      is the plain clamped product, whenever no partial sum leaves 32 bits (always, up to K = 131071). */
  method Int8Matmul(c: Problem, hardware: nat, setting: Option<int>) returns (C: array<int8>)
    requires c.WellShaped() && SumsFit(c)
    ensures fresh(C) && IsProduct(c, C[..])
  {
    hide IsProduct, Filled, SameOutside, Partition, EntryAt;
    var tileSize := Min(INT8_TILE, c.N);
    C := new int8[c.M * c.N](_ => 0);
    var workers := TuneThreadCount(c.M, hardware, setting);
    if workers <= 1 || c.M * c.N < 1024 {
      assert 0 * c.N == 0;
      Worker(c, C, tileSize, 0, c.M);
    } else {
      Zero(c.M, c.N);
      var rs := RowRanges(c.M, workers);
      RunThreads(c, C, tileSize, rs);
    }
    FilledIsProduct(c, C[..]);
  }

  lemma Zero(m: nat, n: nat)
    ensures m * n > 0 ==> m > 0 && n > 0
  {}

  lemma FilledIsProduct(c: Problem, C: seq<int8>)
    requires |C| == c.M * c.N && (c.N > 0 ==> Filled(c, C, 0, c.M * c.N))
    ensures IsProduct(c, C)
  {
    hide Cell, Filled;
    forall i, j | 0 <= i < c.M && 0 <= j < c.N ensures Cell(c, C, i, j) {
      FilledEntry(c, C, i, j);
    }
  }

  lemma FilledEntry(c: Problem, C: seq<int8>, i: nat, j: nat)
    requires i < c.M && j < c.N && |C| == c.M * c.N && Filled(c, C, 0, c.M * c.N)
    ensures Cell(c, C, i, j)
  {
    hide Dot, Clamp, EntryAt;
    Position(i, c.M, c.N, j);
    EntryAtPosition(c, i, j);
    assert C[i * c.N + j] == EntryAt(c, i * c.N + j);
  }
}
