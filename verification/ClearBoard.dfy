/** The closed form of a fight on an empty board: both creatures walk 13 steps and then trade
    blows, and counting the blows each needs tells who wins and when. */
module ClearBoard {
  import opened Creatures
  import opened Grid
  import opened FightRecord

  predicate IsClear(bd: Board) { forall i | 0 <= i < 64 :: bd[i] == EMPTY }

  /** The blows of strength p that bring health h to 0 or below: the ceiling of h / p. */
  function Blows(h: int, p: int): nat
    requires p > 0
    decreases if h > 0 then h else 0
  {
    if h <= 0 then 0 else 1 + Blows(h - p, p)
  }

  /** `Blows(h, p)` is the least k with k * p >= h. */
  lemma {:induction false} BlowsIsCeiling(h: int, p: int)
    requires p > 0 && h > 0
    ensures (Blows(h, p) - 1) * p < h <= Blows(h, p) * p
    decreases h
  {
    if h > p {
      BlowsIsCeiling(h - p, p);
    } else {
      assert Blows(h - p, p) == 0;
    }
  }

  /** On a clear board the walk takes no health and changes nothing but places and turn. */
  lemma {:induction false} ClearWalk(bd: Board, g: Setup, seed: bv32, n: nat)
    requires IsClear(bd) && n <= 13
    ensures var st := Initial(bd, g, seed);
            var now := After(bd, g, st, n);
            && Gap(now) == 14 - n
            && ScoreOf(now) == g.start && now.a.block == 0 && now.b.block == 0
            && now.aTurn == (if n % 2 == 0 then st.aTurn else !st.aTurn)
    decreases n
  {
    hide Gap, EffectiveSeed, Turn, Initial;
    WalkWithoutWalls(bd, g, seed, n);
    if n == 0 {
      ClearStart(bd, g, seed);
    } else {
      ClearWalk(bd, g, seed, n - 1);
      var before := After(bd, g, Initial(bd, g, seed), n - 1);
      ClearTurn(bd, g, before);
    }
  }

  lemma ClearStart(bd: Board, g: Setup, seed: bv32)
    requires IsClear(bd)
    ensures ScoreOf(Initial(bd, g, seed)) == g.start
    ensures Initial(bd, g, seed).a.block == 0 && Initial(bd, g, seed).b.block == 0
  {
    hide EffectiveSeed;
  }

  lemma ClearTurn(bd: Board, g: Setup, st: State)
    requires IsClear(bd) && Gap(st) > 1
    ensures var now := Turn(bd, g, st);
            && ScoreOf(now) == ScoreOf(st) && now.a.block == st.a.block && now.b.block == st.b.block
            && now.aTurn == !st.aTurn
  {}

  /** Turns of a trade of blows when the first striker needs `first` and the other `second`. */
  function BrawlTurns(first: nat, second: nat): int {
    if first <= second then 2 * first - 1 else 2 * second
  }

  /** Two adjacent creatures with enough stamina: the one who needs no more blows than the
      other wins if it strikes first, and one who needs fewer wins anyway. */
  lemma {:induction false} Brawl(bd: Board, g: Setup, st: State) returns (n: nat)
    requires Geometry(st) && Gap(st) <= 1 && st.a.block == 0 && st.b.block == 0
    requires g.powA > 0 && g.powB > 0 && st.a.hp > 0 && st.b.hp > 0
    requires Blows(st.b.hp, g.powA) <= st.a.sta && Blows(st.a.hp, g.powB) <= st.b.sta
    ensures EndsAt(bd, g, st, n)
    ensures var nA, nB := Blows(st.b.hp, g.powA), Blows(st.a.hp, g.powB);
            var last := After(bd, g, st, n);
            && (last.a.hp >= last.b.hp <==> if st.aTurn then nA <= nB else nA < nB)
            && n == (if st.aTurn then BrawlTurns(nA, nB) else BrawlTurns(nB, nA))
    decreases Blows(st.b.hp, g.powA) + Blows(st.a.hp, g.powB)
  {
    hide Geometry, Gap, Turn, BrawlTurns;
    var next := Turn(bd, g, st);
    TurnKeepsGeometry(bd, g, st);
    AdjacentBlow(bd, g, st);
    FirstTurn(bd, g, st);
    var struck, power := if st.aTurn then st.b.hp else st.a.hp, if st.aTurn then g.powA else g.powB;
    assert Blows(struck, power) == 1 + Blows(struck - power, power);
    if struck - power > 0 {
      assert Blows(struck - power, power) > 0;
      n := Brawl(bd, g, next);
      EndsLater(bd, g, st, 1, n);
      AfterSum(bd, g, st, 1, n);
      n := 1 + n;
    } else {
      assert Blows(struck - power, power) == 0;
      n := 1;
    }
    BrawlTurnsStep(Blows(st.b.hp, g.powA), Blows(st.a.hp, g.powB));
    BrawlTurnsStep(Blows(st.a.hp, g.powB), Blows(st.b.hp, g.powA));
  }

  lemma FirstTurn(bd: Board, g: Setup, st: State)
    ensures After(bd, g, st, 0) == st && After(bd, g, st, 1) == Turn(bd, g, st)
  {
    hide Turn;
  }

  /** After the first blow the other side is the first striker against one blow fewer. */
  lemma BrawlTurnsStep(first: nat, second: nat)
    requires first > 0 && second > 0
    ensures first == 1 ==> BrawlTurns(first, second) == 1
    ensures first > 1 ==> BrawlTurns(first, second) == 1 + BrawlTurns(second, first - 1)
  {}

  lemma AdjacentBlow(bd: Board, g: Setup, st: State)
    requires Gap(st) <= 1 && st.a.block == 0 && st.b.block == 0
    requires if st.aTurn then st.a.sta > 0 else st.b.sta > 0
    ensures var now := Turn(bd, g, st);
            && now.a.block == 0 && now.b.block == 0 && now.aTurn == !st.aTurn
            && ScoreOf(now) == if st.aTurn then Score(st.a.hp, st.b.hp - g.powA, st.a.sta - 1, st.b.sta)
                               else Score(st.a.hp - g.powB, st.b.hp, st.a.sta, st.b.sta - 1)
  {}

  /** Closed form.  With positive health and power and enough stamina, the fight takes exactly
      13 steps, the creature that did not step first strikes first, and A wins exactly when it
      needs at most as many blows as B (odd seed, or seed 0 and ids of different parity) or fewer
      (otherwise). */
  lemma ClearFight(bd: Board, g: Setup, seed: bv32) returns (n: nat)
    requires IsClear(bd)
    requires g.powA > 0 && g.powB > 0 && g.start.hpA > 0 && g.start.hpB > 0
    requires Blows(g.start.hpB, g.powA) <= g.start.staA && Blows(g.start.hpA, g.powB) <= g.start.staB
    ensures EndsAt(bd, g, Initial(bd, g, seed), n)
    ensures var nA, nB := Blows(g.start.hpB, g.powA), Blows(g.start.hpA, g.powB);
            var aStepsFirst := AFirst(g.idA, g.idB, seed);
            var last := After(bd, g, Initial(bd, g, seed), n);
            && |TallyAfter(bd, g, seed, n).entered| == 2 + 13
            && Winner(g, ScoreOf(last)) == (if (if aStepsFirst then nA < nB else nA <= nB) then g.idA else g.idB)
            && n == 13 + (if aStepsFirst then BrawlTurns(nB, nA) else BrawlTurns(nA, nB))
  {
    hide Geometry, Gap, Turn, EffectiveSeed, AFirst;
    var st := Initial(bd, g, seed);
    ParityOfSeed(g.idA, g.idB, seed);
    InitialGeometry(bd, g, seed);
    ClearWalk(bd, g, seed, 13);
    AfterKeepsGeometry(bd, g, st, 13);
    var met := After(bd, g, st, 13);
    assert ScoreOf(met).staA == g.start.staA;
    forall k | 0 <= k < 13 ensures Running(After(bd, g, st, k)) {
      ClearWalk(bd, g, seed, k);
    }
    n := Brawl(bd, g, met);
    EndsLater(bd, g, st, 13, n);
    AfterSum(bd, g, st, 13, n);
    AfterKeepsGeometry(bd, g, met, n);
    n := 13 + n;
    StepsMade(bd, g, seed, n);
    GapIsPositive(After(bd, g, st, n));
  }

  lemma StepsMade(bd: Board, g: Setup, seed: bv32, n: nat)
    requires EndsAt(bd, g, Initial(bd, g, seed), n)
    ensures |TallyAfter(bd, g, seed, n).entered| == 16 - Gap(After(bd, g, Initial(bd, g, seed), n))
    ensures Geometry(After(bd, g, Initial(bd, g, seed), n))
  {
    hide Turn, Initial, Running, Note;
    FightKeepsInvariant(bd, g, seed, n);
  }
}
