/** Where creatures go and what a turn does, said from the board and the numbers alone, and the
    closed form of a fight on any board without walls. */
module GridPaths {
  import opened Basics
  import opened Creatures
  import opened Grid
  import opened ClearBoard

  // ---------------------------------------------------------------- one turn

  /** The tile of the board at (x, y). */
  function Tile8(bd: Board, x: int, y: int): Tile
    requires 0 <= x < 8 && 0 <= y < 8
  {
    bd[8 * x + y]
  }

  /** A's walking turn.  The columns are closed first: A goes to the next column if the columns
      differ and the tile there is no wall; otherwise to the next row if the rows differ and the
      tile there is no wall; otherwise nowhere.  Nothing changes but that and the turn. */
  lemma WalkingTurnOfA(bd: Board, g: Setup, st: State)
    requires Geometry(st) && Gap(st) > 1 && st.aTurn
    ensures var a, b, next := st.a.pos, st.b.pos, Turn(bd, g, st);
            var column := a.x < b.x && Tile8(bd, a.x + 1, a.y) != WALL;
            var row := a.y < b.y && Tile8(bd, a.x, a.y + 1) != WALL;
            && (column ==> next.a.pos == Pos(a.x + 1, a.y))
            && (!column && row ==> next.a.pos == Pos(a.x, a.y + 1))
            && (!column && !row ==> next.a.pos == a)
            && Paid(bd, st.a, next.a) && next.b == st.b && !next.aTurn
  {}

  /** B's walking turn, the other way. */
  lemma WalkingTurnOfB(bd: Board, g: Setup, st: State)
    requires Geometry(st) && Gap(st) > 1 && !st.aTurn
    ensures var a, b, next := st.a.pos, st.b.pos, Turn(bd, g, st);
            var column := a.x < b.x && Tile8(bd, b.x - 1, b.y) != WALL;
            var row := a.y < b.y && Tile8(bd, b.x, b.y - 1) != WALL;
            && (column ==> next.b.pos == Pos(b.x - 1, b.y))
            && (!column && row ==> next.b.pos == Pos(b.x, b.y - 1))
            && (!column && !row ==> next.b.pos == b)
            && Paid(bd, st.b, next.b) && next.a == st.a && next.aTurn
  {}

  /** A creature that entered a hazard tile has lost a point of health; nothing else is lost. */
  predicate Paid(bd: Board, before: Side, after: Side) {
    && OnBoard(after.pos)
    && var hurt := after.pos != before.pos && Tile8(bd, after.pos.x, after.pos.y) == HAZARD;
    && after.hp == before.hp - (if hurt then 1 else 0)
    && after.sta == before.sta && after.block == before.block
  }

  /** An adjacent turn: with stamina the mover spends a point and strikes, and a raised block takes
      its points off the blow, not below 0, and is gone; without stamina it raises its block by
      one.  Nobody moves. */
  lemma AdjacentTurn(bd: Board, g: Setup, st: State)
    requires Gap(st) <= 1
    ensures var next := Turn(bd, g, st);
            && next.aTurn == !st.aTurn && next.a.pos == st.a.pos && next.b.pos == st.b.pos
            && (st.aTurn ==> Blow(g.powA, st.a, st.b, next.a, next.b))
            && (!st.aTurn ==> Blow(g.powB, st.b, st.a, next.b, next.a))
  {}

  predicate Blow(power: int, me: Side, them: Side, me': Side, them': Side) {
    && me'.hp == me.hp && them'.sta == them.sta
    && (me.sta > 0 ==>
          && me'.sta == me.sta - 1 && me'.block == me.block
          && (them.block <= 0 ==> them'.hp == them.hp - power && them'.block == them.block)
          && (them.block > 0 ==> them'.hp == them.hp - Max(0, power - them.block) && them'.block == 0))
    && (me.sta <= 0 ==>
          && me'.sta == me.sta && me'.block == me.block + 1
          && them'.hp == them.hp && them'.block == them.block)
  }

  // ---------------------------------------------------------------- who moves first

  lemma FirstMover(bd: Board, g: Setup, seed: bv32)
    ensures Initial(bd, g, seed).aTurn == AFirst(g.idA, g.idB, seed)
  {
    hide HazardLoss, EffectiveSeed;
    ParityOfSeed(g.idA, g.idB, seed);
  }

  // ---------------------------------------------------------------- the path without walls

  /** Of the seven columns between the corners the first mover closes four and the other three. */
  function ColumnsOfA(aFirst: bool): nat { if aFirst then 4 else 3 }

  /** Where A is after k steps: along row 0, then up its column. */
  function PathA(aFirst: bool, k: nat): (p: Pos)
    requires k <= 7
    ensures OnBoard(p)
  {
    var c := ColumnsOfA(aFirst);
    if k <= c then Pos(k, 0) else Pos(c, k - c)
  }

  /** Where B is after k steps: along row 7, then down the same column. */
  function PathB(aFirst: bool, k: nat): (p: Pos)
    requires k <= 7
    ensures OnBoard(p)
  {
    var c := 7 - ColumnsOfA(aFirst);
    if k <= c then Pos(7 - k, 7) else Pos(7 - c, 7 - (k - c))
  }

  /** The steps A has taken after n turns apart. */
  function StepsOfA(aFirst: bool, n: nat): nat { if aFirst then (n + 1) / 2 else n / 2 }

  function HazardAt(bd: Board, p: Pos): nat
    requires OnBoard(p)
  {
    if Tile8(bd, p.x, p.y) == HAZARD then 1 else 0
  }

  /** Hazards on the first k steps of a path and on its corner. */
  function HazardsA(bd: Board, aFirst: bool, k: nat): nat
    requires k <= 7
  {
    (if k == 0 then 0 else HazardsA(bd, aFirst, k - 1)) + HazardAt(bd, PathA(aFirst, k))
  }

  function HazardsB(bd: Board, aFirst: bool, k: nat): nat
    requires k <= 7
  {
    (if k == 0 then 0 else HazardsB(bd, aFirst, k - 1)) + HazardAt(bd, PathB(aFirst, k))
  }

  /** The state of a fight without walls after n turns of walking. */
  function Walking(bd: Board, g: Setup, seed: bv32, n: nat): State
    requires n <= 13
  {
    var aFirst := AFirst(g.idA, g.idB, seed);
    var k := StepsOfA(aFirst, n);
    assert k <= 7 && 0 <= n - k <= 7;
    State(Side(PathA(aFirst, k), g.start.hpA - HazardsA(bd, aFirst, k), g.start.staA, 0),
          Side(PathB(aFirst, n - k), g.start.hpB - HazardsB(bd, aFirst, n - k), g.start.staB, 0),
          if n % 2 == 0 then aFirst else !aFirst)
  }

  /** On a board without walls the first 13 turns are known: who moves, along which tiles, and
      what the hazards there cost. */
  lemma {:induction false} WallFreeWalk(bd: Board, g: Setup, seed: bv32, n: nat)
    requires NoWalls(bd) && n <= 13
    ensures After(bd, g, Initial(bd, g, seed), n) == Walking(bd, g, seed, n)
    decreases n
  {
    hide Initial, Turn, AFirst;
    if n == 0 {
      WallFreeStart(bd, g, seed);
    } else {
      WallFreeWalk(bd, g, seed, n - 1);
      WallFreeTurn(bd, g, seed, n - 1);
    }
  }

  lemma WallFreeStart(bd: Board, g: Setup, seed: bv32)
    ensures Initial(bd, g, seed) == Walking(bd, g, seed, 0)
  {
    hide AFirst, EffectiveSeed;
    FirstMover(bd, g, seed);
  }

  lemma WallFreeTurn(bd: Board, g: Setup, seed: bv32, n: nat)
    requires NoWalls(bd) && n < 13
    ensures Turn(bd, g, Walking(bd, g, seed, n)) == Walking(bd, g, seed, n + 1)
  {
    hide Turn, AFirst, StepsOfA, Geometry, Gap, PathA, PathB, HazardAt;
    var st := Walking(bd, g, seed, n);
    var aFirst := AFirst(g.idA, g.idB, seed);
    var k := StepsOfA(aFirst, n);
    StepsCount(aFirst, n);
    StepsCount(aFirst, n + 1);
    PathsApart(aFirst, n, st);
    if st.aTurn {
      WalkOfA(bd, g, st, aFirst, k, n - k);
    } else {
      WalkOfB(bd, g, st, aFirst, k, n - k);
    }
  }

  /** Without stamina on either side nobody moves: the healthier creature wins where it stands, A on
      equal health, after the hazard of its corner. */
  lemma TiredFight(bd: Board, g: Setup, seed: bv32)
    requires g.start.staA <= 0 && g.start.staB <= 0
    ensures EndsAt(bd, g, Initial(bd, g, seed), 0)
    ensures var hpA := g.start.hpA - if Tile8(bd, 0, 0) == HAZARD then 1 else 0;
            var hpB := g.start.hpB - if Tile8(bd, 7, 7) == HAZARD then 1 else 0;
            Winner(g, ScoreOf(After(bd, g, Initial(bd, g, seed), 0))) == if hpA >= hpB then g.idA else g.idB
  {
    hide EffectiveSeed;
  }

  lemma {:induction false} HazardsGrow(bd: Board, aFirst: bool, k: nat, m: nat)
    requires k <= m <= 7
    ensures HazardsA(bd, aFirst, k) <= HazardsA(bd, aFirst, m) && HazardsB(bd, aFirst, k) <= HazardsB(bd, aFirst, m)
    decreases m - k
  {
    if k < m {
      HazardsGrow(bd, aFirst, k + 1, m);
    }
  }

  /** The closed form on every board without walls, for creatures that survive their paths: they
      meet after 13 turns with what the hazards left them and trade blows, the creature that did
      not move first striking first. */
  lemma WallFreeFight(bd: Board, g: Setup, seed: bv32) returns (n: nat)
    requires NoWalls(bd) && g.powA > 0 && g.powB > 0
    requires var met := Walking(bd, g, seed, 13);
             && met.a.hp > 0 && met.b.hp > 0
             && Blows(met.b.hp, g.powA) <= g.start.staA && Blows(met.a.hp, g.powB) <= g.start.staB
    ensures EndsAt(bd, g, Initial(bd, g, seed), n)
    ensures var met := Walking(bd, g, seed, 13);
            var nA, nB := Blows(met.b.hp, g.powA), Blows(met.a.hp, g.powB);
            var last := After(bd, g, Initial(bd, g, seed), n);
            var aWins := if AFirst(g.idA, g.idB, seed) then nA < nB else nA <= nB;
            && Winner(g, ScoreOf(last)) == (if aWins then g.idA else g.idB)
            && n == 13 + (if AFirst(g.idA, g.idB, seed) then BrawlTurns(nB, nA) else BrawlTurns(nA, nB))
  {
    hide Turn, Initial, AFirst, Geometry, Gap, PathA, PathB, BrawlTurns;
    var st, met := Initial(bd, g, seed), Walking(bd, g, seed, 13);
    var aFirst := AFirst(g.idA, g.idB, seed);
    WallFreeWalk(bd, g, seed, 13);
    MetOnPath(bd, g, seed);
    forall k | 0 <= k < 13 ensures Running(After(bd, g, st, k)) {
      WallFreeWalk(bd, g, seed, k);
      HazardsGrow(bd, aFirst, StepsOfA(aFirst, k), StepsOfA(aFirst, 13));
      HazardsGrow(bd, aFirst, k - StepsOfA(aFirst, k), 13 - StepsOfA(aFirst, 13));
    }
    n := Brawl(bd, g, met);
    EndsLater(bd, g, st, 13, n);
    AfterSum(bd, g, st, 13, n);
    n := 13 + n;
  }

  lemma MetOnPath(bd: Board, g: Setup, seed: bv32)
    ensures var met := Walking(bd, g, seed, 13); Geometry(met) && Gap(met) == 1
  {
    hide AFirst, HazardAt;
  }

  /** And for those that do not: the fight ends on the way, at the first step after which a
      creature is down. */
  lemma WallFreeFall(bd: Board, g: Setup, seed: bv32, n: nat)
    requires NoWalls(bd) && n <= 13 && (g.start.staA > 0 || g.start.staB > 0)
    requires var there := Walking(bd, g, seed, n); there.a.hp <= 0 || there.b.hp <= 0
    requires forall k | 0 <= k < n :: var st := Walking(bd, g, seed, k); st.a.hp > 0 && st.b.hp > 0
    ensures EndsAt(bd, g, Initial(bd, g, seed), n)
    ensures After(bd, g, Initial(bd, g, seed), n) == Walking(bd, g, seed, n)
    ensures var there := Walking(bd, g, seed, n);
            var leader := if there.a.hp >= there.b.hp then g.idA else g.idB;
            Winner(g, ScoreOf(After(bd, g, Initial(bd, g, seed), n))) == leader
  {
    hide Turn, Initial, AFirst, PathA, PathB, HazardAt, StepsOfA, HazardsA, HazardsB;
    WallFreeWalk(bd, g, seed, n);
    forall k | 0 <= k < n ensures Running(After(bd, g, Initial(bd, g, seed), k)) {
      WallFreeWalk(bd, g, seed, k);
    }
  }

  lemma WalkOfA(bd: Board, g: Setup, st: State, aFirst: bool, k: nat, l: nat)
    requires NoWalls(bd) && Geometry(st) && Gap(st) > 1 && st.aTurn && k < 7 && l == (if aFirst then k else k + 1)
    requires l <= 7 && st.a.pos == PathA(aFirst, k) && st.b.pos == PathB(aFirst, l)
    ensures var p := PathA(aFirst, k + 1);
            Turn(bd, g, st) == st.(a := st.a.(pos := p, hp := st.a.hp - HazardAt(bd, p)), aTurn := false)
  {
    hide Turn, Geometry;
    WalkingTurnOfA(bd, g, st);
  }

  lemma WalkOfB(bd: Board, g: Setup, st: State, aFirst: bool, k: nat, l: nat)
    requires NoWalls(bd) && Geometry(st) && Gap(st) > 1 && !st.aTurn && l < 7 && k == (if aFirst then l + 1 else l)
    requires k <= 7 && st.a.pos == PathA(aFirst, k) && st.b.pos == PathB(aFirst, l)
    ensures var p := PathB(aFirst, l + 1);
            Turn(bd, g, st) == st.(b := st.b.(pos := p, hp := st.b.hp - HazardAt(bd, p)), aTurn := true)
  {
    hide Turn, Geometry;
    WalkingTurnOfB(bd, g, st);
  }

  lemma StepsCount(aFirst: bool, n: nat)
    requires n <= 13
    ensures var aTurn := if n % 2 == 0 then aFirst else !aFirst;
            var k := StepsOfA(aFirst, n);
            && k <= n && k <= 7 && n - k <= 7
            && n - k == k + (if aTurn == aFirst then 0 else if aFirst then -1 else 1)
            && StepsOfA(aFirst, n + 1) == k + (if aTurn then 1 else 0)
  {}

  lemma PathsApart(aFirst: bool, n: nat, st: State)
    requires n < 13 && StepsOfA(aFirst, n) <= 7 && 0 <= n - StepsOfA(aFirst, n) <= 7
    requires st.a.pos == PathA(aFirst, StepsOfA(aFirst, n)) && st.b.pos == PathB(aFirst, n - StepsOfA(aFirst, n))
    ensures Geometry(st) && Gap(st) == 14 - n
  {}
}
