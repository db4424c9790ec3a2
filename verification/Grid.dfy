/** The turn machine of `BattleEngine::fight` on an 8×8 board, as a step function on values. */
module Grid {
  import opened Basics
  import opened Creatures

  datatype Tile = EMPTY | WALL | HAZARD

  datatype Pos = Pos(x: int, y: int)

  /** The 64 tiles, column by column: tile (x, y) is entry 8x + y. */
  type Board = b: seq<Tile> | |b| == 64 witness seq(64, _ => EMPTY)

  predicate OnBoard(p: Pos) { 0 <= p.x < 8 && 0 <= p.y < 8 }

  /** Out-of-range tiles count as walls. */
  function TileAt(bd: Board, p: Pos): Tile {
    if OnBoard(p) then bd[8 * p.x + p.y] else WALL
  }

  function Abs(x: int): nat { if x < 0 then -x else x }

  function Distance(p: Pos, q: Pos): nat { Abs(p.x - q.x) + Abs(p.y - q.y) }

  /** Where `step_towards` ends up: one step along x when x differs, else along y; if that is
      blocked, one step along y when the x step was tried and y differs; else nowhere. */
  function StepTowards(bd: Board, me: Pos, them: Pos): Option<Pos> {
    var dx := Sign(them.x - me.x);
    var dy := if dx != 0 then 0 else Sign(them.y - me.y);
    var first := Pos(me.x + dx, me.y + dy);
    if TileAt(bd, first) != WALL then Some(first)
    else
      var second := Pos(me.x, me.y + Sign(them.y - me.y));
      if dx != 0 && me.y != them.y && TileAt(bd, second) != WALL then Some(second) else None
  }

  function Sign(d: int): int { if d > 0 then 1 else if d < 0 then -1 else 0 }

  function HazardLoss(bd: Board, p: Pos): nat {
    if TileAt(bd, p) == HAZARD then 1 else 0
  }

  datatype Side = Side(pos: Pos, hp: int, sta: int, block: int)

  datatype State = State(a: Side, b: Side, aTurn: bool)

  /** Damage that gets past a block: a raised block takes points off, but never below 0. */
  function NetDamage(power: int, block: int): int {
    if block > 0 then (if power < block then 0 else power - block) else power
  }

  /** One turn of the acting side `me` against `them`. */
  function Act(bd: Board, power: int, me: Side, them: Side): (Side, Side) {
    if Distance(me.pos, them.pos) <= 1 then
      if me.sta > 0 then
        (me.(sta := me.sta - 1),
         them.(hp := them.hp - NetDamage(power, them.block), block := if them.block > 0 then 0 else them.block))
      else
        (me.(block := me.block + 1), them)
    else
      match StepTowards(bd, me.pos, them.pos)
      case None => (me, them)
      case Some(p) => (me.(pos := p, hp := me.hp - HazardLoss(bd, p)), them)
  }

  /** One pass through the loop body. */
  function Turn(bd: Board, g: Setup, st: State): State {
    if st.aTurn then
      var r := Act(bd, g.powA, st.a, st.b); State(r.0, r.1, false)
    else
      var r := Act(bd, g.powB, st.b, st.a); State(r.1, r.0, true)
  }

  const CORNER_A := Pos(0, 0)
  const CORNER_B := Pos(7, 7)

  function Initial(bd: Board, g: Setup, seed: bv32): State {
    State(Side(CORNER_A, g.start.hpA - HazardLoss(bd, CORNER_A), g.start.staA, 0),
          Side(CORNER_B, g.start.hpB - HazardLoss(bd, CORNER_B), g.start.staB, 0),
          EffectiveSeed(g.idA, g.idB, seed) & 1 == 0)
  }

  function After(bd: Board, g: Setup, st: State, n: nat): State
    decreases n
  {
    if n == 0 then st else Turn(bd, g, After(bd, g, st, n - 1))
  }

  function ScoreOf(st: State): Score { Score(st.a.hp, st.b.hp, st.a.sta, st.b.sta) }

  predicate Running(st: State) { Live(ScoreOf(st)) }

  /** The loop leaves after exactly n turns. */
  ghost predicate EndsAt(bd: Board, g: Setup, st: State, n: nat) {
    !Running(After(bd, g, st, n)) && forall k | 0 <= k < n :: Running(After(bd, g, st, k))
  }

  lemma {:induction false} AfterSum(bd: Board, g: Setup, st: State, m: nat, n: nat)
    ensures After(bd, g, st, m + n) == After(bd, g, After(bd, g, st, m), n)
    decreases n
  {
    hide Turn;
    if n > 0 {
      AfterSum(bd, g, st, m, n - 1);
    }
  }

  lemma EndIsUnique(bd: Board, g: Setup, st: State, n: nat, m: nat)
    requires EndsAt(bd, g, st, n) && EndsAt(bd, g, st, m)
    ensures n == m
  {
    assert n < m ==> Running(After(bd, g, st, n));
    assert m < n ==> Running(After(bd, g, st, m));
  }

  lemma {:induction false} EndsLater(bd: Board, g: Setup, st: State, m: nat, n: nat)
    requires forall k | 0 <= k < m :: Running(After(bd, g, st, k))
    requires EndsAt(bd, g, After(bd, g, st, m), n)
    ensures EndsAt(bd, g, st, m + n)
  {
    hide Running, Turn;
    AfterSum(bd, g, st, m, n);
    forall k | m <= k < m + n ensures Running(After(bd, g, st, k)) {
      AfterSum(bd, g, st, m, k - m);
    }
  }

  // ---------------------------------------------------------------- geometry

  predicate AtMost(p: Pos, q: Pos) { p.x <= q.x && p.y <= q.y }

  /** A stays coordinatewise below B, and the two never share a tile. */
  predicate Geometry(st: State) {
    OnBoard(st.a.pos) && OnBoard(st.b.pos) && AtMost(st.a.pos, st.b.pos) && st.a.pos != st.b.pos
  }

  function Gap(st: State): nat { Distance(st.a.pos, st.b.pos) }

  /** The side to move cannot step towards the other. */
  predicate MoverStuck(bd: Board, st: State) {
    if st.aTurn then AStuck(bd, st) else BStuck(bd, st)
  }

  predicate AStuck(bd: Board, st: State) { StepTowards(bd, st.a.pos, st.b.pos).None? }

  predicate BStuck(bd: Board, st: State) { StepTowards(bd, st.b.pos, st.a.pos).None? }

  /** One turn: at a gap above 1 the mover closes it by one or is stuck; adjacent sides stay. */
  lemma TurnKeepsGeometry(bd: Board, g: Setup, st: State)
    requires Geometry(st)
    ensures var next := Turn(bd, g, st);
            && Geometry(next)
            && (Gap(st) <= 1 ==> Gap(next) == Gap(st) && next.a.pos == st.a.pos && next.b.pos == st.b.pos)
            && (Gap(st) > 1 && MoverStuck(bd, st) ==> Gap(next) == Gap(st) && next == st.(aTurn := !st.aTurn))
            && (Gap(st) > 1 && !MoverStuck(bd, st) ==> Gap(next) == Gap(st) - 1)
            && next.aTurn != st.aTurn
  {
    if Gap(st) > 1 {
      StepCloses(bd, st.a.pos, st.b.pos);
      StepCloses(bd, st.b.pos, st.a.pos);
    }
  }

  /** A step is to a free tile of the board, no further than the other side in either
      coordinate, and one closer. */
  lemma StepCloses(bd: Board, me: Pos, them: Pos)
    requires OnBoard(me) && OnBoard(them) && (AtMost(me, them) || AtMost(them, me)) && Distance(me, them) > 1
    ensures StepTowards(bd, me, them).Some? ==>
              var p := StepTowards(bd, me, them).value;
              && OnBoard(p) && TileAt(bd, p) != WALL
              && (AtMost(me, them) ==> AtMost(me, p) && AtMost(p, them))
              && (AtMost(them, me) ==> AtMost(p, me) && AtMost(them, p))
              && Distance(p, them) == Distance(me, them) - 1 && Distance(me, p) == 1
  {}

  lemma {:induction false} AfterKeepsGeometry(bd: Board, g: Setup, st: State, n: nat)
    requires Geometry(st)
    ensures Geometry(After(bd, g, st, n)) && Gap(After(bd, g, st, n)) <= Gap(st)
    decreases n
  {
    hide Turn, Geometry, Gap;
    if n > 0 {
      AfterKeepsGeometry(bd, g, st, n - 1);
      TurnKeepsGeometry(bd, g, After(bd, g, st, n - 1));
    }
  }

  /** The options of a stuck creature only shrink while the other one comes closer. */
  lemma StuckStaysStuck(bd: Board, g: Setup, st: State)
    requires Geometry(st) && Gap(Turn(bd, g, st)) > 1
    ensures AStuck(bd, st) ==> AStuck(bd, Turn(bd, g, st))
    ensures BStuck(bd, st) ==> BStuck(bd, Turn(bd, g, st))
  {
    hide StepTowards;
    TurnKeepsGeometry(bd, g, st);
    OptionsShrink(bd, st.a.pos, st.b.pos);
    OptionsShrink(bd, st.b.pos, st.a.pos);
  }

  lemma OptionsShrink(bd: Board, me: Pos, them: Pos)
    requires OnBoard(me) && OnBoard(them) && (AtMost(me, them) || AtMost(them, me))
    requires Distance(me, them) > 1
    ensures StepTowards(bd, me, them).None? && StepTowards(bd, them, me).Some? ==>
              var p := StepTowards(bd, them, me).value;
              Distance(me, p) > 1 ==> StepTowards(bd, me, p).None?
  {}

  /** Two turns close the gap unless both sides are stuck. */
  lemma TwoTurns(bd: Board, g: Setup, st: State)
    requires Geometry(st) && Gap(st) > 1
    ensures Gap(After(bd, g, st, 2)) < Gap(st) || (AStuck(bd, st) && BStuck(bd, st))
  {
    hide Turn, Gap, Geometry, AStuck, BStuck;
    var one := After(bd, g, st, 1);
    assert one == Turn(bd, g, After(bd, g, st, 0));
    TurnKeepsGeometry(bd, g, st);
    TurnKeepsGeometry(bd, g, one);
    if MoverStuck(bd, st) {
      assert one == st.(aTurn := !st.aTurn);
      StuckIgnoresTurn(bd, st, one);
    }
  }

  lemma StuckIgnoresTurn(bd: Board, st: State, other: State)
    requires other == st.(aTurn := !st.aTurn)
    ensures AStuck(bd, st) == AStuck(bd, other) && BStuck(bd, st) == BStuck(bd, other) && Gap(st) == Gap(other)
  {}

  /** Once both sides are stuck only the turn flag ever changes again. */
  lemma {:induction false} BothStuckForever(bd: Board, g: Setup, st: State, n: nat)
    requires Geometry(st) && Gap(st) > 1 && AStuck(bd, st) && BStuck(bd, st)
    ensures After(bd, g, st, n) == if n % 2 == 0 then st else st.(aTurn := !st.aTurn)
    decreases n
  {
    hide Turn, Geometry, Gap, AStuck, BStuck;
    if n > 0 {
      BothStuckForever(bd, g, st, n - 1);
      AfterKeepsGeometry(bd, g, st, n - 1);
      var last := After(bd, g, st, n - 1);
      StuckIgnoresTurn(bd, st, st.(aTurn := !st.aTurn));
      TurnKeepsGeometry(bd, g, last);
    }
  }

  /** After 2k turns the gap has shrunk by k, unless it is already at most 1 or both sides
      are stuck. */
  lemma {:induction false} Approach(bd: Board, g: Setup, st: State, k: nat)
    requires Geometry(st)
    ensures var now := After(bd, g, st, 2 * k);
            Gap(now) <= 1 || Gap(now) + k <= Gap(st) || (AStuck(bd, now) && BStuck(bd, now))
    decreases k
  {
    hide Turn, Geometry, Gap, AStuck, BStuck;
    if k > 0 {
      Approach(bd, g, st, k - 1);
      var before := After(bd, g, st, 2 * k - 2);
      AfterKeepsGeometry(bd, g, st, 2 * k - 2);
      AfterSum(bd, g, st, 2 * k - 2, 2);
      AfterKeepsGeometry(bd, g, before, 2);
      if Gap(before) > 1 {
        TwoTurns(bd, g, before);
        if AStuck(bd, before) && BStuck(bd, before) {
          BothStuckForever(bd, g, before, 2);
        }
      }
    }
  }

  // ---------------------------------------------------------------- the end of a fight

  /** The larger of the two staminas, or 0. */
  function Rounds(st: State): nat { Positive(Max(st.a.sta, st.b.sta)) }

  lemma TwoAdjacentTurns(bd: Board, g: Setup, st: State)
    requires Geometry(st) && Gap(st) <= 1
    ensures var two := After(bd, g, st, 2);
            && Geometry(two) && Gap(two) <= 1
            && (Rounds(st) > 0 ==> Rounds(two) == Rounds(st) - 1)
  {
    assert After(bd, g, st, 2) == Turn(bd, g, Turn(bd, g, st)) by {
      hide Turn;
      assert After(bd, g, st, 1) == Turn(bd, g, After(bd, g, st, 0));
    }
  }

  /** Adjacent creatures fight for at most twice the larger stamina. */
  lemma {:induction false} AdjacentEnds(bd: Board, g: Setup, st: State) returns (n: nat)
    requires Geometry(st) && Gap(st) <= 1
    ensures EndsAt(bd, g, st, n) && n <= 2 * Rounds(st)
    decreases Rounds(st)
  {
    hide Turn, Geometry, Gap;
    if !Running(After(bd, g, st, 0)) {
      n := 0;
    } else {
      assert Rounds(st) > 0;
      if !Running(After(bd, g, st, 1)) {
        n := 1;
      } else {
        TwoAdjacentTurns(bd, g, st);
        n := AdjacentEnds(bd, g, After(bd, g, st, 2));
        EndsLater(bd, g, st, 2, n);
        n := 2 + n;
      }
    }
  }

  /** While the sides are apart nobody strikes: health can only drop and stamina stays. */
  lemma {:induction false} ApartOnlyWalks(bd: Board, g: Setup, st: State, n: nat)
    requires Geometry(st) && Gap(After(bd, g, st, n)) > 1
    ensures var now := After(bd, g, st, n);
            && now.a.hp <= st.a.hp && now.b.hp <= st.b.hp
            && now.a.sta == st.a.sta && now.b.sta == st.b.sta
            && now.a.block == st.a.block && now.b.block == st.b.block
    decreases n
  {
    hide Turn, Geometry, Gap;
    if n > 0 {
      var before := After(bd, g, st, n - 1);
      AfterKeepsGeometry(bd, g, st, n - 1);
      TurnKeepsGeometry(bd, g, before);
      ApartOnlyWalks(bd, g, st, n - 1);
      ApartTurn(bd, g, before);
    }
  }

  lemma ApartTurn(bd: Board, g: Setup, st: State)
    requires Gap(st) > 1
    ensures var now := Turn(bd, g, st);
            && now.a.hp <= st.a.hp && now.b.hp <= st.b.hp
            && now.a.sta == st.a.sta && now.b.sta == st.b.sta
            && now.a.block == st.a.block && now.b.block == st.b.block
  {
    hide StepTowards;
  }

  lemma ApartBefore(bd: Board, g: Setup, st: State, k: nat, n: nat)
    requires Geometry(st) && k <= n
    ensures Gap(After(bd, g, st, n)) <= Gap(After(bd, g, st, k))
  {
    hide Turn, Geometry, Gap;
    AfterKeepsGeometry(bd, g, st, k);
    AfterSum(bd, g, st, k, n - k);
    AfterKeepsGeometry(bd, g, After(bd, g, st, k), n - k);
  }

  /** Turns that a fight may spend walking: 13 steps, at worst one in every two turns, so 26. */
  const WALK := 2 * (Distance(CORNER_A, CORNER_B) - 1)

  /** The fight is still on after the walking turns, with the sides apart. */
  predicate Stalls(bd: Board, g: Setup, seed: bv32) {
    var now := After(bd, g, Initial(bd, g, seed), WALK);
    Running(now) && Gap(now) > 1
  }

  lemma InitialGeometry(bd: Board, g: Setup, seed: bv32)
    ensures Geometry(Initial(bd, g, seed)) && Gap(Initial(bd, g, seed)) == 14
  {}

  /** A stalled fight has both creatures stuck, alive, apart, and goes on forever: from turn 26
      the state repeats with period two. */
  lemma StalledForever(bd: Board, g: Setup, seed: bv32, n: nat)
    requires Stalls(bd, g, seed)
    ensures var st := Initial(bd, g, seed);
            var now := After(bd, g, st, n);
            && Running(now) && Gap(now) > 1
            && (n >= WALK ==> AStuck(bd, now) && BStuck(bd, now) && After(bd, g, st, n + 2) == now)
  {
    hide Turn, Geometry, Gap, AStuck, BStuck, Initial;
    var st := Initial(bd, g, seed);
    InitialGeometry(bd, g, seed);
    var walked := After(bd, g, st, WALK);
    if n <= WALK {
      ApartBefore(bd, g, st, n, WALK);
      AfterKeepsGeometry(bd, g, st, n);
      AfterSum(bd, g, st, n, WALK - n);
      ApartOnlyWalks(bd, g, After(bd, g, st, n), WALK - n);
    }
    if n >= WALK {
      Approach(bd, g, st, 13);
      AfterKeepsGeometry(bd, g, st, WALK);
      GapIsPositive(walked);
      BothStuckForever(bd, g, walked, n - WALK);
      BothStuckForever(bd, g, walked, n - WALK + 2);
      AfterSum(bd, g, st, WALK, n - WALK);
      AfterSum(bd, g, st, WALK, n - WALK + 2);
      StuckIgnoresTurn(bd, walked, walked.(aTurn := !walked.aTurn));
    }
  }

  lemma GapIsPositive(st: State)
    requires Geometry(st)
    ensures Gap(st) >= 1
  {}

  lemma {:induction false} StaminaNeverGrows(bd: Board, g: Setup, st: State, n: nat)
    ensures Rounds(After(bd, g, st, n)) <= Rounds(st)
    decreases n
  {
    hide Turn, Rounds;
    if n > 0 {
      StaminaNeverGrows(bd, g, st, n - 1);
      TurnSpendsStamina(bd, g, After(bd, g, st, n - 1));
    }
  }

  lemma TurnSpendsStamina(bd: Board, g: Setup, st: State)
    ensures Rounds(Turn(bd, g, st)) <= Rounds(st)
  {
    hide StepTowards, NetDamage, HazardLoss, Distance;
  }

  /** If the sides are adjacent within m turns, the fight ends within m plus twice the larger
      stamina. */
  lemma EndsOnceAdjacent(bd: Board, g: Setup, st: State, m: nat) returns (n: nat)
    requires Geometry(st)
    requires Gap(After(bd, g, st, m)) <= 1 || !Running(After(bd, g, st, m))
    ensures EndsAt(bd, g, st, n) && n <= m + 2 * Rounds(st)
    decreases m
  {
    hide Turn, Geometry, Gap, Running;
    if exists k | 0 <= k <= m :: !Running(After(bd, g, st, k)) {
      n := FirstStop(bd, g, st, m);
    } else {
      AfterKeepsGeometry(bd, g, st, m);
      StaminaNeverGrows(bd, g, st, m);
      n := AdjacentEnds(bd, g, After(bd, g, st, m));
      EndsLater(bd, g, st, m, n);
      n := m + n;
    }
  }

  lemma {:induction false} FirstStop(bd: Board, g: Setup, st: State, m: nat) returns (n: nat)
    requires exists k | 0 <= k <= m :: !Running(After(bd, g, st, k))
    ensures n <= m && EndsAt(bd, g, st, n)
    decreases m
  {
    hide Turn, Running;
    if k :| 0 <= k < m && !Running(After(bd, g, st, k)) {
      n := FirstStop(bd, g, st, m - 1);
    } else {
      n := m;
    }
  }

  /** Dichotomy: a fight ends exactly when it does not stall, and then within 26 turns plus
      twice the larger stamina. */
  lemma EndsUnlessStalled(bd: Board, g: Setup, seed: bv32) returns (n: nat)
    requires !Stalls(bd, g, seed)
    ensures EndsAt(bd, g, Initial(bd, g, seed), n)
    ensures n <= 26 + 2 * Positive(Max(g.start.staA, g.start.staB))
  {
    InitialGeometry(bd, g, seed);
    n := EndsOnceAdjacent(bd, g, Initial(bd, g, seed), WALK);
  }

  lemma EndsExactly(bd: Board, g: Setup, seed: bv32)
    ensures (exists n: nat :: EndsAt(bd, g, Initial(bd, g, seed), n)) <==> !Stalls(bd, g, seed)
  {
    hide Stalls, Initial, Turn, Running;
    if Stalls(bd, g, seed) {
      forall n: nat ensures !EndsAt(bd, g, Initial(bd, g, seed), n) {
        StalledForever(bd, g, seed, n);
      }
    } else {
      var n := EndsUnlessStalled(bd, g, seed);
    }
  }

  /** Endless fights do occur: wall in both corners and no living pair with stamina ever stops. */
  lemma WalledCornersStall(bd: Board, g: Setup, seed: bv32)
    requires TileAt(bd, Pos(1, 0)) == WALL && TileAt(bd, Pos(0, 1)) == WALL
    requires TileAt(bd, Pos(6, 7)) == WALL && TileAt(bd, Pos(7, 6)) == WALL
    requires Running(Initial(bd, g, seed))
    ensures Stalls(bd, g, seed)
  {
    hide After, EffectiveSeed;
    var st := Initial(bd, g, seed);
    InitialGeometry(bd, g, seed);
    assert AStuck(bd, st) && BStuck(bd, st);
    BothStuckForever(bd, g, st, WALK);
  }

  predicate NoWalls(bd: Board) { forall i | 0 <= i < 64 :: bd[i] != WALL }

  /** Without walls every turn apart closes the gap by one. */
  lemma {:induction false} WalkWithoutWalls(bd: Board, g: Setup, seed: bv32, n: nat)
    requires NoWalls(bd) && n <= 13
    ensures Gap(After(bd, g, Initial(bd, g, seed), n)) == 14 - n
    decreases n
  {
    hide Turn, Gap, Initial;
    InitialGeometry(bd, g, seed);
    if n > 0 {
      WalkWithoutWalls(bd, g, seed, n - 1);
      var before := After(bd, g, Initial(bd, g, seed), n - 1);
      AfterKeepsGeometry(bd, g, Initial(bd, g, seed), n - 1);
      TurnKeepsGeometry(bd, g, before);
      NobodyStuckWithoutWalls(bd, before);
    }
  }

  lemma NobodyStuckWithoutWalls(bd: Board, st: State)
    requires NoWalls(bd) && Geometry(st) && Gap(st) > 1
    ensures !MoverStuck(bd, st)
  {}

  /** On a board without walls every fight ends, within 13 turns plus twice the larger stamina. */
  lemma EndsWithoutWalls(bd: Board, g: Setup, seed: bv32) returns (n: nat)
    requires NoWalls(bd)
    ensures EndsAt(bd, g, Initial(bd, g, seed), n)
    ensures n <= 13 + 2 * Positive(Max(g.start.staA, g.start.staB))
  {
    InitialGeometry(bd, g, seed);
    WalkWithoutWalls(bd, g, seed, 13);
    n := EndsOnceAdjacent(bd, g, Initial(bd, g, seed), 13);
  }
}
