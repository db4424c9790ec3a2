/** What a grid fight does along the way, tallied turn by turn beside the machine: the tiles
    entered, the hazard points lost and the damage dealt. */
module FightRecord {
  import opened Basics
  import opened Creatures
  import opened Grid

  /** `entered` lists every tile stepped on, starting corners first. */
  datatype Tally = Tally(entered: seq<Pos>, hazardsA: nat, hazardsB: nat, damageToA: int, damageToB: int)

  function InitialTally(bd: Board): Tally {
    Tally([CORNER_A, CORNER_B], HazardLoss(bd, CORNER_A), HazardLoss(bd, CORNER_B), 0, 0)
  }

  /** What the turn taken in `st` adds to the tally. */
  function Note(bd: Board, g: Setup, st: State, t: Tally): Tally {
    if Gap(st) <= 1 then
      if st.aTurn then
        if st.a.sta > 0 then t.(damageToB := t.damageToB + NetDamage(g.powA, st.b.block)) else t
      else
        if st.b.sta > 0 then t.(damageToA := t.damageToA + NetDamage(g.powB, st.a.block)) else t
    else if st.aTurn then
      match StepTowards(bd, st.a.pos, st.b.pos)
      case None => t
      case Some(p) => t.(entered := t.entered + [p], hazardsA := t.hazardsA + HazardLoss(bd, p))
    else
      match StepTowards(bd, st.b.pos, st.a.pos)
      case None => t
      case Some(p) => t.(entered := t.entered + [p], hazardsB := t.hazardsB + HazardLoss(bd, p))
  }

  function TallyAfter(bd: Board, g: Setup, seed: bv32, n: nat): Tally
    decreases n
  {
    if n == 0 then InitialTally(bd)
    else Note(bd, g, After(bd, g, Initial(bd, g, seed), n - 1), TallyAfter(bd, g, seed, n - 1))
  }

  // ---------------------------------------------------------------- no tile twice

  function Level(p: Pos): int { p.x + p.y }

  ghost predicate NoRepeats(ps: seq<Pos>) {
    forall i, j | 0 <= i < j < |ps| :: ps[i] != ps[j]
  }

  /** Tiles entered so far lie on the board, below A or above B, and moves made are 14 - gap. */
  ghost predicate TrackedBy(st: State, t: Tally) {
    && Geometry(st)
    && |t.entered| == 16 - Gap(st)
    && NoRepeats(t.entered)
    && forall p | p in t.entered :: OnBoard(p) && (Level(p) <= Level(st.a.pos) || Level(p) >= Level(st.b.pos))
  }

  lemma GapIsLevelDifference(st: State)
    requires Geometry(st)
    ensures Gap(st) == Level(st.b.pos) - Level(st.a.pos)
  {}

  lemma AppendKeepsNoRepeats(ps: seq<Pos>, p: Pos)
    requires NoRepeats(ps) && p !in ps
    ensures NoRepeats(ps + [p])
  {}

  /** The tile a walking turn steps on was entered by nobody before. */
  lemma StepIsFresh(bd: Board, st: State, t: Tally)
    requires TrackedBy(st, t) && Gap(st) > 1 && !MoverStuck(bd, st)
    ensures var p := if st.aTurn then StepTowards(bd, st.a.pos, st.b.pos).value
                     else StepTowards(bd, st.b.pos, st.a.pos).value;
            p !in t.entered
  {
    hide StepTowards, NoRepeats;
    StepCloses(bd, st.a.pos, st.b.pos);
    StepCloses(bd, st.b.pos, st.a.pos);
  }

  lemma TurnTracks(bd: Board, g: Setup, st: State, t: Tally)
    requires TrackedBy(st, t)
    ensures TrackedBy(Turn(bd, g, st), Note(bd, g, st, t))
  {
    hide StepTowards, NetDamage, HazardLoss, NoRepeats;
    var next := Turn(bd, g, st);
    TurnKeepsGeometry(bd, g, st);
    if Gap(st) > 1 && !MoverStuck(bd, st) {
      StepIsFresh(bd, st, t);
      GapIsLevelDifference(st);
      GapIsLevelDifference(next);
      var p := if st.aTurn then next.a.pos else next.b.pos;
      AppendKeepsNoRepeats(t.entered, p);
    }
  }

  // ---------------------------------------------------------------- hazards

  ghost function HazardsAmong(bd: Board, ps: seq<Pos>): set<Pos> {
    set p | p in ps && TileAt(bd, p) == HAZARD
  }

  /** Every hazard tile of the board. */
  function Hazards(bd: Board): set<Pos> {
    set x, y | 0 <= x < 8 && 0 <= y < 8 && TileAt(bd, Pos(x, y)) == HAZARD :: Pos(x, y)
  }

  lemma AppendHazard(bd: Board, ps: seq<Pos>, p: Pos)
    requires p !in ps
    ensures |HazardsAmong(bd, ps + [p])| == |HazardsAmong(bd, ps)| + HazardLoss(bd, p)
  {
    if TileAt(bd, p) == HAZARD {
      assert HazardsAmong(bd, ps + [p]) == HazardsAmong(bd, ps) + {p};
    } else {
      assert HazardsAmong(bd, ps + [p]) == HazardsAmong(bd, ps);
    }
  }

  lemma {:induction false} HazardsAtMostTiles(bd: Board, ps: seq<Pos>)
    ensures |HazardsAmong(bd, ps)| <= |ps|
    decreases |ps|
  {
    if ps != [] {
      var front, p := ps[..|ps| - 1], ps[|ps| - 1];
      HazardsAtMostTiles(bd, front);
      assert ps == front + [p];
      assert HazardsAmong(bd, ps) <= HazardsAmong(bd, front) + {p};
      SubsetSize(HazardsAmong(bd, ps), HazardsAmong(bd, front) + {p});
    }
  }

  // ---------------------------------------------------------------- blocks

  /** At most one block point is up, and only between a turn without stamina and the answer. */
  predicate BlocksInOrder(st: State) {
    && 0 <= st.a.block && 0 <= st.b.block && st.a.block + st.b.block <= 1
    && (st.a.block == 1 ==> !st.aTurn && st.a.sta <= 0)
    && (st.b.block == 1 ==> st.aTurn && st.b.sta <= 0)
    && (st.a.block + st.b.block > 0 ==> Gap(st) <= 1)
  }

  // ---------------------------------------------------------------- the invariants of a fight

  /** What every reached state of a fight satisfies. */
  ghost predicate FightInvariant(bd: Board, g: Setup, st: State, t: Tally) {
    && TrackedBy(st, t)
    && t.hazardsA + t.hazardsB == |HazardsAmong(bd, t.entered)|
    && st.a.hp == g.start.hpA - t.hazardsA - t.damageToA
    && st.b.hp == g.start.hpB - t.hazardsB - t.damageToB
    && BlocksInOrder(st)
  }

  lemma InitialTracked(bd: Board, st: State)
    requires st.a.pos == CORNER_A && st.b.pos == CORNER_B
    ensures TrackedBy(st, InitialTally(bd))
  {}

  lemma InitialInvariant(bd: Board, g: Setup, seed: bv32)
    ensures FightInvariant(bd, g, Initial(bd, g, seed), InitialTally(bd))
  {
    hide EffectiveSeed, TileAt;
    InitialGeometry(bd, g, seed);
    InitialTracked(bd, Initial(bd, g, seed));
    var a, b := CORNER_A, CORNER_B;
    assert HazardsAmong(bd, []) == {};
    AppendHazard(bd, [], a);
    AppendHazard(bd, [a], b);
    assert [] + [a] == [a] && [a] + [b] == InitialTally(bd).entered;
  }

  lemma TurnKeepsHazardCount(bd: Board, g: Setup, st: State, t: Tally)
    requires TrackedBy(st, t) && t.hazardsA + t.hazardsB == |HazardsAmong(bd, t.entered)|
    ensures var t' := Note(bd, g, st, t); t'.hazardsA + t'.hazardsB == |HazardsAmong(bd, t'.entered)|
  {
    hide StepTowards, NetDamage, HazardLoss, TrackedBy, HazardsAmong;
    if Gap(st) > 1 && !MoverStuck(bd, st) {
      StepIsFresh(bd, st, t);
      var p := if st.aTurn then StepTowards(bd, st.a.pos, st.b.pos).value
               else StepTowards(bd, st.b.pos, st.a.pos).value;
      AppendHazard(bd, t.entered, p);
    }
  }

  lemma TurnKeepsBlocks(bd: Board, g: Setup, st: State)
    requires Geometry(st) && BlocksInOrder(st) && Running(st)
    ensures BlocksInOrder(Turn(bd, g, st))
  {
    hide StepTowards, NetDamage, HazardLoss;
    TurnKeepsGeometry(bd, g, st);
    DistanceIsSymmetric(st.a.pos, st.b.pos);
  }

  lemma DistanceIsSymmetric(p: Pos, q: Pos)
    ensures Distance(p, q) == Distance(q, p)
  {}

  lemma TurnKeepsInvariant(bd: Board, g: Setup, st: State, t: Tally)
    requires FightInvariant(bd, g, st, t) && Running(st)
    ensures FightInvariant(bd, g, Turn(bd, g, st), Note(bd, g, st, t))
  {
    hide StepTowards, NetDamage, HazardLoss, TrackedBy, HazardsAmong, BlocksInOrder;
    TurnTracks(bd, g, st, t);
    TurnKeepsHazardCount(bd, g, st, t);
    assert Geometry(st) by { TrackedGeometry(st, t); }
    TurnKeepsBlocks(bd, g, st);
  }

  lemma TrackedGeometry(st: State, t: Tally)
    requires TrackedBy(st, t)
    ensures Geometry(st) && |t.entered| == 16 - Gap(st) && Gap(st) >= 1
    ensures forall p | p in t.entered :: OnBoard(p)
  {}

  lemma {:induction false} FightKeepsInvariant(bd: Board, g: Setup, seed: bv32, n: nat)
    requires forall k | 0 <= k < n :: Running(After(bd, g, Initial(bd, g, seed), k))
    ensures FightInvariant(bd, g, After(bd, g, Initial(bd, g, seed), n), TallyAfter(bd, g, seed, n))
    decreases n
  {
    hide FightInvariant, Initial, Turn, Note, Running;
    if n == 0 {
      InitialInvariant(bd, g, seed);
    } else {
      FightKeepsInvariant(bd, g, seed, n - 1);
      TurnKeepsInvariant(bd, g, After(bd, g, Initial(bd, g, seed), n - 1), TallyAfter(bd, g, seed, n - 1));
    }
  }

  /** After any n turns of a fight: A is coordinatewise below B on another tile, the moves made
      are 14 minus the distance, nobody entered a tile that anybody entered before, the hazard
      points lost are at most 15 and at most the hazards of the board, at most one block point
      is up, and health lost is hazards plus damage received. */
  lemma FightInvariants(bd: Board, g: Setup, seed: bv32, n: nat)
    requires forall k | 0 <= k < n :: Running(After(bd, g, Initial(bd, g, seed), k))
    ensures var now := After(bd, g, Initial(bd, g, seed), n);
            var t := TallyAfter(bd, g, seed, n);
            && AtMost(now.a.pos, now.b.pos) && now.a.pos != now.b.pos
            && |t.entered| - 2 == 14 - Distance(now.a.pos, now.b.pos)
            && (forall i, j | 0 <= i < j < |t.entered| :: t.entered[i] != t.entered[j])
            && t.hazardsA + t.hazardsB <= 15 && t.hazardsA + t.hazardsB <= |Hazards(bd)|
            && 0 <= now.a.block && 0 <= now.b.block && now.a.block + now.b.block <= 1
            && g.start.hpA - now.a.hp == t.hazardsA + t.damageToA
            && g.start.hpB - now.b.hp == t.hazardsB + t.damageToB
  {
    hide Initial, Turn, Note, Running, TileAt;
    var now := After(bd, g, Initial(bd, g, seed), n);
    var t := TallyAfter(bd, g, seed, n);
    FightKeepsInvariant(bd, g, seed, n);
    TrackedGeometry(now, t);
    HazardsAtMostTiles(bd, t.entered);
    forall p | p in HazardsAmong(bd, t.entered) ensures p in Hazards(bd) {
      assert p == Pos(p.x, p.y);
    }
    SubsetSize(HazardsAmong(bd, t.entered), Hazards(bd));
  }
}
