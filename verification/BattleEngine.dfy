/** The battle engine and the FIFO matchmaker as the source writes them, proved against the
    turn machine of module Grid. */
module BattleEngine {
  import opened Basics
  import opened Creatures
  import opened Grid

  class Engine {
    /** The 8×8 tiles, tile (x, y) at index 8x + y. */
    const tiles: array<Tile>

    ghost predicate Valid()
    {
      tiles.Length == 64
    }

    constructor ()
      ensures Valid() && fresh(tiles)
      ensures forall i | 0 <= i < 64 :: tiles[i] == EMPTY
    {
      tiles := new Tile[64];
      new;
      ClearBoard();
    }

    method ClearBoard()
      requires Valid()
      modifies tiles
      ensures forall i | 0 <= i < 64 :: tiles[i] == EMPTY
    {
      for x := 0 to 8
        invariant forall i | 0 <= i < 8 * x :: tiles[i] == EMPTY
      {
        for y := 0 to 8
          invariant forall i | 0 <= i < 8 * x + y :: tiles[i] == EMPTY
        {
          tiles[8 * x + y] := EMPTY;
        }
      }
    }

    /** Out-of-range coordinates are ignored. */
    method SetTile(x: int, y: int, t: Tile)
      requires Valid()
      modifies tiles
      ensures tiles[..] == if OnBoard(Pos(x, y)) then old(tiles[..])[8 * x + y := t] else old(tiles[..])
    {
      if 0 <= x < 8 && 0 <= y < 8 {
        tiles[8 * x + y] := t;
      }
    }

    method ReadTile(x: int, y: int) returns (t: Tile)
      requires Valid()
      ensures t == TileAt(tiles[..], Pos(x, y))
    {
      if 0 <= x < 8 && 0 <= y < 8 {
        return tiles[8 * x + y];
      }
      t := WALL;
    }

    method TryMove(nx: int, ny: int) returns (moved: bool, lost: int)
      requires Valid()
      ensures moved <==> TileAt(tiles[..], Pos(nx, ny)) != WALL
      ensures moved ==> lost == HazardLoss(tiles[..], Pos(nx, ny))
      ensures !moved ==> lost == 0
    {
      lost := 0;
      if nx < 0 || nx >= 8 || ny < 0 || ny >= 8 {
        return false, 0;
      }
      if tiles[8 * nx + ny] == WALL {
        return false, 0;
      }
      if tiles[8 * nx + ny] == HAZARD {
        lost := 1;
      }
      moved := true;
    }

    method WalkTowards(from: Pos, to: Pos, hp: int) returns (at: Pos, left: int)
      requires Valid()
      ensures match StepTowards(tiles[..], from, to)
              case None => at == from && left == hp
              case Some(p) => at == p && left == hp - HazardLoss(tiles[..], p)
    {
      hide TileAt, HazardLoss;
      at, left := from, hp;
      var dx, dy := 0, 0;
      if from.x < to.x {
        dx := 1;
      } else if from.x > to.x {
        dx := -1;
      } else if from.y < to.y {
        dy := 1;
      } else if from.y > to.y {
        dy := -1;
      }
      var moved, lost := TryMove(from.x + dx, from.y + dy);
      if moved {
        return Pos(from.x + dx, from.y + dy), hp - lost;
      }
      if dx != 0 && from.y != to.y {
        var ny := from.y + if from.y < to.y then 1 else -1;
        moved, lost := TryMove(from.x, ny);
        if moved {
          at, left := Pos(from.x, ny), hp - lost;
        }
      } else if dy != 0 && from.x != to.x {
        var nx := from.x + if from.x < to.x then 1 else -1;
        moved, lost := TryMove(nx, from.y);
        if moved {
          at, left := Pos(nx, from.y), hp - lost;
        }
      }
    }

    /** What one turn does, case by case. */
    static lemma TurnCases(bd: Board, g: Setup, a: Side, b: Side)
      ensures Distance(a.pos, b.pos) <= 1 && a.sta > 0 ==>
                Turn(bd, g, State(a, b, true)) == State(a.(sta := a.sta - 1), Struck(b, g.powA), false)
      ensures Distance(a.pos, b.pos) <= 1 && a.sta <= 0 ==>
                Turn(bd, g, State(a, b, true)) == State(a.(block := a.block + 1), b, false)
      ensures Distance(a.pos, b.pos) > 1 ==>
                Turn(bd, g, State(a, b, true)) == State(Walked(bd, a, b.pos), b, false)
      ensures Distance(a.pos, b.pos) <= 1 && b.sta > 0 ==>
                Turn(bd, g, State(a, b, false)) == State(Struck(a, g.powB), b.(sta := b.sta - 1), true)
      ensures Distance(a.pos, b.pos) <= 1 && b.sta <= 0 ==>
                Turn(bd, g, State(a, b, false)) == State(a, b.(block := b.block + 1), true)
      ensures Distance(a.pos, b.pos) > 1 ==>
                Turn(bd, g, State(a, b, false)) == State(a, Walked(bd, b, a.pos), true)
    {
      hide StepTowards, NetDamage, HazardLoss;
    }

    static ghost function Struck(me: Side, power: int): Side {
      me.(hp := me.hp - NetDamage(power, me.block), block := if me.block > 0 then 0 else me.block)
    }

    static lemma HazardLossIs(bd: Board, p: Pos)
      ensures HazardLoss(bd, p) == if TileAt(bd, p) == HAZARD then 1 else 0
    {
      hide TileAt;
    }

    static ghost function Walked(bd: Board, me: Side, to: Pos): Side {
      match StepTowards(bd, me.pos, to)
      case None => me
      case Some(p) => me.(pos := p, hp := me.hp - HazardLoss(bd, p))
    }

    static lemma NotYet(bd: Board, g: Setup, st: State, end: nat, turns: nat)
      requires EndsAt(bd, g, st, end) && turns <= end
      ensures Running(After(bd, g, st, turns)) ==> turns < end
      ensures !Running(After(bd, g, st, turns)) ==> turns == end
    {
      hide Running;
    }

    /** `winner` leads in the first state in which the fight stops; `WinnerIsUnique`. */
    static ghost predicate WinsFight(bd: Board, g: Setup, seed: bv32, winner: bv32) {
      exists n: nat :: WinsAt(bd, g, Initial(bd, g, seed), n, winner)
    }

    static ghost predicate WinsAt(bd: Board, g: Setup, st: State, n: nat, winner: bv32) {
      EndsAt(bd, g, st, n) && winner == Winner(g, ScoreOf(After(bd, g, st, n)))
    }

    static lemma WinnerIsUnique(bd: Board, g: Setup, seed: bv32, winner: bv32, other: bv32)
      requires WinsFight(bd, g, seed, winner) && WinsFight(bd, g, seed, other)
      ensures winner == other
    {
      var st := Initial(bd, g, seed);
      var n: nat :| WinsAt(bd, g, st, n, winner);
      var m: nat :| WinsAt(bd, g, st, m, other);
      EndIsUnique(bd, g, st, n, m);
    }

    /** The fight loop.  `requires` is exactly the condition under which it ends
        (`Grid.EndsExactly`); the winner is the leader in the first state where it stops. */
    method Fight(a: CreatureStats, b: CreatureStats, seed: bv32) returns (winner: bv32)
      requires Valid()
      requires !Stalls(tiles[..], SetupOf(a, b), seed)
      ensures WinsFight(tiles[..], SetupOf(a, b), seed, winner)
    {
      hide StepTowards, TileAt, EffectiveSeed, Turn, HazardLoss, EndsAt, Stalls;
      ghost var bd: Board := tiles[..];
      ghost var g := SetupOf(a, b);
      ghost var st := Initial(bd, g, seed);
      ghost var end := EndsUnlessStalled(bd, g, seed);
      var posA, posB := Pos(0, 0), Pos(7, 7);
      var powA := ComputeTotal(a, Power);
      var powB := ComputeTotal(b, Power);
      var hpA := ComputeTotal(a, Defense);
      var hpB := ComputeTotal(b, Defense);
      var staA := ComputeTotal(a, Stamina);
      var staB := ComputeTotal(b, Stamina);
      var s := EffectiveSeed(a.id, b.id, seed);
      var aTurn := s & 1 == 0;
      var tile := ReadTile(posA.x, posA.y);
      if tile == HAZARD {
        hpA := hpA - 1;
      }
      tile := ReadTile(posB.x, posB.y);
      if tile == HAZARD {
        hpB := hpB - 1;
      }
      HazardLossIs(bd, CORNER_A);
      HazardLossIs(bd, CORNER_B);
      var blockA, blockB := 0, 0;
      ghost var turns: nat := 0;
      while hpA > 0 && hpB > 0 && (staA > 0 || staB > 0)
        invariant turns <= end
        invariant After(bd, g, st, turns) == State(Side(posA, hpA, staA, blockA), Side(posB, hpB, staB, blockB), aTurn)
        decreases end - turns
      {
        NotYet(bd, g, st, end, turns);
        TurnCases(bd, g, Side(posA, hpA, staA, blockA), Side(posB, hpB, staB, blockB));
        if aTurn {
          if Distance(posA, posB) <= 1 {
            if staA > 0 {
              var dmg := powA;
              if blockB > 0 {
                dmg := dmg - blockB;
                if dmg < 0 {
                  dmg := 0;
                }
                blockB := 0;
              }
              hpB := hpB - dmg;
              staA := staA - 1;
            } else {
              blockA := blockA + 1;
            }
          } else {
            posA, hpA := WalkTowards(posA, posB, hpA);
          }
        } else {
          if Distance(posA, posB) <= 1 {
            if staB > 0 {
              var dmg := powB;
              if blockA > 0 {
                dmg := dmg - blockA;
                if dmg < 0 {
                  dmg := 0;
                }
                blockA := 0;
              }
              hpA := hpA - dmg;
              staB := staB - 1;
            } else {
              blockB := blockB + 1;
            }
          } else {
            posB, hpB := WalkTowards(posB, posA, hpB);
          }
        }
        aTurn := !aTurn;
        turns := turns + 1;
      }
      NotYet(bd, g, st, end, turns);
      winner := if hpA >= hpB then a.id else b.id;
      assert WinsAt(bd, g, st, turns, winner);
    }
  }

  datatype MatchResult = MatchResult(battleId: nat, winner: bv32, loser: bv32)

  /** The in-memory FIFO matchmaker, with the optional ledger it records results in. */
  class Matchmaker {
    const engine: Engine
    const hasLedger: bool
    var queue: seq<CreatureStats>
    var results: seq<MatchResult>

    constructor (engine: Engine, hasLedger: bool)
      ensures this.engine == engine && this.hasLedger == hasLedger && queue == [] && results == []
    {
      this.engine, this.hasLedger := engine, hasLedger;
      queue, results := [], [];
    }

    method Enqueue(creature: CreatureStats)
      modifies this`queue
      ensures queue == old(queue) + [creature]
    {
      queue := queue + [creature];
    }

    /** Fight the two that waited longest; with fewer than two nothing happens. */
    method TryMatch(seed: bv32) returns (winner: Option<bv32>)
      requires engine.Valid()
      requires |queue| >= 2 ==> !Stalls(engine.tiles[..], SetupOf(queue[0], queue[1]), seed)
      modifies this`queue, this`results
      ensures winner == None <==> old(|queue|) < 2
      ensures old(|queue|) < 2 ==> queue == old(queue) && results == old(results)
      ensures old(|queue|) >= 2 ==>
                var a, b := old(queue[0]), old(queue[1]);
                && queue == old(queue)[2..]
                && Engine.WinsFight(engine.tiles[..], SetupOf(a, b), seed, winner.value)
                && results == old(results) +
                     if hasLedger then [MatchResult(old(|results|) + 1, winner.value,
                                                    if winner.value == a.id then b.id else a.id)]
                     else []
    {
      hide Stalls, SetupOf, Engine.WinsFight;
      if |queue| < 2 {
        return None;
      }
      var a := queue[0];
      queue := queue[1..];
      var b := queue[0];
      queue := queue[1..];
      var w := engine.Fight(a, b, seed);
      if hasLedger {
        var loser := if w == a.id then b.id else a.id;
        results := results + [MatchResult(|results| + 1, w, loser)];
      }
      winner := Some(w);
    }
  }
}
