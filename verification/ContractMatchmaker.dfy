/** The on-chain matchmaker: `_fight` plays the same duel as the animator, and `enqueue` keeps
    a head-index queue whose entries are matched in arrival order, two at a time. */
module ContractMatchmaker {
  import opened Duel
  import opened Xorshift32
  import opened Creatures

  datatype Stats = Stats(power: int, defense: int, stamina: int, id: bv32)

  datatype Request = Request(owner: int, stats: Stats)

  /** What `ledger.record` is given. */
  datatype Result = Result(creatureA: bv32, creatureB: bv32, winner: bv32)

  function SetupOfStats(a: Stats, b: Stats): Setup {
    Setup(a.id, b.id, a.power, b.power, Score(a.defense, b.defense, a.stamina, b.stamina))
  }

  /** `w` is the winner of the duel: the leader when the loop leaves. */
  ghost predicate Wins(a: Stats, b: Stats, seed: bv32, w: bv32) {
    var g := SetupOfStats(a, b);
    exists n: nat :: EndsAt(g, Start(g, seed), n) && w == Winner(g, After(g, Start(g, seed), n).score)
  }

  /** The contract's loop over int256 locals; `requires` is exactly when it ends. */
  method Fight(a: Stats, b: Stats, seed: bv32) returns (w: bv32)
    requires !RunsForever(SetupOfStats(a, b), Start(SetupOfStats(a, b), seed))
    ensures Wins(a, b, seed, w)
  {
    hide Step, Odd, EffectiveSeed;
    ghost var g := SetupOfStats(a, b);
    ghost var st := Start(g, seed);
    EndsExactly(g, st);
    ghost var end: nat :| EndsAt(g, st, end);
    var state := EffectiveSeed(a.id, b.id, seed);
    var hpA, hpB, staA, staB := a.defense, b.defense, a.stamina, b.stamina;
    state := Step(state);
    var turn := Odd(state);
    ghost var passes := 0;
    while hpA > 0 && hpB > 0 && (staA > 0 || staB > 0)
      invariant 0 <= passes <= end
      invariant After(g, st, passes) == State(state, Score(hpA, hpB, staA, staB)) && turn == Odd(state)
      decreases end - passes
    {
      AfterLast(g, st, passes);
      if turn && staA > 0 {
        hpB := hpB - a.power;
        staA := staA - 1;
      } else if !turn && staB > 0 {
        hpA := hpA - b.power;
        staB := staB - 1;
      }
      state := Step(state);
      turn := Odd(state);
      passes := passes + 1;
    }
    w := if hpA >= hpB then a.id else b.id;
  }

  /** The contract and the animator agree on the winner of the same stats and seed. */
  lemma SameWinnerAsAnimator(a: Stats, b: Stats, c: CreatureStats, d: CreatureStats, seed: bv32, passes: nat, w: bv32)
    requires a.id == c.id && a.power == Total(c, Power) && a.defense == Total(c, Defense)
    requires a.stamina == Total(c, Stamina)
    requires b.id == d.id && b.power == Total(d, Power) && b.defense == Total(d, Defense)
    requires b.stamina == Total(d, Stamina)
    requires EndsAt(SetupOf(c, d), Start(SetupOf(c, d), seed), passes)
    requires Wins(a, b, seed, w)
    ensures w == Winner(SetupOf(c, d), After(SetupOf(c, d), Start(SetupOf(c, d), seed), passes).score)
  {
    var g := SetupOf(c, d);
    SetupKeepsSides(c, d);
    var n: nat :| EndsAt(g, Start(g, seed), n) && w == Winner(g, After(g, Start(g, seed), n).score);
    EndIsUnique(g, Start(g, seed), n, passes);
  }

  class Matchmaker {
    var queue: seq<Request>
    var head: nat
    var results: seq<Result>

    /** At most one creature waits, and the k-th recorded match is the duel between the
        requests 2k and 2k + 1 of the queue. */
    ghost predicate Valid()
      reads this
    {
      && head == 2 * |results|
      && head <= |queue| <= head + 1
      && forall k | 0 <= k < |results| ::
           var a, b := queue[2 * k].stats, queue[2 * k + 1].stats;
           && results[k].creatureA == a.id && results[k].creatureB == b.id
           && Wins(a, b, 0, results[k].winner)
    }

    constructor ()
      ensures Valid() && queue == [] && results == []
    {
      queue, head, results := [], 0, [];
    }

    function Pending(): nat
      requires head <= |queue|
      reads this
    {
      |queue| - head
    }

    /** Join the queue.  A match that would never end runs out of gas and the call reverts, so
        `ok` is false and nothing changes; otherwise the request is queued, and if somebody was
        already waiting the match is played and recorded. */
    method Enqueue(sender: int, id: bv32, power: int, defense: int, stamina: int) returns (ok: bool)
      requires Valid()
      modifies this
      ensures Valid()
      ensures ok <==> old(Pending()) == 0 ||
                      !RunsForever(SetupOfStats(old(queue[head].stats), Stats(power, defense, stamina, id)),
                                   Start(SetupOfStats(old(queue[head].stats), Stats(power, defense, stamina, id)), 0))
      ensures ok ==> queue == old(queue) + [Request(sender, Stats(power, defense, stamina, id))]
      ensures ok ==> Pending() == 1 - old(Pending())
      ensures ok ==> old(results) <= results && |results| == old(|results|) + old(Pending())
      ensures !ok ==> queue == old(queue) && head == old(head) && results == old(results)
    {
      hide Xorshift32.Step, Xorshift32.Odd, RunsForever, Wins;
      var entry := Request(sender, Stats(power, defense, stamina, id));
      if |queue| - head == 1 {
        var g := SetupOfStats(queue[head].stats, entry.stats);
        if RunsForever(g, Start(g, 0)) {
          return false;
        }
      }
      queue := queue + [entry];
      if |queue| - head >= 2 {
        RunMatch();
      }
      ok := true;
    }

    method RunMatch()
      requires head + 2 == |queue| && head == 2 * |results|
      requires forall k | 0 <= k < |results| ::
                 var a, b := queue[2 * k].stats, queue[2 * k + 1].stats;
                 && results[k].creatureA == a.id && results[k].creatureB == b.id
                 && Wins(a, b, 0, results[k].winner)
      requires var g := SetupOfStats(queue[head].stats, queue[head + 1].stats); !RunsForever(g, Start(g, 0))
      modifies this
      ensures Valid() && queue == old(queue) && head == old(head) + 2
      ensures old(results) <= results && |results| == old(|results|) + 1
    {
      hide Xorshift32.Step, Xorshift32.Odd, RunsForever, Wins;
      var a := queue[head].stats;
      head := head + 1;
      var b := queue[head].stats;
      head := head + 1;
      var winner := Fight(a, b, 0);
      results := results + [Result(a.id, b.id, winner)];
    }
  }
}
