/** The random-turn duel: `BattleAnimator` records and replays it, and the contract's `_fight`
    plays it again.  The xorshift32 generator decides whose turn it is. */
module Duel {
  import opened Basics
  import opened Creatures
  import opened Xorshift32

  // ---------------------------------------------------------------- the game

  datatype State = State(rng: bv32, score: Score)

  datatype Frame = Frame(attackerIsA: bool, score: Score)

  /** The state at the loop head: one number has been drawn for the first turn bit. */
  function Start(g: Setup, seed: bv32): State {
    State(Step(EffectiveSeed(g.idA, g.idB, seed)), g.start)
  }

  function Strike(g: Setup, s: Score, byA: bool): Score {
    if byA then s.(hpB := s.hpB - g.powA, staA := s.staA - 1)
    else s.(hpA := s.hpA - g.powB, staB := s.staB - 1)
  }

  /** The side whose turn bit was drawn still has stamina. */
  predicate Strikes(st: State) {
    if Odd(st.rng) then st.score.staA > 0 else st.score.staB > 0
  }

  /** One pass through the loop body. */
  function Turn(g: Setup, st: State): State {
    State(Step(st.rng), if Strikes(st) then Strike(g, st.score, Odd(st.rng)) else st.score)
  }

  function After(g: Setup, st: State, n: nat): State
    decreases n
  {
    if n == 0 then st else After(g, Turn(g, st), n - 1)
  }

  /** The frames pushed by the first n passes. */
  function Frames(g: Setup, st: State, n: nat): seq<Frame>
    decreases n
  {
    if n == 0 then []
    else
      (if Strikes(st) then [Frame(Odd(st.rng), Turn(g, st).score)] else []) + Frames(g, Turn(g, st), n - 1)
  }

  /** The loop leaves after exactly n passes. */
  ghost predicate EndsAt(g: Setup, st: State, n: nat) {
    !Live(After(g, st, n).score) && forall k | 0 <= k < n :: Live(After(g, st, k).score)
  }

  lemma {:induction false} AfterLast(g: Setup, st: State, n: nat)
    ensures After(g, st, n + 1) == Turn(g, After(g, st, n))
    decreases n
  {
    hide Step, Odd;
    if n > 0 {
      AfterLast(g, Turn(g, st), n - 1);
    }
  }

  lemma {:induction false} FramesLast(g: Setup, st: State, n: nat)
    ensures Frames(g, st, n + 1)
         == Frames(g, st, n) + (var last := After(g, st, n);
                                if Strikes(last) then [Frame(Odd(last.rng), Turn(g, last).score)] else [])
    decreases n
  {
    hide Step, Odd, Strike;
    if n > 0 {
      FramesLast(g, Turn(g, st), n - 1);
    } else {
      assert Frames(g, Turn(g, st), 0) == [];
    }
  }

  lemma EndIsUnique(g: Setup, st: State, n: nat, m: nat)
    requires EndsAt(g, st, n) && EndsAt(g, st, m)
    ensures n == m
  {
    assert n < m ==> Live(After(g, st, n).score);
    assert m < n ==> Live(After(g, st, m).score);
  }

  // ---------------------------------------------------------------- termination

  /** Strikes both sides can still make. */
  function StaminaLeft(s: Score): nat {
    Positive(s.staA) + Positive(s.staB)
  }

  /** If the turn bit i draws ahead suits a side with stamina, a strike comes by then, and
      nothing but the generator moves before it. */
  lemma {:induction false} WaitForStrike(g: Setup, st: State, i: nat) returns (m: nat)
    requires if Odd(Iterate(st.rng, i)) then st.score.staA > 0 else st.score.staB > 0
    ensures m <= i
    ensures forall k | 0 <= k <= m :: After(g, st, k).score == st.score
    ensures Strikes(After(g, st, m)) && After(g, st, m).rng == Iterate(st.rng, m)
    decreases i
  {
    hide Step, Odd;
    if Strikes(st) {
      m := 0;
    } else {
      assert i > 0;
      IterateFromStep(st.rng, i - 1);
      m := WaitForStrike(g, Turn(g, st), i - 1);
      IterateFromStep(st.rng, m);
      forall k | 0 <= k <= m + 1 ensures After(g, st, k).score == st.score {
        if k > 0 {
          assert After(g, st, k) == After(g, Turn(g, st), k - 1);
        }
      }
      m := m + 1;
    }
  }

  lemma {:induction false} AfterSum(g: Setup, st: State, m: nat, n: nat)
    ensures After(g, st, m + n) == After(g, After(g, st, m), n)
    decreases m
  {
    hide Step, Odd, Turn;
    if m > 0 {
      AfterSum(g, Turn(g, st), m - 1, n);
    }
  }

  lemma {:induction false} EndsLater(g: Setup, st: State, m: nat, n: nat)
    requires forall k | 0 <= k < m :: Live(After(g, st, k).score)
    requires EndsAt(g, After(g, st, m), n)
    ensures EndsAt(g, st, m + n)
  {
    AfterSum(g, st, m, n);
    forall k | m <= k < m + n ensures Live(After(g, st, k).score) {
      AfterSum(g, st, m, k - m);
    }
  }

  /** From a non-zero generator state the duel ends within 33 passes per point of stamina. */
  lemma {:induction false} EndsFromNonZero(g: Setup, st: State) returns (n: nat)
    requires st.rng != 0
    ensures EndsAt(g, st, n) && n <= 33 * StaminaLeft(st.score)
    decreases StaminaLeft(st.score)
  {
    hide Step, Odd;
    if !Live(st.score) {
      n := 0;
    } else {
      var i := ParityWindow(st.rng, st.score.staA > 0);
      var m := WaitForStrike(g, st, i);
      AfterLast(g, st, m);
      var next := After(g, st, m + 1);
      assert next.rng == Iterate(st.rng, m + 1);
      ZeroIsIsolated(st.rng, m + 1);
      assert StaminaLeft(next.score) == StaminaLeft(st.score) - 1;
      n := EndsFromNonZero(g, next);
      EndsLater(g, st, m + 1, n);
      n := m + 1 + n;
    }
  }

  /** The one way to loop forever: the generator is stuck at 0, so only B ever acts, and B
      cannot bring A down while A keeps stamina it will never be asked to spend. */
  predicate RunsForever(g: Setup, st: State) {
    && st.rng == 0
    && st.score.hpB > 0 && st.score.staA > 0
    && st.score.hpA > 0 && st.score.hpA - Positive(st.score.staB) * g.powB > 0
  }

  lemma {:induction false} EndsFromZero(g: Setup, st: State) returns (n: nat)
    requires st.rng == 0 && !RunsForever(g, st)
    ensures EndsAt(g, st, n) && n <= Positive(st.score.staB)
    decreases Positive(st.score.staB)
  {
    if !Live(st.score) {
      n := 0;
    } else {
      ZeroTurn(g, st);
      assert st.score.staB > 0;
      var next := Turn(g, st);
      assert Positive(st.score.staB) * g.powB == Positive(next.score.staB) * g.powB + g.powB;
      n := EndsFromZero(g, next);
      assert After(g, st, 1) == next;
      EndsLater(g, st, 1, n);
      n := 1 + n;
    }
  }

  lemma ZeroTurn(g: Setup, st: State)
    requires st.rng == 0
    ensures Turn(g, st)
         == State(0, if st.score.staB > 0 then Strike(g, st.score, false) else st.score)
  {
    StepOfZero();
    ZeroIsEven();
  }

  lemma {:induction false} ForeverStays(g: Setup, st: State, n: nat)
    requires RunsForever(g, st)
    ensures RunsForever(g, After(g, st, n)) && Live(After(g, st, n).score)
    decreases n
  {
    if n > 0 {
      ZeroTurn(g, st);
      var next := Turn(g, st);
      if st.score.staB > 0 {
        assert Positive(st.score.staB) * g.powB == Positive(next.score.staB) * g.powB + g.powB;
        BetweenEnds(st.score.hpA, st.score.staB, g.powB);
      }
      ForeverStays(g, next, n - 1);
    }
  }

  /** Health that is positive before and after k equal blows is positive after the first. */
  lemma BetweenEnds(hp: int, k: nat, pow: int)
    requires k > 0 && hp > 0 && hp - k * pow > 0
    ensures hp - pow > 0
  {
    if pow > 0 {
      assert k * pow >= pow;
    }
  }

  /** The duel ends exactly when it is not in the one endless family. */
  lemma EndsExactly(g: Setup, st: State)
    ensures (exists n: nat :: EndsAt(g, st, n)) <==> !RunsForever(g, st)
  {
    if RunsForever(g, st) {
      forall n: nat ensures !EndsAt(g, st, n) {
        ForeverStays(g, st, n);
      }
    } else if st.rng == 0 {
      var n := EndsFromZero(g, st);
    } else {
      var n := EndsFromNonZero(g, st);
    }
  }

  /** What a caller can check: a duel is endless exactly when ids are equal and the seed is 0, A
      has health and stamina, B has health, and all of B's blows together leave A standing. */
  lemma EndlessExactly(g: Setup, seed: bv32)
    ensures (forall n: nat :: !EndsAt(g, Start(g, seed), n))
       <==> && g.idA == g.idB && seed == 0
            && g.start.hpA > 0 && g.start.hpB > 0 && g.start.staA > 0
            && g.start.hpA - Positive(g.start.staB) * g.powB > 0
  {
    hide EndsAt;
    var s := EffectiveSeed(g.idA, g.idB, seed);
    ZeroSeedMeansSameId(g.idA, g.idB, seed);
    assert Iterate(s, 1) == Step(Iterate(s, 0));
    ZeroIsIsolated(s, 1);
    EndsExactly(g, Start(g, seed));
  }

  /** A duel between different ids always ends, whatever the seed, within 33 passes per point
      of stamina: its generator state is never 0. */
  lemma DistinctIdsEnd(g: Setup, seed: bv32) returns (n: nat)
    requires g.idA != g.idB || seed != 0
    ensures EndsAt(g, Start(g, seed), n) && n <= 33 * StaminaLeft(g.start)
  {
    var s := EffectiveSeed(g.idA, g.idB, seed);
    ZeroSeedMeansSameId(g.idA, g.idB, seed);
    assert Iterate(s, 1) == Step(Iterate(s, 0));
    ZeroIsIsolated(s, 1);
    n := EndsFromNonZero(g, Start(g, seed));
  }

  // ---------------------------------------------------------------- what a run keeps

  /** One frame is recorded for every point of stamina spent. */
  lemma {:induction false} FramesCountStamina(g: Setup, st: State, n: nat)
    ensures var last := After(g, st, n).score;
            |Frames(g, st, n)| == (st.score.staA - last.staA) + (st.score.staB - last.staB)
    decreases n
  {
    hide Step, Odd;
    if n > 0 {
      FramesCountStamina(g, Turn(g, st), n - 1);
    }
  }

  predicate FitsInt32(s: Score) {
    Int32(s.hpA) && Int32(s.hpB) && Int32(s.staA) && Int32(s.staB)
  }

  /** With non-negative power no value computed by a run leaves the 32-bit range: a blow is
      struck only at positive health, and stamina only counts down to 0. */
  lemma {:induction false} RunFitsInt32(g: Setup, st: State, n: nat)
    requires 0 <= g.powA < 0x8000_0000 && 0 <= g.powB < 0x8000_0000 && FitsInt32(st.score)
    requires forall k | 0 <= k < n :: Live(After(g, st, k).score)
    ensures FitsInt32(After(g, st, n).score)
    decreases n
  {
    hide Step, Odd;
    if n > 0 {
      assert Live(After(g, st, 0).score);
      forall k | 0 <= k < n - 1 ensures Live(After(g, Turn(g, st), k).score) {
        assert After(g, st, k + 1) == After(g, Turn(g, st), k);
      }
      RunFitsInt32(g, Turn(g, st), n - 1);
    }
  }

  // ---------------------------------------------------------------- where the turns come from

  /** The generator of a run starts from the caller's seed, or from the exclusive or of the ids
      when the seed is 0: pass k acts on the (k+1)-th draw from that word. */
  lemma {:induction false} DrawsFromSeed(g: Setup, seed: bv32, word: bv32, k: nat)
    requires word == if seed != 0 then seed else g.idA ^ g.idB
    ensures After(g, Start(g, seed), k).rng == Iterate(word, k + 1)
    decreases k
  {
    hide Step;
    if k == 0 {
      assert Iterate(word, 1) == Step(Iterate(word, 0));
    } else {
      DrawsFromSeed(g, seed, word, k - 1);
      AfterLast(g, Start(g, seed), k - 1);
    }
  }

  /** What pass k does: the side that the low bit of that draw names, A for 1, strikes if it has
      stamina, spending a point of it for its power in the other's health. */
  lemma PassOfRun(g: Setup, seed: bv32, word: bv32, k: nat)
    requires word == if seed != 0 then seed else g.idA ^ g.idB
    ensures var now, next := After(g, Start(g, seed), k).score, After(g, Start(g, seed), k + 1).score;
            var forA := Iterate(word, k + 1) & 1 == 1;
            && (forA && now.staA > 0 ==> next == Score(now.hpA, now.hpB - g.powA, now.staA - 1, now.staB))
            && (!forA && now.staB > 0 ==> next == Score(now.hpA - g.powB, now.hpB, now.staA, now.staB - 1))
            && (!(forA && now.staA > 0) && !(!forA && now.staB > 0) ==> next == now)
  {
    hide Iterate, Step, EffectiveSeed;
    DrawsFromSeed(g, seed, word, k);
    AfterLast(g, Start(g, seed), k);
    OddIsLowBit(Iterate(word, k + 1));
  }

  lemma OddIsLowBit(x: bv32)
    ensures Odd(x) <==> x & 1 == 1
  {}

  /** A run starts from the numbers it is given; without stamina on either side it is over at once,
      without frames, and the healthier creature has won, A on equal health. */
  lemma TiredDuel(g: Setup, seed: bv32)
    ensures After(g, Start(g, seed), 0).score == g.start && Frames(g, Start(g, seed), 0) == []
    ensures g.start.staA <= 0 && g.start.staB <= 0 ==>
              && EndsAt(g, Start(g, seed), 0)
              && Winner(g, After(g, Start(g, seed), 0).score) == if g.start.hpA >= g.start.hpB then g.idA else g.idB
  {}

  /** A side that strikes last and fells the other has won. */
  lemma FellingWins(g: Setup, s: Score)
    ensures s.hpA > 0 >= s.hpB ==> Winner(g, s) == g.idA
    ensures s.hpB > 0 >= s.hpA ==> Winner(g, s) == g.idB
  {}

  // ---------------------------------------------------------------- replay

  /** The score after k frames if each frame's attacker simply strikes. */
  function Recomputed(g: Setup, frames: seq<Frame>, k: nat): Score
    requires k <= |frames|
    decreases k
  {
    if k == 0 then g.start else Strike(g, Recomputed(g, frames, k - 1), frames[k - 1].attackerIsA)
  }

  /** Frame k is what the duel would have recorded at this point. */
  predicate Agrees(g: Setup, frames: seq<Frame>, k: nat)
    requires k < |frames|
  {
    && (if frames[k].attackerIsA then Recomputed(g, frames, k).staA > 0 else Recomputed(g, frames, k).staB > 0)
    && frames[k].score == Recomputed(g, frames, k + 1)
  }

  /** The replay loop looks at frame k: no earlier frame reached a finished score. */
  predicate Reaches(g: Setup, frames: seq<Frame>, k: nat)
    requires k <= |frames|
  {
    forall j | 0 < j <= k :: Live(Recomputed(g, frames, j))
  }

  /** Where the replay loop stops if every frame it looks at agrees. */
  ghost predicate StopsAt(g: Setup, frames: seq<Frame>, m: nat)
    requires m <= |frames|
  {
    && (m > 0 ==> Reaches(g, frames, m - 1))
    && (m == |frames| || (m > 0 && !Live(Recomputed(g, frames, m))))
  }

  /** What `replay` returns, said without its loop: 0 when a frame it looks at disagrees,
      otherwise the leader at the first finished score (or at the end of the frames). */
  ghost predicate ReplayAnswer(g: Setup, frames: seq<Frame>, w: bv32) {
    if exists k | 0 <= k < |frames| :: Reaches(g, frames, k) && !Agrees(g, frames, k)
    then w == 0
    else exists m | 0 <= m <= |frames| :: StopsAt(g, frames, m) && w == Winner(g, Recomputed(g, frames, m))
  }

  lemma StopIsUnique(g: Setup, frames: seq<Frame>, m: nat, m': nat)
    requires m <= |frames| && m' <= |frames| && StopsAt(g, frames, m) && StopsAt(g, frames, m')
    ensures m == m'
  {}

  lemma ReplayStart(g: Setup, frames: seq<Frame>)
    ensures Recomputed(g, frames, 0) == g.start && Reaches(g, frames, 0)
    ensures frames == [] ==> StopsAt(g, frames, 0)
  {}

  /** What the loop learns from frame k. */
  lemma ReplayStep(g: Setup, frames: seq<Frame>, k: nat)
    requires k < |frames| && Reaches(g, frames, k)
    ensures var now, next := Recomputed(g, frames, k), Recomputed(g, frames, k + 1);
            && next == Strike(g, now, frames[k].attackerIsA)
            && (Agrees(g, frames, k) <==>
                  (if frames[k].attackerIsA then now.staA > 0 else now.staB > 0) && frames[k].score == next)
            && (Live(next) ==> Reaches(g, frames, k + 1))
            && (!Live(next) || k + 1 == |frames| ==> StopsAt(g, frames, k + 1))
    ensures !Agrees(g, frames, k) ==> ReplayAnswer(g, frames, 0)
  {
    hide Strike;
  }

  lemma ReplayStops(g: Setup, frames: seq<Frame>, m: nat)
    requires m <= |frames| && StopsAt(g, frames, m) && forall k | 0 <= k < m :: Agrees(g, frames, k)
    ensures ReplayAnswer(g, frames, Winner(g, Recomputed(g, frames, m)))
  {
    if m < |frames| {
      assert !Live(Recomputed(g, frames, m));
    }
  }

  /** With non-zero ids `replay` answers 0 exactly when some frame, up to the first finished
      score, is not what the duel would have recorded. */
  lemma ReplayRejectsExactly(g: Setup, frames: seq<Frame>, w: bv32)
    requires g.idA != 0 && g.idB != 0 && ReplayAnswer(g, frames, w)
    ensures w == 0 <==> exists k | 0 <= k < |frames| :: Reaches(g, frames, k) && !Agrees(g, frames, k)
  {}

  /** The frames of n passes recompute to the scores the run went through. */
  lemma {:induction false} RecordedFramesAgree(g: Setup, st: State, n: nat)
    requires st.score == g.start
    requires forall k | 0 <= k < n :: Live(After(g, st, k).score)
    ensures var fs := Frames(g, st, n);
            && Recomputed(g, fs, |fs|) == After(g, st, n).score
            && (forall k | 0 <= k < |fs| :: Agrees(g, fs, k))
            && (forall j | 0 <= j < |fs| :: Live(Recomputed(g, fs, j)))
    decreases n
  {
    hide Step, Odd, Strike;
    if n > 0 {
      RecordedFramesAgree(g, st, n - 1);
      AfterLast(g, st, n - 1);
      FramesLast(g, st, n - 1);
      var before := After(g, st, n - 1);
      var fs, gs := Frames(g, st, n - 1), Frames(g, st, n);
      if Strikes(before) {
        forall k | 0 <= k <= |fs| ensures Recomputed(g, gs, k) == Recomputed(g, fs, k) {
          RecomputedPrefix(g, fs, gs, k);
        }
        forall k | 0 <= k < |gs| ensures Agrees(g, gs, k) {
          assert k < |fs| ==> Agrees(g, fs, k);
        }
      } else {
        assert gs == fs;
      }
    }
  }

  lemma {:induction false} RecomputedPrefix(g: Setup, fs: seq<Frame>, gs: seq<Frame>, k: nat)
    requires k <= |fs| && fs <= gs
    ensures Recomputed(g, gs, k) == Recomputed(g, fs, k)
    decreases k
  {
    if k > 0 {
      RecomputedPrefix(g, fs, gs, k - 1);
    }
  }

  /** Round trip: replaying the frames of a finished run answers that run's winner, and so does
      replaying them with anything appended (if the run recorded a frame at all). */
  lemma ReplayOfRun(g: Setup, seed: bv32, n: nat, more: seq<Frame>, w: bv32)
    requires EndsAt(g, Start(g, seed), n)
    requires Frames(g, Start(g, seed), n) != [] || more == []
    requires ReplayAnswer(g, Frames(g, Start(g, seed), n) + more, w)
    ensures w == Winner(g, After(g, Start(g, seed), n).score)
  {
    hide Step, Odd, Strike, Recomputed;
    var st := Start(g, seed);
    var fs := Frames(g, st, n);
    RecordedFramesAgree(g, st, n);
    if more == [] {
      assert fs + more == fs;
    }
    LongerTraceStops(g, fs, fs + more, w);
  }

  /** A trace whose frames agree and whose last score alone is finished decides the replay of
      every longer trace. */
  lemma LongerTraceStops(g: Setup, fs: seq<Frame>, gs: seq<Frame>, w: bv32)
    requires fs <= gs && (fs == [] ==> gs == []) && !Live(Recomputed(g, fs, |fs|))
    requires forall k | 0 <= k < |fs| :: Agrees(g, fs, k) && Live(Recomputed(g, fs, k))
    requires ReplayAnswer(g, gs, w)
    ensures w == Winner(g, Recomputed(g, fs, |fs|))
  {
    hide Recomputed, Strike;
    forall k | 0 <= k <= |fs| ensures Recomputed(g, gs, k) == Recomputed(g, fs, k) {
      RecomputedPrefix(g, fs, gs, k);
    }
    forall k | 0 <= k < |fs| ensures Agrees(g, gs, k) {
      assert Agrees(g, fs, k);
    }
    assert StopsAt(g, gs, |fs|);
    assert !Live(Recomputed(g, gs, |fs|));
    assert forall k | 0 <= k < |gs| && Reaches(g, gs, k) :: Agrees(g, gs, k);
    var m :| 0 <= m <= |gs| && StopsAt(g, gs, m) && w == Winner(g, Recomputed(g, gs, m));
    StopIsUnique(g, gs, m, |fs|);
  }

  // ---------------------------------------------------------------- what replay accepts

  /** The score after the first k strikes of a list of attackers (true is A). */
  function Played(g: Setup, attackers: seq<bool>, k: nat): Score
    requires k <= |attackers|
    decreases k
  {
    if k == 0 then g.start else Strike(g, Played(g, attackers, k - 1), attackers[k - 1])
  }

  /** The frames of such a list. */
  function TraceOf(g: Setup, attackers: seq<bool>): seq<Frame> {
    seq(|attackers|, k requires 0 <= k < |attackers| => Frame(attackers[k], Played(g, attackers, k + 1)))
  }

  /** Every attacker has stamina when it strikes, and nobody strikes after a strike that finished
      the duel.  In whose turn a strike comes, and whether the list goes to the end of the duel,
      does not matter. */
  predicate Legal(g: Setup, attackers: seq<bool>) {
    && (forall k | 0 <= k < |attackers| ::
          if attackers[k] then Played(g, attackers, k).staA > 0 else Played(g, attackers, k).staB > 0)
    && forall k | 0 < k < |attackers| :: Live(Played(g, attackers, k))
  }

  function AttackersOf(frames: seq<Frame>): seq<bool> {
    seq(|frames|, k requires 0 <= k < |frames| => frames[k].attackerIsA)
  }

  lemma PlayedIsRecomputed(g: Setup, frames: seq<Frame>, attackers: seq<bool>, k: nat)
    requires k <= |frames| && k <= |attackers|
    requires forall i | 0 <= i < k :: frames[i].attackerIsA == attackers[i]
    ensures Played(g, attackers, k) == Recomputed(g, frames, k)
    decreases k
  {
    if k > 0 {
      PlayedIsRecomputed(g, frames, attackers, k - 1);
    }
  }

  /** `replay` takes a trace for good, with answer w: some start of it is the trace of a legal
      list of strikes with leader w, and it ends there or the duel is finished there. */
  ghost predicate Takes(g: Setup, frames: seq<Frame>, attackers: seq<bool>, w: bv32) {
    && |attackers| <= |frames| && frames[..|attackers|] == TraceOf(g, attackers)
    && Legal(g, attackers)
    && w == Winner(g, Played(g, attackers, |attackers|))
    && (|attackers| == |frames| || (attackers != [] && !Live(Played(g, attackers, |attackers|))))
  }

  /** With non-zero ids: `replay` answers w other than 0 exactly when it takes the trace so. */
  lemma ReplayTakesExactly(g: Setup, frames: seq<Frame>, w: bv32)
    requires g.idA != 0 && g.idB != 0
    ensures w != 0 && ReplayAnswer(g, frames, w) <==> exists attackers :: Takes(g, frames, attackers, w)
  {
    hide Takes, ReplayAnswer;
    if w != 0 && ReplayAnswer(g, frames, w) {
      var attackers := TakenList(g, frames, w);
    }
    if attackers :| Takes(g, frames, attackers, w) {
      TakenAnswers(g, frames, attackers, w);
    }
  }

  lemma TakenList(g: Setup, frames: seq<Frame>, w: bv32) returns (attackers: seq<bool>)
    requires w != 0 && ReplayAnswer(g, frames, w)
    ensures Takes(g, frames, attackers, w)
  {
    hide Recomputed, Played, Strike;
    var m :| 0 <= m <= |frames| && StopsAt(g, frames, m) && w == Winner(g, Recomputed(g, frames, m));
    attackers := AttackersOf(frames[..m]);
    forall k | 0 <= k <= m ensures Played(g, attackers, k) == Recomputed(g, frames, k) {
      PlayedIsRecomputed(g, frames, attackers, k);
    }
    forall k | 0 <= k < m ensures Agrees(g, frames, k) {
      assert Reaches(g, frames, k);
    }
    forall k | 0 <= k < m
      ensures frames[k] == Frame(attackers[k], Played(g, attackers, k + 1))
      ensures if attackers[k] then Played(g, attackers, k).staA > 0 else Played(g, attackers, k).staB > 0
    {
      assert Agrees(g, frames, k);
    }
    assert frames[..m] == TraceOf(g, attackers);
    assert Legal(g, attackers);
  }

  lemma TakenAnswers(g: Setup, frames: seq<Frame>, attackers: seq<bool>, w: bv32)
    requires g.idA != 0 && g.idB != 0 && Takes(g, frames, attackers, w)
    ensures w != 0 && ReplayAnswer(g, frames, w)
  {
    hide Recomputed, Played, Strike;
    var m := |attackers|;
    forall k | 0 <= k <= m ensures Played(g, attackers, k) == Recomputed(g, frames, k) {
      forall i | 0 <= i < k ensures frames[i].attackerIsA == attackers[i] {
        assert frames[..m][i] == TraceOf(g, attackers)[i];
      }
      PlayedIsRecomputed(g, frames, attackers, k);
    }
    forall k | 0 <= k < m ensures Agrees(g, frames, k) {
      assert frames[..m][k] == TraceOf(g, attackers)[k];
    }
    ReplayStops(g, frames, m);
  }

  /** So the answer need not be the winner of any run: the empty trace is taken with the leader
      at the start, and when each side can fell the other with its first blow both one-strike
      traces are taken, each with its striker as winner. */
  lemma ReplayIsNotARun(g: Setup)
    ensures ReplayAnswer(g, [], Winner(g, g.start))
    ensures g.start.hpA > 0 && g.start.hpB > 0 && g.start.staA > 0 && g.start.staB > 0
            && g.powA >= g.start.hpB && g.powB >= g.start.hpA && g.idA != 0 && g.idB != 0 ==>
              ReplayAnswer(g, TraceOf(g, [true]), g.idA) && ReplayAnswer(g, TraceOf(g, [false]), g.idB)
  {
    hide ReplayAnswer;
    ReplayStart(g, []);
    ReplayStops(g, [], 0);
    if g.start.hpA > 0 && g.start.hpB > 0 && g.start.staA > 0 && g.start.staB > 0
       && g.powA >= g.start.hpB && g.powB >= g.start.hpA && g.idA != 0 && g.idB != 0 {
      forall byA: bool ensures ReplayAnswer(g, TraceOf(g, [byA]), if byA then g.idA else g.idB) {
        assert Played(g, [byA], 1) == Strike(g, Played(g, [byA], 0), byA);
        assert TraceOf(g, [byA])[..1] == TraceOf(g, [byA]);
        TakenAnswers(g, TraceOf(g, [byA]), [byA], if byA then g.idA else g.idB);
      }
    }
  }

  /** When the answer is the run's: a taken trace that goes to the end of the duel is the run's
      own trace exactly when its strikes come in the order of the run's (and, for a duel that is
      over from the start, when it is empty); then the answer is the run's winner. */
  lemma TakenRunExactly(g: Setup, seed: bv32, n: nat, frames: seq<Frame>, attackers: seq<bool>, w: bv32)
    requires EndsAt(g, Start(g, seed), n) && Takes(g, frames, attackers, w)
    requires !Live(Played(g, attackers, |attackers|))
    ensures var run := Frames(g, Start(g, seed), n);
            && (frames[..|attackers|] == run <==> InOrderOf(attackers, run) && (Live(g.start) || attackers == []))
            && (frames[..|attackers|] == run ==> w == Winner(g, After(g, Start(g, seed), n).score))
  {
    hide Step, Odd, Strike, Recomputed, Played, InOrderOf, TraceOf, Legal;
    var st := Start(g, seed);
    var run := Frames(g, st, n);
    RecordedFramesAgree(g, st, n);
    if frames[..|attackers|] == run {
      SameAttackers(g, attackers, run);
      assert After(g, st, 0) == st;
      assert !Live(g.start) ==> n == 0;
    } else if InOrderOf(attackers, run) && (Live(g.start) || attackers == []) {
      FinishedInOrder(g, attackers, run);
    }
  }

  /** The attackers come in the order of the trace's, as far as both go. */
  predicate InOrderOf(attackers: seq<bool>, frames: seq<Frame>) {
    forall k | 0 <= k < |attackers| && k < |frames| :: frames[k].attackerIsA == attackers[k]
  }

  lemma SameAttackers(g: Setup, attackers: seq<bool>, run: seq<Frame>)
    requires TraceOf(g, attackers) == run
    ensures InOrderOf(attackers, run)
    ensures Played(g, attackers, |attackers|) == Recomputed(g, run, |run|)
  {
    hide Recomputed, Played;
    PlayedIsRecomputed(g, run, attackers, |run|);
  }

  lemma FinishedInOrder(g: Setup, attackers: seq<bool>, run: seq<Frame>)
    requires Legal(g, attackers) && !Live(Played(g, attackers, |attackers|)) && (Live(g.start) || attackers == [])
    requires !Live(Recomputed(g, run, |run|))
    requires forall k | 0 <= k < |run| :: Agrees(g, run, k) && Live(Recomputed(g, run, k))
    requires InOrderOf(attackers, run)
    ensures TraceOf(g, attackers) == run
  {
    hide Recomputed, Played, Strike;
    var m := Min(|attackers|, |run|);
    forall k | 0 <= k <= m ensures Played(g, attackers, k) == Recomputed(g, run, k) {
      PlayedIsRecomputed(g, run, attackers, k);
    }
    StartIsPlayed(g, attackers);
    assert |attackers| == |run|;
    forall k | 0 <= k < m ensures TraceOf(g, attackers)[k] == run[k] {
      assert Agrees(g, run, k);
    }
  }

  lemma StartIsPlayed(g: Setup, attackers: seq<bool>)
    ensures Played(g, attackers, 0) == g.start
  {}

  // ---------------------------------------------------------------- the animator

  class BattleAnimator {
    var frames: seq<Frame>
    var winner: bv32

    constructor ()
      ensures frames == [] && winner == 0
    {
      frames, winner := [], 0;
    }

    /** `requires` is exactly the condition under which the source's loop ends (`EndsExactly`). */
    method Run(a: CreatureStats, b: CreatureStats, seed: bv32) returns (ghost passes: nat)
      requires !RunsForever(SetupOf(a, b), Start(SetupOf(a, b), seed))
      modifies this
      ensures EndsAt(SetupOf(a, b), Start(SetupOf(a, b), seed), passes)
      ensures frames == Frames(SetupOf(a, b), Start(SetupOf(a, b), seed), passes)
      ensures winner == Winner(SetupOf(a, b), After(SetupOf(a, b), Start(SetupOf(a, b), seed), passes).score)
    {
      hide Step, Odd, EffectiveSeed;
      ghost var g := SetupOf(a, b);
      ghost var st := Start(g, seed);
      EndsExactly(g, st);
      ghost var end: nat :| EndsAt(g, st, end);
      frames := [];
      var state := EffectiveSeed(a.id, b.id, seed);
      var powA := ComputeTotal(a, Power);
      var powB := ComputeTotal(b, Power);
      var hpA := ComputeTotal(a, Defense);
      var hpB := ComputeTotal(b, Defense);
      var staA := ComputeTotal(a, Stamina);
      var staB := ComputeTotal(b, Stamina);
      state := Step(state);
      var turn := Odd(state);
      passes := 0;
      while hpA > 0 && hpB > 0 && (staA > 0 || staB > 0)
        invariant passes <= end
        invariant After(g, st, passes) == State(state, Score(hpA, hpB, staA, staB)) && turn == Odd(state)
        invariant frames == Frames(g, st, passes)
        decreases end - passes
      {
        FramesLast(g, st, passes);
        AfterLast(g, st, passes);
        if turn && staA > 0 {
          hpB := hpB - powA;
          staA := staA - 1;
          frames := frames + [Frame(true, Score(hpA, hpB, staA, staB))];
        } else if !turn && staB > 0 {
          hpA := hpA - powB;
          staB := staB - 1;
          frames := frames + [Frame(false, Score(hpA, hpB, staA, staB))];
        }
        state := Step(state);
        turn := Odd(state);
        passes := passes + 1;
      }
      winner := if hpA >= hpB then a.id else b.id;
    }

    static method Replay(a: CreatureStats, b: CreatureStats, frames: seq<Frame>) returns (w: bv32)
      ensures ReplayAnswer(SetupOf(a, b), frames, w)
    {
      hide Recomputed, Agrees, Reaches, StopsAt, ReplayAnswer, Total;
      ghost var g := SetupOf(a, b);
      var powA := ComputeTotal(a, Power);
      var powB := ComputeTotal(b, Power);
      var hpA := ComputeTotal(a, Defense);
      var hpB := ComputeTotal(b, Defense);
      var staA := ComputeTotal(a, Stamina);
      var staB := ComputeTotal(b, Stamina);
      ReplayStart(g, frames);
      var i := 0;
      while i < |frames|
        invariant 0 <= i <= |frames|
        invariant Recomputed(g, frames, i) == Score(hpA, hpB, staA, staB)
        invariant Reaches(g, frames, i) && forall k | 0 <= k < i :: Agrees(g, frames, k)
        invariant i == |frames| ==> StopsAt(g, frames, i)
      {
        ReplayStep(g, frames, i);
        var f := frames[i];
        if f.attackerIsA {
          if staA <= 0 {
            return 0;
          }
          hpB := hpB - powA;
          staA := staA - 1;
        } else {
          if staB <= 0 {
            return 0;
          }
          hpA := hpA - powB;
          staB := staB - 1;
        }
        if f.score.hpA != hpA || f.score.hpB != hpB || f.score.staA != staA || f.score.staB != staB {
          return 0;
        }
        i := i + 1;
        if hpA <= 0 || hpB <= 0 || (staA <= 0 && staB <= 0) {
          break;
        }
      }
      ReplayStops(g, frames, i);
      w := if hpA >= hpB then a.id else b.id;
    }
  }
}
