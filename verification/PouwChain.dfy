/** The in-memory proof-of-useful-work chain. */
module PouwChain {
  import opened Basics
  import opened Validation
  import Bits

  type Creature = nat
  type Miner = nat

  const TWO32 := 0x1_0000_0000
  const TWO64 := 0x1_0000_0000_0000_0000

  /** uint32 and uint64 wrap-around. */
  function Wrap32(x: nat): nat { x % TWO32 }

  function Wrap64(x: nat): nat { x % TWO64 }

  /** Losses are numbers without NaN; they may be negative. */
  datatype Pending = Pending(creature: Creature, epoch: nat, miner: Miner, loss: int, energySpent: nat)

  datatype Block = Block(index: nat, root: Root, data: Pending)

  datatype State = State(quorum: nat, counts: map<Root, nat>, proven: set<Root>,
                         pending: map<Root, Pending>, chain: seq<Block>, finalized: set<Root>,
                         energy: map<Miner, nat>, core: map<Miner, nat>,
                         nextEpoch: map<Creature, nat>, lastLoss: map<Creature, int>)

  function Empty(quorum: nat): State {
    State(quorum, map[], {}, map[], [], {}, map[], map[], map[], map[])
  }

  datatype Event = Submit(root: Root, data: Pending) | Prove(root: Root) | Attest(root: Root) | Finalize(root: Root)

  function HasQuorum(s: State, r: Root): bool { r in s.counts && s.counts[r] >= s.quorum }

  function Approved(s: State, r: Root): bool { HasQuorum(s, r) || r in s.proven }

  function Expected(s: State, c: Creature): nat { if c in s.nextEpoch then s.nextEpoch[c] else 0 }

  /** -1 stands for "no previous loss". */
  function PrevLoss(s: State, c: Creature): int { if c in s.lastLoss then s.lastLoss[c] else -1 }

  function Balance(m: map<Miner, nat>, who: Miner): nat { if who in m then m[who] else 0 }

  predicate MayFinalize(s: State, r: Root) {
    && Approved(s, r)
    && r in s.pending && r !in s.finalized
    && s.pending[r].epoch == Expected(s, s.pending[r].creature)
    && !(PrevLoss(s, s.pending[r].creature) >= 0 && s.pending[r].loss > PrevLoss(s, s.pending[r].creature))
  }

  /** Finalisation of an accepted checkpoint; counters wrap at their widths. */
  function Finalized(s: State, r: Root): State
    requires r in s.pending
  {
    var p := s.pending[r];
    s.(chain := s.chain + [Block(Wrap32(|s.chain| + 1), r, p)],
       energy := s.energy[p.miner := Wrap64(Balance(s.energy, p.miner) + p.energySpent)],
       core := s.core[p.miner := Wrap64(Balance(s.core, p.miner) + p.energySpent)],
       finalized := s.finalized + {r},
       proven := s.proven - {r},
       nextEpoch := s.nextEpoch[p.creature := Wrap32(p.epoch + 1)],
       lastLoss := s.lastLoss[p.creature := p.loss],
       pending := s.pending - {r})
  }

  function Next(s: State, e: Event): State {
    match e
    case Submit(r, p) => s.(pending := s.pending[r := p])
    case Prove(r) => s.(proven := s.proven + {r})
    case Attest(r) => s.(counts := s.counts[r := (if r in s.counts then s.counts[r] else 0) + 1])
    case Finalize(r) => if MayFinalize(s, r) then Finalized(s, r) else s
  }

  function Run(s: State, events: seq<Event>): State
    decreases |events|
  {
    if events == [] then s else Next(Run(s, events[..|events| - 1]), events[|events| - 1])
  }

  // ---------------------------------------------------------------- what the chain alone says

  /** The blocks of one creature before position k. */
  function BlocksOf(chain: seq<Block>, c: Creature): nat {
    if chain == [] then 0
    else BlocksOf(chain[..|chain| - 1], c) + if chain[|chain| - 1].data.creature == c then 1 else 0
  }

  function LastLossIn(chain: seq<Block>, c: Creature): Option<int> {
    if chain == [] then None
    else if chain[|chain| - 1].data.creature == c then Some(chain[|chain| - 1].data.loss)
    else LastLossIn(chain[..|chain| - 1], c)
  }

  /** Energy spent in the blocks of one miner. */
  function EnergyIn(chain: seq<Block>, m: Miner): nat {
    if chain == [] then 0
    else
      var last := chain[|chain| - 1].data;
      EnergyIn(chain[..|chain| - 1], m) + if last.miner == m then last.energySpent else 0
  }

  function RootsOf(chain: seq<Block>): set<Root> {
    set k | 0 <= k < |chain| :: chain[k].root
  }

  /** Block b may follow the blocks before it. */
  predicate Follows(before: seq<Block>, b: Block) {
    && b.index == Wrap32(|before| + 1)
    && b.root !in RootsOf(before)
    && b.data.epoch == Wrap32(BlocksOf(before, b.data.creature))
    && var last := LastLossIn(before, b.data.creature);
       last.Some? && last.value >= 0 ==> b.data.loss <= last.value
  }

  ghost predicate Chained(chain: seq<Block>) {
    forall k | 0 <= k < |chain| :: Follows(chain[..k], chain[k])
  }

  /** The maps are exactly what the chain says. */
  ghost predicate Invariant(s: State) {
    && Chained(s.chain)
    && s.finalized == RootsOf(s.chain)
    && (forall c: Creature :: Expected(s, c) == Wrap32(BlocksOf(s.chain, c)))
    && (forall c: Creature :: LastLossIn(s.chain, c) == if c in s.lastLoss then Some(s.lastLoss[c]) else None)
    && (forall m: Miner :: Balance(s.energy, m) == Wrap64(EnergyIn(s.chain, m)))
    && (forall m: Miner :: Balance(s.core, m) == Wrap64(EnergyIn(s.chain, m)))
  }

  lemma EmptyInvariant(quorum: nat)
    ensures Invariant(Empty(quorum))
  {}

  lemma RootsAppend(chain: seq<Block>, b: Block)
    ensures RootsOf(chain + [b]) == RootsOf(chain) + {b.root}
  {
    var longer := chain + [b];
    forall r | r in RootsOf(chain) + {b.root} ensures r in RootsOf(longer) {
      if r == b.root {
        assert longer[|chain|].root == r;
      } else {
        var k :| 0 <= k < |chain| && chain[k].root == r;
        assert longer[k].root == r;
      }
    }
  }

  lemma ChainedAppend(chain: seq<Block>, b: Block)
    requires Chained(chain) && Follows(chain, b)
    ensures Chained(chain + [b])
  {
    hide Follows;
    var longer := chain + [b];
    forall k | 0 <= k < |longer| ensures Follows(longer[..k], longer[k]) {
      if k < |chain| {
        assert longer[..k] == chain[..k];
      } else {
        assert longer[..k] == chain;
      }
    }
  }

  lemma WrapOfSum(a: nat, b: nat)
    ensures Wrap32(Wrap32(a) + b) == Wrap32(a + b) && Wrap64(Wrap64(a) + b) == Wrap64(a + b)
  {
    Bits.QuotientIs(a + b, a / TWO32 + (Wrap32(a) + b) / TWO32, Wrap32(Wrap32(a) + b), TWO32);
    Bits.QuotientIs(a + b, a / TWO64 + (Wrap64(a) + b) / TWO64, Wrap64(Wrap64(a) + b), TWO64);
  }

  lemma FinalizeKeeps(s: State, r: Root)
    requires Invariant(s) && MayFinalize(s, r)
    ensures Invariant(Finalized(s, r))
  {
    hide Follows, Chained, RootsOf, Wrap32, Wrap64;
    var p := s.pending[r];
    var b := Block(Wrap32(|s.chain| + 1), r, p);
    var next := Finalized(s, r);
    var longer := s.chain + [b];
    assert longer[..|longer| - 1] == s.chain;
    assert LastLossIn(s.chain, p.creature) == if p.creature in s.lastLoss then Some(s.lastLoss[p.creature]) else None;
    assert Follows(s.chain, b) by {
      FollowsIs(s.chain, b);
    }
    ChainedAppend(s.chain, b);
    RootsAppend(s.chain, b);
    forall c: Creature ensures Expected(next, c) == Wrap32(BlocksOf(longer, c)) {
      WrapOfSum(BlocksOf(s.chain, c), 1);
    }
    forall m: Miner
      ensures Balance(next.energy, m) == Wrap64(EnergyIn(longer, m))
      ensures Balance(next.core, m) == Wrap64(EnergyIn(longer, m))
    {
      WrapOfSum(EnergyIn(s.chain, m), p.energySpent);
    }
  }

  lemma FollowsIs(before: seq<Block>, b: Block)
    requires b.index == Wrap32(|before| + 1) && b.root !in RootsOf(before)
    requires b.data.epoch == Wrap32(BlocksOf(before, b.data.creature))
    requires var last := LastLossIn(before, b.data.creature);
             last.Some? && last.value >= 0 ==> b.data.loss <= last.value
    ensures Follows(before, b)
  {}

  lemma {:induction false} RunKeeps(quorum: nat, events: seq<Event>)
    ensures Invariant(Run(Empty(quorum), events)) && Run(Empty(quorum), events).quorum == quorum
    decreases |events|
  {
    if events == [] {
      EmptyInvariant(quorum);
    } else {
      var n := |events| - 1;
      RunKeeps(quorum, events[..n]);
      var s := Run(Empty(quorum), events[..n]);
      NextKeeps(s, events[n]);
    }
  }

  lemma NextKeeps(s: State, e: Event)
    requires Invariant(s)
    ensures Invariant(Next(s, e)) && Next(s, e).quorum == s.quorum
  {
    hide Chained, RootsOf;
    if e.Finalize? && MayFinalize(s, e.root) {
      FinalizeKeeps(s, e.root);
    }
  }

  // ---------------------------------------------------------------- every run

  lemma RootsDistinct(chain: seq<Block>, i: nat, j: nat)
    requires Chained(chain) && i < j < |chain|
    ensures chain[i].root != chain[j].root
  {
    assert Follows(chain[..j], chain[j]);
    assert chain[..j][i].root in RootsOf(chain[..j]);
  }

  /** The k-th block of a creature carries epoch k modulo 2^32, and from a non-negative loss the
      next loss of the creature is no higher. */
  lemma CreatureHistory(chain: seq<Block>, i: nat, j: nat)
    requires Chained(chain) && i < j < |chain| && chain[i].data.creature == chain[j].data.creature
    requires forall k | i < k < j :: chain[k].data.creature != chain[i].data.creature
    ensures chain[j].data.epoch == Wrap32(BlocksOf(chain[..i], chain[i].data.creature) + 1)
    ensures chain[i].data.epoch == Wrap32(BlocksOf(chain[..i], chain[i].data.creature))
    ensures chain[i].data.loss >= 0 ==> chain[j].data.loss <= chain[i].data.loss
  {
    assert Follows(chain[..i], chain[i]) && Follows(chain[..j], chain[j]);
    BetweenBlocks(chain, i, j);
  }

  lemma {:induction false} BetweenBlocks(chain: seq<Block>, i: nat, j: nat)
    requires i < j <= |chain|
    requires forall k | i < k < j :: chain[k].data.creature != chain[i].data.creature
    ensures BlocksOf(chain[..j], chain[i].data.creature) == BlocksOf(chain[..i], chain[i].data.creature) + 1
    ensures LastLossIn(chain[..j], chain[i].data.creature) == Some(chain[i].data.loss)
    decreases j
  {
    assert chain[..j][..j - 1] == chain[..j - 1];
    if j > i + 1 {
      BetweenBlocks(chain, i, j - 1);
    }
  }

  /** A step leaves the chain alone or appends the block of an approved finalisation. */
  lemma NextExtends(s: State, e: Event)
    ensures s.chain <= Next(s, e).chain
    ensures Next(s, e).chain != s.chain ==>
              && e.Finalize? && Approved(s, e.root)
              && |Next(s, e).chain| == |s.chain| + 1 && Next(s, e).chain[|s.chain|].root == e.root
  {}

  /** While a creature's losses are non-negative they never rise from block to block. */
  lemma LossNeverRises(chain: seq<Block>, i: nat, j: nat)
    requires Chained(chain) && i < j < |chain| && chain[i].data.creature == chain[j].data.creature
    requires forall k | 0 <= k < |chain| && chain[k].data.creature == chain[i].data.creature :: chain[k].data.loss >= 0
    ensures chain[j].data.loss <= chain[i].data.loss
  {
    LastLossBelow(chain, i, j);
    assert Follows(chain[..j], chain[j]);
  }

  lemma {:induction false} LastLossBelow(chain: seq<Block>, i: nat, j: nat)
    requires Chained(chain) && i < j <= |chain|
    requires forall k | 0 <= k < |chain| && chain[k].data.creature == chain[i].data.creature :: chain[k].data.loss >= 0
    ensures var last := LastLossIn(chain[..j], chain[i].data.creature);
            last.Some? && 0 <= last.value <= chain[i].data.loss
    decreases j
  {
    assert chain[..j][..j - 1] == chain[..j - 1];
    if j > i + 1 {
      LastLossBelow(chain, i, j - 1);
      assert Follows(chain[..j - 1], chain[j - 1]);
    }
  }

  // ---------------------------------------------------------------- negative losses

  lemma {:induction false} RunConcat(s: State, a: seq<Event>, b: seq<Event>)
    ensures Run(s, a + b) == Run(Run(s, a), b)
    decreases |b|
  {
    hide Next;
    if b == [] {
      assert a + b == a;
    } else {
      var n := |b| - 1;
      assert (a + b)[..|a| + n] == a + b[..n];
      RunConcat(s, a, b[..n]);
    }
  }

  /** Submit, prove, finalise. */
  function Proposal(r: Root, p: Pending): seq<Event> { [Event.Submit(r, p), Prove(r), Finalize(r)] }

  /** A proven proposal of a new root in epoch order is appended, unless it raises a non-negative
      recorded loss. */
  lemma ProposalAppendedExactly(s: State, r: Root, p: Pending)
    requires r !in s.finalized && p.epoch == Expected(s, p.creature)
    ensures var prev := PrevLoss(s, p.creature);
            var end := Run(s, Proposal(r, p));
            && end.chain == (if prev >= 0 && p.loss > prev then s.chain
                             else s.chain + [Block(Wrap32(|s.chain| + 1), r, p)])
            && end.finalized == (if prev >= 0 && p.loss > prev then s.finalized else s.finalized + {r})
            && (!(prev >= 0 && p.loss > prev) ==>
                  && end.nextEpoch == s.nextEpoch[p.creature := Wrap32(p.epoch + 1)]
                  && end.lastLoss == s.lastLoss[p.creature := p.loss]
                  && r !in end.pending && r !in end.proven
                  && Balance(end.energy, p.miner) == Wrap64(Balance(s.energy, p.miner) + p.energySpent)
                  && Balance(end.core, p.miner) == Wrap64(Balance(s.core, p.miner) + p.energySpent))
  {
    hide Run, Wrap32, Wrap64, HasQuorum;
    ProposalRun(s, r, p);
    var ready := s.(pending := s.pending[r := p], proven := s.proven + {r});
    assert Approved(ready, r) && ready.pending[r] == p;
    assert PrevLoss(ready, p.creature) == PrevLoss(s, p.creature);
  }

  lemma ProposalRun(s: State, r: Root, p: Pending)
    ensures Run(s, Proposal(r, p)) == Next(s.(pending := s.pending[r := p], proven := s.proven + {r}), Finalize(r))
  {
    hide MayFinalize, Finalized;
    var es := Proposal(r, p);
    assert es[..2][..1] == es[..1] && es[..1][..0] == [];
    assert Run(s, es[..1][..0]) == s;
    assert Run(s, es[..1]) == Next(s, es[0]);
    assert Run(s, es[..2]) == Next(Run(s, es[..1]), es[1]);
  }

  /** The loss rule exactly: a higher loss than the recorded one can get onto the chain if and only
      if the recorded one is negative, which the chain takes for "no previous loss". */
  lemma HigherLossTakenExactly(s: State, r: Root, p: Pending)
    requires r !in s.finalized && p.epoch == Expected(s, p.creature)
    requires p.creature in s.lastLoss && p.loss > s.lastLoss[p.creature]
    ensures Run(s, Proposal(r, p)).chain != s.chain <==> s.lastLoss[p.creature] < 0
  {
    hide Run, Wrap32;
    ProposalAppendedExactly(s, r, p);
    assert s.chain + [Block(Wrap32(|s.chain| + 1), r, p)] != s.chain;
  }

  /** So losses do rise: whatever the quorum, creature 7 is finalised at loss -1 and then at 5. */
  lemma NegativeLossRises(quorum: nat, miner: Miner)
    ensures var first, second := Pending(7, 0, miner, -1, 0), Pending(7, 1, miner, 5, 0);
            var chain := Run(Empty(quorum), Proposal(1, first) + Proposal(2, second)).chain;
            && |chain| == 2 && chain[0].data.creature == chain[1].data.creature == 7
            && chain[0].data.loss == -1 && chain[1].data.loss == 5
  {
    hide Run;
    var first, second := Pending(7, 0, miner, -1, 0), Pending(7, 1, miner, 5, 0);
    RunConcat(Empty(quorum), Proposal(1, first), Proposal(2, second));
    ProposalAppendedExactly(Empty(quorum), 1, first);
    ProposalAppendedExactly(Run(Empty(quorum), Proposal(1, first)), 2, second);
  }

  // ---------------------------------------------------------------- approval

  /** The step that appended block k: a finalisation of its root while that root had quorum or a
      proof. */
  lemma {:induction false} BlockWasApproved(quorum: nat, events: seq<Event>, k: nat) returns (i: nat)
    requires k < |Run(Empty(quorum), events).chain|
    ensures i < |events|
    ensures var before := Run(Empty(quorum), events[..i]);
            var root := Run(Empty(quorum), events).chain[k].root;
            && events[i] == Finalize(root) && Approved(before, root) && |before.chain| == k
    decreases |events|
  {
    hide Wrap32, Wrap64, MayFinalize;
    var n := |events| - 1;
    var s := Run(Empty(quorum), events[..n]);
    if k < |s.chain| {
      i := BlockWasApproved(quorum, events[..n], k);
      assert events[..n][..i] == events[..i];
      NextExtends(s, events[n]);
    } else {
      NextExtends(s, events[n]);
      i := n;
    }
  }

  /** Every run of the chain: indices count the blocks, each block's epoch counts the creature's
      earlier blocks, roots are distinct and are the finalised set, and each miner's balances are
      what the miner's blocks add up to (all modulo the counter widths).  The chain is `Chained`,
      so the loss rules of `CreatureHistory` and `LossNeverRises` hold of it. */
  lemma EveryRun(quorum: nat, events: seq<Event>)
    ensures var s := Run(Empty(quorum), events);
            && Chained(s.chain)
            && (forall k | 0 <= k < |s.chain| :: s.chain[k].index == Wrap32(k + 1)
                                              && s.chain[k].data.epoch == Wrap32(BlocksOf(s.chain[..k],
                                                                                          s.chain[k].data.creature)))
            && (forall i, j | 0 <= i < j < |s.chain| :: s.chain[i].root != s.chain[j].root)
            && s.finalized == RootsOf(s.chain)
            && (forall m: Miner :: Balance(s.energy, m) == Wrap64(EnergyIn(s.chain, m)) == Balance(s.core, m))
  {
    hide Run, RootsOf;
    RunKeeps(quorum, events);
    var s := Run(Empty(quorum), events);
    forall i, j | 0 <= i < j < |s.chain| ensures s.chain[i].root != s.chain[j].root {
      RootsDistinct(s.chain, i, j);
    }
    forall k | 0 <= k < |s.chain|
      ensures s.chain[k].index == Wrap32(k + 1)
           && s.chain[k].data.epoch == Wrap32(BlocksOf(s.chain[..k], s.chain[k].data.creature))
    {
      assert Follows(s.chain[..k], s.chain[k]);
    }
  }

  // ---------------------------------------------------------------- the class

  class Chain {
    const validator: Validator
    var chain: seq<Block>
    var pending: map<Root, Pending>
    var finalized: set<Root>
    var proven: set<Root>
    var energyBalance: map<Miner, nat>
    var coreBalance: map<Miner, nat>
    var nextEpoch: map<Creature, nat>
    var lastLoss: map<Creature, int>

    ghost function View(): State
      reads this, validator`counts
    {
      State(validator.quorum, validator.counts, proven, pending, chain, finalized, energyBalance, coreBalance,
            nextEpoch, lastLoss)
    }

    constructor (quorum: nat, system: ProofSystem)
      ensures View() == Empty(quorum) && fresh(validator) && validator.quorum == quorum && validator.counts == map[]
      ensures chain == [] && pending == map[] && finalized == {} && proven == {}
      ensures energyBalance == map[] && coreBalance == map[] && nextEpoch == map[] && lastLoss == map[]
    {
      validator := new Validator(quorum, system);
      chain, pending, finalized, proven := [], map[], {}, {};
      energyBalance, coreBalance, nextEpoch, lastLoss := map[], map[], map[], map[];
    }

    method SubmitCheckpoint(creature: Creature, epoch: nat, root: Root, miner: Miner, loss: int, energySpent: nat)
      modifies this`pending
      ensures View() == Next(old(View()), Event.Submit(root, Pending(creature, epoch, miner, loss, energySpent)))
    {
      pending := pending[root := Pending(creature, epoch, miner, loss, energySpent)];
    }

    method SubmitProof(root: Root)
      modifies this`proven
      ensures View() == Next(old(View()), Prove(root))
    {
      proven := proven + {root};
    }

    method AttestRoot(root: Root)
      modifies validator`counts
      ensures View() == Next(old(View()), Attest(root))
    {
      validator.Attest(root);
    }

    /** The early returns of finalize_checkpoint. */
    method CheckFinalize(root: Root) returns (ok: bool)
      ensures ok == MayFinalize(View(), root)
    {
      var quorumReached := validator.HasReachedQuorum(root);
      if !quorumReached && root !in proven {
        return false;
      }
      if root !in pending || root in finalized {
        return false;
      }
      var it := pending[root];
      var expected := if it.creature in nextEpoch then nextEpoch[it.creature] else 0;
      if it.epoch != expected {
        return false;
      }
      var prevLoss := if it.creature in lastLoss then lastLoss[it.creature] else -1;
      if prevLoss >= 0 && it.loss > prevLoss {
        return false;
      }
      ok := true;
    }

    method FinalizeCheckpoint(root: Root) returns (ok: bool)
      modifies this
      ensures ok == MayFinalize(old(View()), root)
      ensures View() == Next(old(View()), Finalize(root))
    {
      hide Finalized, MayFinalize;
      ok := CheckFinalize(root);
      if ok {
        PendingWhenAccepted(View(), root);
        AppendBlock(root);
      }
    }

    /** The updates of finalize_checkpoint, in its order. */
    method AppendBlock(root: Root)
      requires root in pending
      modifies this
      ensures View() == Finalized(old(View()), root)
    {
      hide Wrap32, Wrap64, Balance;
      var it := pending[root];
      chain := chain + [Block(Wrap32(|chain| + 1), root, it)];
      energyBalance := energyBalance[it.miner := Wrap64(Balance(energyBalance, it.miner) + it.energySpent)];
      coreBalance := coreBalance[it.miner := Wrap64(Balance(coreBalance, it.miner) + it.energySpent)];
      finalized := finalized + {root};
      proven := proven - {root};
      nextEpoch := nextEpoch[it.creature := Wrap32(it.epoch + 1)];
      lastLoss := lastLoss[it.creature := it.loss];
      pending := pending - {root};
    }
  }

  lemma PendingWhenAccepted(s: State, r: Root)
    requires MayFinalize(s, r)
    ensures r in s.pending
  {}
}
