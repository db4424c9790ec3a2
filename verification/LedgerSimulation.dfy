/** The two ledgers side by side: the in-memory chain and the contract system receive the same
    events and accept the same finalisations. */
module LedgerSimulation {
  import opened Tokens
  import opened TrainingLedger
  import opened LedgerAccounting
  import PouwChain

  /** The events both sides have; token transfers exist on the contract side only. */
  predicate Shared(e: Event) { e.SubmitEvent? || e.AttestEvent? || e.ProveEvent? || e.FinalizeEvent? }

  function PendingOf(sub: Submission): PouwChain.Pending {
    PouwChain.Pending(sub.creature, sub.epoch, sub.miner, sub.loss, sub.energySpent)
  }

  function ToChain(e: Event): PouwChain.Event
    requires Shared(e)
  {
    match e
    case SubmitEvent(sub, root, _) => PouwChain.Submit(root, PendingOf(sub))
    case AttestEvent(root) => PouwChain.Attest(root)
    case ProveEvent(root, _) => PouwChain.Prove(root)
    case FinalizeEvent(root) => PouwChain.Finalize(root)
  }

  /** What the comparison asks of an event: a submission within the size limit by a funded miner
      other than address 0 with an epoch that does not wrap, a valid proof, and a finalisation
      that does not hit the CORE cap. */
  predicate Admissible(s: System, e: Event, maxBytes: nat) {
    && Shared(e)
    && match e
       case SubmitEvent(sub, _, bytes) =>
         bytes <= maxBytes && sub.miner != 0 && sub.epoch + 1 < PouwChain.TWO32
         && sub.energySpent <= Bal(s.energy.balances, sub.miner)
       case ProveEvent(root, computed) => computed == root
       case FinalizeEvent(root) => s.core.supply + SubmissionOf(s.ledger, root).energySpent * ETHER <= CAP
       case _ => true
  }

  ghost predicate AllAdmissible(s: System, events: seq<Event>, maxBytes: nat)
    decreases |events|
  {
    events != [] ==>
      AllAdmissible(s, events[..|events| - 1], maxBytes)
      && Admissible(Run(s, events[..|events| - 1], maxBytes), events[|events| - 1], maxBytes)
  }

  function ChainEvents(events: seq<Event>): seq<PouwChain.Event>
    requires forall i | 0 <= i < |events| :: Shared(events[i])
  {
    seq(|events|, i requires 0 <= i < |events| => ToChain(events[i]))
  }

  // ---------------------------------------------------------------- the relation

  function Votes(c: PouwChain.State, r: Root): nat { if r in c.counts then c.counts[r] else 0 }

  /** Root r has the same standing on both sides, as long as it is not finalised. */
  predicate SameStanding(s: System, c: PouwChain.State, r: Root) {
    && (r in c.pending <==> r in s.ledger.submissions)
    && (r in c.pending ==> c.pending[r] == PendingOf(s.ledger.submissions[r])
                           && s.ledger.submissions[r].miner != 0 && c.pending[r].epoch + 1 < PouwChain.TWO32)
    && (r in c.proven <==> r in s.verifier.proven)
    && (if r in s.verifier.proven then Attestations(s.verifier, r) >= s.verifier.quorum
        else Attestations(s.verifier, r) == Votes(c, r))
  }

  /** The contract keeps 0 where the chain has no loss recorded. */
  predicate SameLoss(s: System, c: PouwChain.State, k: Creature) {
    LastLoss(s.ledger, k) == if k in c.lastLoss then c.lastLoss[k] else 0
  }

  ghost predicate StandingRelated(s: System, c: PouwChain.State) {
    && c.quorum == s.verifier.quorum >= 1
    && c.finalized == s.ledger.finalized
    && forall r: Root | r !in c.finalized :: SameStanding(s, c, r)
  }

  ghost predicate CountersRelated(s: System, c: PouwChain.State) {
    && (forall k: Creature :: PouwChain.Expected(c, k) == NextEpoch(s.ledger, k))
    && (forall k: Creature :: SameLoss(s, c, k))
  }

  /** `burned` says how much each miner burned by submitting. */
  ghost predicate RewardsRelated(s0: System, s: System, c: PouwChain.State, burned: map<Address, nat>) {
    && (forall m: Address ::
          Bal(s.core.balances, m) == Bal(s0.core.balances, m) + PouwChain.EnergyIn(c.chain, m) * ETHER)
    && (forall m: Address ::
          Bal(s.energy.balances, m) + Bal(burned, m) == Bal(s0.energy.balances, m) + PouwChain.EnergyIn(c.chain, m))
  }

  ghost predicate Related(s0: System, s: System, c: PouwChain.State, burned: map<Address, nat>, f: Flows) {
    && Accounted(s0, s, f) && f.rewarded == 0
    && s.energy.admin == s.self && s.core.admin == s.self
    && StandingRelated(s, c) && CountersRelated(s, c) && RewardsRelated(s0, s, c, burned)
  }

  // ---------------------------------------------------------------- the decision to finalise

  /** Both sides agree that r is approved, pending, open and next in epoch order. */
  predicate Ready(c: PouwChain.State, r: Root) {
    && PouwChain.Approved(c, r) && r in c.pending && r !in c.finalized
    && c.pending[r].epoch == PouwChain.Expected(c, c.pending[r].creature)
  }

  /** The recorded loss is 0, which the contract cannot tell from "none", and the new loss is
      higher. */
  predicate ZeroLossTrap(c: PouwChain.State, r: Root) {
    Ready(c, r) && var k := c.pending[r].creature;
    k in c.lastLoss && c.lastLoss[k] == 0 && c.pending[r].loss > 0
  }

  lemma ApprovalAgrees(s: System, c: PouwChain.State, r: Root)
    requires SameStanding(s, c, r) && c.quorum == s.verifier.quorum >= 1
    ensures PouwChain.Approved(c, r) <==> Verified(s.verifier, r)
  {}

  /** In related states the two ledgers decide a finalisation alike, except in the zero-loss
      trap, where the contract accepts and the chain refuses. */
  lemma DecisionsAgreeExactly(s0: System, s: System, c: PouwChain.State, burned: map<Address, nat>, f: Flows, r: Root)
    requires Related(s0, s, c, burned, f)
    ensures (MayFinalize(s, r) <==> PouwChain.MayFinalize(c, r)) <==> !ZeroLossTrap(c, r)
    ensures ZeroLossTrap(c, r) ==> MayFinalize(s, r) && !PouwChain.MayFinalize(c, r)
  {
    hide Accounted, Verified, PouwChain.Approved;
    if r !in c.finalized {
      assert SameStanding(s, c, r);
      ApprovalAgrees(s, c, r);
      if r in c.pending {
        assert SameLoss(s, c, c.pending[r].creature);
      }
    }
  }

  /** A finalisation that passes the contract's checks goes through. */
  lemma AcceptedGoesThrough(s0: System, s: System, c: PouwChain.State, burned: map<Address, nat>, f: Flows, r: Root,
                            maxBytes: nat)
    requires Related(s0, s, c, burned, f) && Admissible(s, FinalizeEvent(r), maxBytes) && s0.energy.supply < TWO256
    ensures Try(s, FinalizeEvent(r), maxBytes).Changed? <==> MayFinalize(s, r)
  {
    if MayFinalize(s, r) {
      EnergyMintNeverReverts(s0, s, f, r);
      var sub := SubmissionOf(s.ledger, r);
      CreditKeepsBacked(s.core, sub.miner, sub.energySpent * ETHER);
    }
  }

  // ---------------------------------------------------------------- each event keeps the relation

  function BurnedBy(e: Event, burned: map<Address, nat>): map<Address, nat> {
    if e.SubmitEvent? then burned[e.sub.miner := Bal(burned, e.sub.miner) + e.sub.energySpent] else burned
  }

  lemma SubmitGoesThrough(s0: System, s: System, f: Flows, e: Event, maxBytes: nat)
    requires Accounted(s0, s, f) && s.energy.admin == s.self && Admissible(s, e, maxBytes) && e.SubmitEvent?
    ensures Try(s, e, maxBytes).Changed?
    ensures var next := Step(s, e, maxBytes);
            && next.verifier == s.verifier && next.core == s.core
            && next.ledger == s.ledger.(submissions := s.ledger.submissions[e.root := e.sub])
            && (forall m: Address :: Bal(next.energy.balances, m) + (if m == e.sub.miner then e.sub.energySpent else 0)
                                  == Bal(s.energy.balances, m))
  {
    DebitKeepsBacked(s.energy, e.sub.miner, e.sub.energySpent);
  }

  lemma SubmitStanding(s: System, c: PouwChain.State, s': System, c': PouwChain.State, e: Event, maxBytes: nat)
    requires StandingRelated(s, c) && Admissible(s, e, maxBytes) && e.SubmitEvent?
    requires s'.verifier == s.verifier && s'.ledger == s.ledger.(submissions := s.ledger.submissions[e.root := e.sub])
    requires c' == c.(pending := c.pending[e.root := PendingOf(e.sub)])
    ensures StandingRelated(s', c')
  {
    hide Attestations;
    forall r: Root | r !in c'.finalized ensures SameStanding(s', c', r) {
      assert SameStanding(s, c, r);
    }
  }

  lemma CountersKept(s: System, c: PouwChain.State, s': System, c': PouwChain.State)
    requires CountersRelated(s, c)
    requires s'.ledger.lastLoss == s.ledger.lastLoss && s'.ledger.nextEpoch == s.ledger.nextEpoch
    requires c'.nextEpoch == c.nextEpoch && c'.lastLoss == c.lastLoss
    ensures CountersRelated(s', c')
  {
    forall k: Creature ensures PouwChain.Expected(c', k) == NextEpoch(s'.ledger, k) && SameLoss(s', c', k) {
      assert SameLoss(s, c, k) && PouwChain.Expected(c, k) == NextEpoch(s.ledger, k);
    }
  }

  lemma SubmitRelated(s0: System, s: System, c: PouwChain.State, burned: map<Address, nat>, f: Flows, e: Event,
                      maxBytes: nat)
    requires Related(s0, s, c, burned, f) && Admissible(s, e, maxBytes) && e.SubmitEvent?
    ensures Related(s0, Step(s, e, maxBytes), PouwChain.Next(c, ToChain(e)), BurnedBy(e, burned),
                    Note(s, e, maxBytes, f))
  {
    hide Step, Try, Note, PouwChain.EnergyIn, StandingRelated, CountersRelated, Admissible;
    StepAccounted(s0, s, e, maxBytes, f);
    OnlyRewardsReward(s, e, maxBytes, f);
    SubmitGoesThrough(s0, s, f, e, maxBytes);
    var s', c' := Step(s, e, maxBytes), PouwChain.Next(c, ToChain(e));
    SubmitStanding(s, c, s', c', e, maxBytes);
    CountersKept(s, c, s', c');
    assert RewardsRelated(s0, s', c', BurnedBy(e, burned));
  }

  lemma VoteStanding(s: System, c: PouwChain.State, e: Event, maxBytes: nat)
    requires StandingRelated(s, c) && Admissible(s, e, maxBytes) && (e.AttestEvent? || e.ProveEvent?)
    ensures StandingRelated(Step(s, e, maxBytes), PouwChain.Next(c, ToChain(e)))
  {
    var s', c' := Step(s, e, maxBytes), PouwChain.Next(c, ToChain(e));
    forall r: Root | r !in c'.finalized ensures SameStanding(s', c', r) {
      assert SameStanding(s, c, r);
    }
  }

  lemma VoteTouchesVerifierOnly(s: System, c: PouwChain.State, f: Flows, e: Event, maxBytes: nat)
    requires e.AttestEvent? || e.ProveEvent?
    ensures var s', c' := Step(s, e, maxBytes), PouwChain.Next(c, ToChain(e));
            && s'.ledger == s.ledger && s'.energy == s.energy && s'.core == s.core && s'.self == s.self
            && c'.chain == c.chain && c'.nextEpoch == c.nextEpoch && c'.lastLoss == c.lastLoss
  {}

  lemma VoteRelated(s0: System, s: System, c: PouwChain.State, burned: map<Address, nat>, f: Flows, e: Event,
                    maxBytes: nat)
    requires Related(s0, s, c, burned, f) && Admissible(s, e, maxBytes) && (e.AttestEvent? || e.ProveEvent?)
    ensures Related(s0, Step(s, e, maxBytes), PouwChain.Next(c, ToChain(e)), BurnedBy(e, burned),
                    Note(s, e, maxBytes, f))
  {
    hide Accounted, PouwChain.EnergyIn, StandingRelated, Step, Note, PouwChain.Next, ToChain;
    StepAccounted(s0, s, e, maxBytes, f);
    OnlyRewardsReward(s, e, maxBytes, f);
    VoteStanding(s, c, e, maxBytes);
    VoteTouchesVerifierOnly(s, c, f, e, maxBytes);
    CountersKept(s, c, Step(s, e, maxBytes), PouwChain.Next(c, ToChain(e)));
  }

  lemma FinalizeRelated(s0: System, s: System, c: PouwChain.State, burned: map<Address, nat>, f: Flows, e: Event,
                        maxBytes: nat)
    requires Related(s0, s, c, burned, f) && Admissible(s, e, maxBytes) && e.FinalizeEvent? && s0.energy.supply < TWO256
    requires !ZeroLossTrap(c, e.root)
    ensures Related(s0, Step(s, e, maxBytes), PouwChain.Next(c, ToChain(e)), BurnedBy(e, burned),
                    Note(s, e, maxBytes, f))
    ensures Try(s, e, maxBytes).Changed? <==> PouwChain.MayFinalize(c, e.root)
  {
    DecisionsAgreeExactly(s0, s, c, burned, f, e.root);
    AcceptedGoesThrough(s0, s, c, burned, f, e.root, maxBytes);
    StepAccounted(s0, s, e, maxBytes, f);
    if MayFinalize(s, e.root) {
      AcceptedRelated(s0, s, c, burned, f, e, maxBytes);
    }
  }

  /** What an accepted finalisation does to the contract system. */
  lemma FinalizeEffect(s: System, root: Root, maxBytes: nat)
    requires Try(s, FinalizeEvent(root), maxBytes).Changed?
    ensures var next := Step(s, FinalizeEvent(root), maxBytes);
            var sub := SubmissionOf(s.ledger, root);
            && MayFinalize(s, root)
            && next.verifier == s.verifier && next.self == s.self
            && next.energy.admin == s.energy.admin && next.core.admin == s.core.admin
            && next.ledger == Ledger(s.ledger.submissions, s.ledger.finalized + {root},
                                     s.ledger.lastLoss[sub.creature := sub.loss],
                                     s.ledger.nextEpoch[sub.creature := sub.epoch + 1])
            && (forall m: Address :: Bal(next.energy.balances, m)
                                  == Bal(s.energy.balances, m) + if m == sub.miner then sub.energySpent else 0)
            && (forall m: Address :: Bal(next.core.balances, m)
                                  == Bal(s.core.balances, m) + if m == sub.miner then sub.energySpent * ETHER else 0)
  {
    hide Verified;
  }

  lemma AcceptedRelated(s0: System, s: System, c: PouwChain.State, burned: map<Address, nat>, f: Flows, e: Event,
                        maxBytes: nat)
    requires Related(s0, s, c, burned, f) && e.FinalizeEvent? && Try(s, e, maxBytes).Changed?
    requires PouwChain.MayFinalize(c, e.root)
    requires Accounted(s0, Step(s, e, maxBytes), Note(s, e, maxBytes, f))
    ensures Related(s0, Step(s, e, maxBytes), PouwChain.Finalized(c, e.root), burned, Note(s, e, maxBytes, f))
  {
    hide Accounted, Verified, PouwChain.Approved, Step, Note, Try, MayFinalize;
    hide StandingRelated, CountersRelated, RewardsRelated, PouwChain.Finalized;
    OnlyRewardsReward(s, e, maxBytes, f);
    FinalizeEffect(s, e.root, maxBytes);
    AcceptedEntry(s, c, e.root);
    AcceptedParts(s0, s, c, Step(s, e, maxBytes), PouwChain.Finalized(c, e.root), e.root, burned);
  }

  lemma AcceptedEntry(s: System, c: PouwChain.State, r: Root)
    requires StandingRelated(s, c) && PouwChain.MayFinalize(c, r)
    ensures r in c.pending && PendingOf(SubmissionOf(s.ledger, r)) == c.pending[r]
    ensures c.pending[r].epoch + 1 < PouwChain.TWO32
  {
    hide PouwChain.Approved;
    assert SameStanding(s, c, r);
  }

  lemma AcceptedParts(s0: System, s: System, c: PouwChain.State, s': System, c': PouwChain.State, r: Root,
                      burned: map<Address, nat>)
    requires StandingRelated(s, c) && CountersRelated(s, c) && RewardsRelated(s0, s, c, burned)
    requires r in c.pending && PendingOf(SubmissionOf(s.ledger, r)) == c.pending[r]
    requires c.pending[r].epoch + 1 < PouwChain.TWO32
    requires c' == PouwChain.Finalized(c, r) && s'.verifier == s.verifier
    requires s'.ledger == (var sub := SubmissionOf(s.ledger, r);
                           Ledger(s.ledger.submissions, s.ledger.finalized + {r},
                                  s.ledger.lastLoss[sub.creature := sub.loss],
                                  s.ledger.nextEpoch[sub.creature := sub.epoch + 1]))
    requires forall m: Address :: Bal(s'.energy.balances, m)
               == Bal(s.energy.balances, m) + if m == c.pending[r].miner then c.pending[r].energySpent else 0
    requires forall m: Address :: Bal(s'.core.balances, m)
               == Bal(s.core.balances, m) + if m == c.pending[r].miner then c.pending[r].energySpent * ETHER else 0
    ensures StandingRelated(s', c') && CountersRelated(s', c') && RewardsRelated(s0, s', c', burned)
  {
    hide StandingRelated, CountersRelated, RewardsRelated, PouwChain.Finalized;
    AcceptedStanding(s, c, s', c', r);
    AcceptedCounters(s, c, s', c', r, SubmissionOf(s.ledger, r));
    AcceptedRewards(s0, s, c, s', c', r, burned);
  }

  lemma AcceptedStanding(s: System, c: PouwChain.State, s': System, c': PouwChain.State, r: Root)
    requires StandingRelated(s, c) && r in c.pending && c' == PouwChain.Finalized(c, r) && s'.verifier == s.verifier
    requires s'.ledger.submissions == s.ledger.submissions && s'.ledger.finalized == s.ledger.finalized + {r}
    ensures StandingRelated(s', c')
  {
    hide Attestations, PouwChain.Wrap32, PouwChain.Wrap64, PouwChain.Balance;
    forall q: Root | q !in c'.finalized ensures SameStanding(s', c', q) {
      assert SameStanding(s, c, q);
    }
  }

  lemma AcceptedCounters(s: System, c: PouwChain.State, s': System, c': PouwChain.State, r: Root, sub: Submission)
    requires CountersRelated(s, c) && r in c.pending && c' == PouwChain.Finalized(c, r)
    requires PendingOf(sub) == c.pending[r] && sub.epoch + 1 < PouwChain.TWO32
    requires s'.ledger.lastLoss == s.ledger.lastLoss[sub.creature := sub.loss]
    requires s'.ledger.nextEpoch == s.ledger.nextEpoch[sub.creature := sub.epoch + 1]
    ensures CountersRelated(s', c')
  {
    hide PouwChain.Wrap64, PouwChain.Balance;
    forall k: Creature ensures PouwChain.Expected(c', k) == NextEpoch(s'.ledger, k) && SameLoss(s', c', k) {
      assert SameLoss(s, c, k) && PouwChain.Expected(c, k) == NextEpoch(s.ledger, k);
    }
  }

  lemma AcceptedRewards(s0: System, s: System, c: PouwChain.State, s': System, c': PouwChain.State, r: Root,
                        burned: map<Address, nat>)
    requires RewardsRelated(s0, s, c, burned) && r in c.pending && c' == PouwChain.Finalized(c, r)
    requires forall m: Address :: Bal(s'.energy.balances, m)
               == Bal(s.energy.balances, m) + if m == c.pending[r].miner then c.pending[r].energySpent else 0
    requires forall m: Address :: Bal(s'.core.balances, m)
               == Bal(s.core.balances, m) + if m == c.pending[r].miner then c.pending[r].energySpent * ETHER else 0
    ensures RewardsRelated(s0, s', c', burned)
  {
    hide PouwChain.EnergyIn, PouwChain.Wrap32, PouwChain.Wrap64, PouwChain.Balance, Bal;
    var p := c.pending[r];
    forall m: Address
      ensures PouwChain.EnergyIn(c'.chain, m)
           == PouwChain.EnergyIn(c.chain, m) + if m == p.miner then p.energySpent else 0
    {
      EnergyAppended(c.chain, c'.chain, m);
    }
  }

  lemma EnergyAppended(chain: seq<PouwChain.Block>, longer: seq<PouwChain.Block>, m: Address)
    requires |longer| == |chain| + 1 && longer[..|chain|] == chain
    ensures var last := longer[|chain|].data;
            var more := if last.miner == m then last.energySpent else 0;
            PouwChain.EnergyIn(longer, m) == PouwChain.EnergyIn(chain, m) + more
  {}

  // ---------------------------------------------------------------- whole runs

  function ChainAfter(quorum: nat, events: seq<Event>): PouwChain.State
    requires forall i | 0 <= i < |events| :: Shared(events[i])
    decreases |events|
  {
    if events == [] then PouwChain.Empty(quorum)
    else PouwChain.Next(ChainAfter(quorum, events[..|events| - 1]), ToChain(events[|events| - 1]))
  }

  /** `ChainAfter` is the chain's own run on the translated events. */
  lemma {:induction false} ChainAfterIsRun(quorum: nat, events: seq<Event>)
    requires forall i | 0 <= i < |events| :: Shared(events[i])
    ensures ChainAfter(quorum, events) == PouwChain.Run(PouwChain.Empty(quorum), ChainEvents(events))
    decreases |events|
  {
    if events != [] {
      var n := |events| - 1;
      ChainAfterIsRun(quorum, events[..n]);
      assert ChainEvents(events)[..n] == ChainEvents(events[..n]);
    }
  }

  function BurnedAfter(events: seq<Event>): map<Address, nat>
    decreases |events|
  {
    if events == [] then map[] else BurnedBy(events[|events| - 1], BurnedAfter(events[..|events| - 1]))
  }

  /** The contract system as deployed for the comparison. */
  ghost predicate Deployment(s0: System) {
    FreshLedger(s0) && s0.energy.admin == s0.self && s0.core.admin == s0.self
    && s0.verifier == Verifier(s0.verifier.quorum, map[], {}) && s0.verifier.quorum >= 1
  }

  lemma DeployedRelated(s0: System)
    requires Deployment(s0)
    ensures Related(s0, s0, PouwChain.Empty(s0.verifier.quorum), map[], NO_FLOWS)
  {
    FreshAccounted(s0);
  }

  lemma AllShared(s: System, events: seq<Event>, maxBytes: nat)
    requires AllAdmissible(s, events, maxBytes)
    ensures forall i | 0 <= i < |events| :: Shared(events[i])
    decreases |events|
  {
    if events != [] {
      AllShared(s, events[..|events| - 1], maxBytes);
    }
  }

  /** The chain before event i. */
  function ChainBefore(quorum: nat, events: seq<Event>, i: nat): PouwChain.State
    requires i <= |events| && forall k | 0 <= k < |events| :: Shared(events[k])
  {
    PouwChain.Run(PouwChain.Empty(quorum), ChainEvents(events[..i]))
  }

  /** Event i is a finalisation in the zero-loss trap. */
  predicate TrappedAt(quorum: nat, events: seq<Event>, i: nat)
    requires i < |events| && forall k | 0 <= k < |events| :: Shared(events[k])
  {
    events[i].FinalizeEvent? && ZeroLossTrap(ChainBefore(quorum, events, i), events[i].root)
  }

  ghost predicate NeverTrapped(quorum: nat, events: seq<Event>)
    requires forall k | 0 <= k < |events| :: Shared(events[k])
  {
    forall i | 0 <= i < |events| :: !TrappedAt(quorum, events, i)
  }

  /** If event i is a finalisation, it succeeds on both sides or on neither. */
  predicate DecidedAlike(s0: System, events: seq<Event>, maxBytes: nat, i: nat)
    requires i < |events| && forall k | 0 <= k < |events| :: Shared(events[k])
  {
    events[i].FinalizeEvent? ==>
      (Try(Run(s0, events[..i], maxBytes), events[i], maxBytes).Changed?
       <==> PouwChain.MayFinalize(ChainBefore(s0.verifier.quorum, events, i), events[i].root))
  }

  lemma TrapOfPrefix(quorum: nat, events: seq<Event>, n: nat, i: nat)
    requires i < n <= |events| && forall k | 0 <= k < |events| :: Shared(events[k])
    ensures TrappedAt(quorum, events[..n], i) <==> TrappedAt(quorum, events, i)
  {
    hide ZeroLossTrap;
    assert events[..n][..i] == events[..i];
  }

  /** Up to the first finalisation in the trap the two ledgers stay related. */
  lemma RunRelated(s0: System, events: seq<Event>, maxBytes: nat)
    requires Deployment(s0) && AllAdmissible(s0, events, maxBytes)
    requires forall i | 0 <= i < |events| :: Shared(events[i])
    requires NeverTrapped(s0.verifier.quorum, events)
    ensures Related(s0, Run(s0, events, maxBytes), ChainAfter(s0.verifier.quorum, events), BurnedAfter(events),
                    FlowsOf(s0, events, maxBytes))
    decreases |events|
  {
    hide Related, Admissible, Step, Note, ToChain, Deployment, BurnedBy, TrappedAt;
    if events == [] {
      DeployedRelated(s0);
    } else {
      var n := |events| - 1;
      forall i | 0 <= i < n ensures !TrappedAt(s0.verifier.quorum, events[..n], i) {
        TrapOfPrefix(s0.verifier.quorum, events, n, i);
      }
      RunRelated(s0, events[..n], maxBytes);
      LastStepRelated(s0, events, maxBytes);
    }
  }

  lemma LastStepRelated(s0: System, events: seq<Event>, maxBytes: nat)
    requires Deployment(s0) && AllAdmissible(s0, events, maxBytes) && events != []
    requires forall i | 0 <= i < |events| :: Shared(events[i])
    requires var front := events[..|events| - 1];
             Related(s0, Run(s0, front, maxBytes), ChainAfter(s0.verifier.quorum, front), BurnedAfter(front),
                     FlowsOf(s0, front, maxBytes))
    requires !TrappedAt(s0.verifier.quorum, events, |events| - 1)
    ensures Related(s0, Run(s0, events, maxBytes), ChainAfter(s0.verifier.quorum, events), BurnedAfter(events),
                    FlowsOf(s0, events, maxBytes))
  {
    hide Related, Admissible, Step, Note, ToChain, Deployment, BurnedBy, ZeroLossTrap, PouwChain.Run;
    var front, e := events[..|events| - 1], events[|events| - 1];
    ChainAfterIsRun(s0.verifier.quorum, front);
    StepRelated(s0, Run(s0, front, maxBytes), ChainAfter(s0.verifier.quorum, front), BurnedAfter(front),
                FlowsOf(s0, front, maxBytes), e, maxBytes);
  }

  lemma StepRelated(s0: System, s: System, c: PouwChain.State, burned: map<Address, nat>, f: Flows, e: Event,
                    maxBytes: nat)
    requires Deployment(s0) && Related(s0, s, c, burned, f) && Admissible(s, e, maxBytes)
    requires e.FinalizeEvent? ==> !ZeroLossTrap(c, e.root)
    ensures Related(s0, Step(s, e, maxBytes), PouwChain.Next(c, ToChain(e)), BurnedBy(e, burned),
                    Note(s, e, maxBytes, f))
  {
    hide Related, Step, Note, BurnedBy, Finalize, PouwChain.Approved;
    match e
    case SubmitEvent(_, _, _) => SubmitRelated(s0, s, c, burned, f, e, maxBytes);
    case FinalizeEvent(r) => FinalizeRelated(s0, s, c, burned, f, e, maxBytes);
    case AttestEvent(_) => VoteRelated(s0, s, c, burned, f, e, maxBytes);
    case ProveEvent(_, _) => VoteRelated(s0, s, c, burned, f, e, maxBytes);
  }

  /** As long as no earlier finalisation met the trap, event i is decided alike exactly when it
      does not meet it either. */
  lemma AlikeUnlessTrapped(s0: System, events: seq<Event>, maxBytes: nat, i: nat)
    requires Deployment(s0) && AllAdmissible(s0, events, maxBytes) && i < |events|
    requires forall k | 0 <= k < |events| :: Shared(events[k])
    requires forall k | 0 <= k < i :: !TrappedAt(s0.verifier.quorum, events, k)
    ensures DecidedAlike(s0, events, maxBytes, i) <==> !TrappedAt(s0.verifier.quorum, events, i)
  {
    hide Related, Run, Try, MayFinalize, PouwChain.Run, PouwChain.MayFinalize, ZeroLossTrap;
    hide Admissible, AllAdmissible, FlowsOf, BurnedAfter;
    var quorum := s0.verifier.quorum;
    if events[i].FinalizeEvent? {
      forall k | 0 <= k < i ensures !TrappedAt(quorum, events[..i], k) {
        TrapOfPrefix(quorum, events, i, k);
      }
      PrefixAdmissible(s0, events, maxBytes, i);
      RunRelated(s0, events[..i], maxBytes);
      ChainAfterIsRun(quorum, events[..i]);
      var s, c := Run(s0, events[..i], maxBytes), ChainAfter(quorum, events[..i]);
      DecisionsAgreeExactly(s0, s, c, BurnedAfter(events[..i]), FlowsOf(s0, events[..i], maxBytes), events[i].root);
      AcceptedGoesThrough(s0, s, c, BurnedAfter(events[..i]), FlowsOf(s0, events[..i], maxBytes), events[i].root,
                          maxBytes);
    }
  }

  /** Simulation.  Over every admissible run, `finalize_checkpoint` on the chain and
      `finalizeCheckpoint` on the contract succeed on exactly the same events if and only if no
      finalisation of the run meets the zero-loss trap.  Then, at the end, the finalised roots,
      next epochs, last losses and rewards agree: ENERGY balances differ from the start by what
      was rewarded less what was burned, CORE balances by 1 ether per rewarded unit. */
  lemma Simulation(s0: System, events: seq<Event>, maxBytes: nat)
    requires Deployment(s0) && AllAdmissible(s0, events, maxBytes)
    ensures forall i | 0 <= i < |events| :: Shared(events[i])
    ensures (forall i | 0 <= i < |events| :: DecidedAlike(s0, events, maxBytes, i))
       <==> NeverTrapped(s0.verifier.quorum, events)
    ensures NeverTrapped(s0.verifier.quorum, events) ==>
              var s := Run(s0, events, maxBytes);
              var c := PouwChain.Run(PouwChain.Empty(s0.verifier.quorum), ChainEvents(events));
              var burned := BurnedAfter(events);
              && c.finalized == s.ledger.finalized
              && (forall k: Creature :: PouwChain.Expected(c, k) == NextEpoch(s.ledger, k) && SameLoss(s, c, k))
              && (forall m: Address ::
                    (Bal(s.energy.balances, m) + Bal(burned, m)
                     == Bal(s0.energy.balances, m) + PouwChain.EnergyIn(c.chain, m)))
              && (forall m: Address ::
                    Bal(s.core.balances, m) == Bal(s0.core.balances, m) + PouwChain.EnergyIn(c.chain, m) * ETHER)
  {
    hide Run, ChainAfter, PouwChain.Run, AllAdmissible, BurnedAfter, FlowsOf, Accounted, Deployment;
    hide TrappedAt, DecidedAlike;
    AllShared(s0, events, maxBytes);
    if NeverTrapped(s0.verifier.quorum, events) {
      forall i | 0 <= i < |events| ensures DecidedAlike(s0, events, maxBytes, i) {
        AlikeUnlessTrapped(s0, events, maxBytes, i);
      }
      RunRelated(s0, events, maxBytes);
      ChainAfterIsRun(s0.verifier.quorum, events);
    } else {
      var i := FirstTrap(s0.verifier.quorum, events);
      AlikeUnlessTrapped(s0, events, maxBytes, i);
    }
  }

  lemma FirstTrap(quorum: nat, events: seq<Event>) returns (i: nat)
    requires forall k | 0 <= k < |events| :: Shared(events[k])
    requires !NeverTrapped(quorum, events)
    ensures i < |events| && TrappedAt(quorum, events, i)
    ensures forall k | 0 <= k < i :: !TrappedAt(quorum, events, k)
  {
    hide TrappedAt;
    i := 0;
    while !TrappedAt(quorum, events, i)
      invariant i < |events| && forall k | 0 <= k < i :: !TrappedAt(quorum, events, k)
      decreases |events| - i
    {
      assert exists k | 0 <= k < |events| :: TrappedAt(quorum, events, k);
      i := i + 1;
    }
  }

  predicate PositiveLosses(events: seq<Event>) {
    forall i | 0 <= i < |events| && events[i].SubmitEvent? :: events[i].sub.loss > 0
  }

  /** With positive losses the recorded ones are positive too. */
  ghost predicate OnlyPositive(c: PouwChain.State) {
    && (forall k | k in c.lastLoss :: c.lastLoss[k] > 0)
    && (forall r | r in c.pending :: c.pending[r].loss > 0)
  }

  lemma PositiveStays(quorum: nat, events: seq<Event>)
    requires PositiveLosses(events) && forall i | 0 <= i < |events| :: Shared(events[i])
    ensures OnlyPositive(ChainAfter(quorum, events))
    decreases |events|
  {
    hide OnlyPositive, PouwChain.Next, ToChain;
    if events == [] {
      NothingRecorded(quorum);
    } else {
      PositiveStays(quorum, events[..|events| - 1]);
      PositiveNext(ChainAfter(quorum, events[..|events| - 1]), events[|events| - 1]);
    }
  }

  lemma NothingRecorded(quorum: nat)
    ensures OnlyPositive(PouwChain.Empty(quorum))
  {}

  lemma PositiveNext(c: PouwChain.State, e: Event)
    requires OnlyPositive(c) && Shared(e) && (e.SubmitEvent? ==> e.sub.loss > 0)
    ensures OnlyPositive(PouwChain.Next(c, ToChain(e)))
  {
    hide PouwChain.Approved, PouwChain.Wrap32, PouwChain.Wrap64, PouwChain.Balance;
  }

  /** Runs with positive losses never meet the trap, so on all of them the ledgers agree. */
  lemma PositiveLossesNeverTrapped(quorum: nat, events: seq<Event>)
    requires PositiveLosses(events) && forall i | 0 <= i < |events| :: Shared(events[i])
    ensures NeverTrapped(quorum, events)
  {
    hide ChainAfter, PouwChain.Run;
    forall i | 0 <= i < |events| ensures !TrappedAt(quorum, events, i) {
      PositiveStays(quorum, events[..i]);
      ChainAfterIsRun(quorum, events[..i]);
    }
  }

  lemma {:induction false} PrefixAdmissible(s: System, events: seq<Event>, maxBytes: nat, i: nat)
    requires AllAdmissible(s, events, maxBytes) && i < |events|
    ensures AllAdmissible(s, events[..i], maxBytes) && Admissible(Run(s, events[..i], maxBytes), events[i], maxBytes)
    decreases |events|
  {
    hide Admissible, Run;
    var n := |events| - 1;
    if i < n {
      PrefixAdmissible(s, events[..n], maxBytes, i);
      assert events[..n][..i] == events[..i];
    }
  }

  // ---------------------------------------------------------------- the premises are needed

  lemma RunAppend(s: System, events: seq<Event>, e: Event, maxBytes: nat)
    ensures Run(s, events + [e], maxBytes) == Step(Run(s, events, maxBytes), e, maxBytes)
    ensures AllAdmissible(s, events + [e], maxBytes)
       <==> AllAdmissible(s, events, maxBytes) && Admissible(Run(s, events, maxBytes), e, maxBytes)
  {
    assert (events + [e])[..|events|] == events;
  }

  lemma ChainAppend(quorum: nat, events: seq<Event>, e: Event)
    requires forall i | 0 <= i < |events + [e]| :: Shared((events + [e])[i])
    ensures forall i | 0 <= i < |events| :: Shared(events[i])
    ensures Shared(e) && ChainAfter(quorum, events + [e]) == PouwChain.Next(ChainAfter(quorum, events), ToChain(e))
  {
    forall i | 0 <= i < |events| ensures Shared(events[i]) {
      assert (events + [e])[i] == events[i];
    }
    assert (events + [e])[|events|] == e;
    assert (events + [e])[..|events|] == events;
  }

  const NOTHING := Token(7, map[], 0)

  /** A deployment with quorum 1 and no tokens in circulation. */
  const TRAP_START := System(Ledger(map[], {}, map[], map[]), Verifier(1, map[], {}), NOTHING, NOTHING, 7)

  const AT_ZERO := Submission(1, 0, 1, 0, 0)
  const AT_FIVE := Submission(1, 1, 1, 5, 0)

  /** Creature 1 is finalised at loss 0 and then reported at loss 5. */
  const TRAP_EVENTS: seq<Event> :=
    [SubmitEvent(AT_ZERO, 10, 0), AttestEvent(10), FinalizeEvent(10), SubmitEvent(AT_FIVE, 11, 0), AttestEvent(11)]

  const TRAP_SYSTEM := System(Ledger(map[10 := AT_ZERO, 11 := AT_FIVE], {10}, map[1 := 0], map[1 := 1]),
                              Verifier(1, map[10 := 1, 11 := 1], {}),
                              Token(7, map[1 := 0], 0), Token(7, map[1 := 0], 0), 7)

  lemma TrapSystem()
    ensures Run(TRAP_START, TRAP_EVENTS, 0) == TRAP_SYSTEM && AllAdmissible(TRAP_START, TRAP_EVENTS, 0)
  {
    var es := TRAP_EVENTS;
    hide Step, Admissible;
    TrapFirst();
    TrapFinalization();
    TrapSecond();
    assert es[..0] == [] && es[..1] == [] + [es[0]] && es[..2] == es[..1] + [es[1]] && es[..3] == es[..2] + [es[2]]
        && es[..4] == es[..3] + [es[3]] && es == es[..4] + [es[4]];
    RunAppend(TRAP_START, [], es[0], 0);
    RunAppend(TRAP_START, es[..1], es[1], 0);
    RunAppend(TRAP_START, es[..2], es[2], 0);
    RunAppend(TRAP_START, es[..3], es[3], 0);
    RunAppend(TRAP_START, es[..4], es[4], 0);
  }

  const TRAP_SUBMITTED := TRAP_START.(ledger := Ledger(map[10 := AT_ZERO], {}, map[], map[]))
  const TRAP_ATTESTED := TRAP_SUBMITTED.(verifier := Verifier(1, map[10 := 1], {}))
  const TRAP_FINALIZED := System(Ledger(map[10 := AT_ZERO], {10}, map[1 := 0], map[1 := 1]),
                                 Verifier(1, map[10 := 1], {}),
                                 Token(7, map[1 := 0], 0), Token(7, map[1 := 0], 0), 7)
  const TRAP_RESUBMITTED := TRAP_FINALIZED.(ledger := Ledger(map[10 := AT_ZERO, 11 := AT_FIVE], {10}, map[1 := 0],
                                                             map[1 := 1]))

  lemma FreeSubmission(s: System, sub: Submission, root: Root)
    requires sub.energySpent == 0 && sub.miner != 0 && sub.epoch + 1 < PouwChain.TWO32
    ensures Step(s, SubmitEvent(sub, root, 0), 0)
         == s.(ledger := s.ledger.(submissions := s.ledger.submissions[root := sub]))
    ensures Admissible(s, SubmitEvent(sub, root, 0), 0)
  {}

  lemma OneAttestation(s: System, root: Root)
    ensures var count := Attestations(s.verifier, root) + 1;
            var verifier := s.verifier.(attestations := s.verifier.attestations[root := count]);
            Step(s, AttestEvent(root), 0) == s.(verifier := verifier)
    ensures Admissible(s, AttestEvent(root), 0)
  {}

  lemma FreeFinalization(s: System, root: Root)
    requires var sub := SubmissionOf(s.ledger, root);
             && MayFinalize(s, root) && sub.energySpent == 0
             && Bal(s.energy.balances, sub.miner) == Bal(s.core.balances, sub.miner) == 0
    requires s.energy.admin == s.core.admin == s.self && s.energy.supply == s.core.supply == 0
    ensures var sub := SubmissionOf(s.ledger, root);
            var next := s.(energy := s.energy.(balances := s.energy.balances[sub.miner := 0]),
                           core := s.core.(balances := s.core.balances[sub.miner := 0]),
                           ledger := Ledger(s.ledger.submissions, s.ledger.finalized + {root},
                                            s.ledger.lastLoss[sub.creature := sub.loss],
                                            s.ledger.nextEpoch[sub.creature := sub.epoch + 1]));
            Step(s, FinalizeEvent(root), 0) == next
    ensures Admissible(s, FinalizeEvent(root), 0)
    ensures Try(s, FinalizeEvent(root), 0).Changed?
  {
    hide MayFinalize;
  }

  lemma TrapFirst()
    ensures var es := TRAP_EVENTS;
            && Step(TRAP_START, es[0], 0) == TRAP_SUBMITTED && Admissible(TRAP_START, es[0], 0)
            && Step(TRAP_SUBMITTED, es[1], 0) == TRAP_ATTESTED && Admissible(TRAP_SUBMITTED, es[1], 0)
  {
    hide Step, Admissible;
    FreeSubmission(TRAP_START, AT_ZERO, 10);
    OneAttestation(TRAP_SUBMITTED, 10);
  }

  lemma TrapFinalization()
    ensures Step(TRAP_ATTESTED, FinalizeEvent(10), 0) == TRAP_FINALIZED
    ensures Admissible(TRAP_ATTESTED, FinalizeEvent(10), 0)
  {
    hide Step, Admissible;
    assert MayFinalize(TRAP_ATTESTED, 10);
    FreeFinalization(TRAP_ATTESTED, 10);
  }

  lemma TrapSecond()
    ensures var es := TRAP_EVENTS;
            && Step(TRAP_FINALIZED, es[3], 0) == TRAP_RESUBMITTED && Admissible(TRAP_FINALIZED, es[3], 0)
            && Step(TRAP_RESUBMITTED, es[4], 0) == TRAP_SYSTEM && Admissible(TRAP_RESUBMITTED, es[4], 0)
  {
    hide Step, Admissible;
    FreeSubmission(TRAP_FINALIZED, AT_FIVE, 11);
    OneAttestation(TRAP_RESUBMITTED, 11);
  }

  /** In that run the contract goes on to take the second checkpoint and the chain does not. */
  lemma ZeroLossSeparates()
    ensures Deployment(TRAP_START) && AllAdmissible(TRAP_START, TRAP_EVENTS, 0)
    ensures forall i | 0 <= i < |TRAP_EVENTS| :: Shared(TRAP_EVENTS[i])
    ensures Try(Run(TRAP_START, TRAP_EVENTS, 0), FinalizeEvent(11), 0).Changed?
    ensures !PouwChain.MayFinalize(ChainAfter(1, TRAP_EVENTS), 11)
  {
    hide Run, AllAdmissible, ChainAfter;
    assert Sum(map[]) == 0;
    TrapSystem();
    assert MayFinalize(TRAP_SYSTEM, 11);
    FreeFinalization(TRAP_SYSTEM, 11);
    TrapChain();
  }

  lemma TrapChain()
    ensures forall i | 0 <= i < |TRAP_EVENTS| :: Shared(TRAP_EVENTS[i])
    ensures var c := ChainAfter(1, TRAP_EVENTS);
            11 in c.pending && c.pending[11] == PendingOf(AT_FIVE) && 1 in c.lastLoss && c.lastLoss[1] == 0
  {
    hide PouwChain.EnergyIn;
    var es := TRAP_EVENTS;
    assert es[..0] == [] && es[..1] == [] + [es[0]] && es[..2] == es[..1] + [es[1]] && es[..3] == es[..2] + [es[2]]
        && es[..4] == es[..3] + [es[3]] && es == es[..4] + [es[4]];
    ChainAppend(1, es[..4], es[4]);
    ChainAppend(1, es[..3], es[3]);
    ChainAppend(1, es[..2], es[2]);
    ChainAppend(1, es[..1], es[1]);
    ChainAppend(1, [], es[0]);
    var c2 := ChainAfter(1, es[..2]);
    assert c2.counts == map[10 := 1] && c2.pending == map[10 := PendingOf(AT_ZERO)];
    assert PouwChain.MayFinalize(c2, 10);
    var c3 := ChainAfter(1, es[..3]);
    assert c3.lastLoss == map[1 := 0];
  }

  /** With quorum 0 the contract counts a root nobody voted for as verified and the chain does
      not: `SameStanding` cannot give agreement without the quorum premise. */
  lemma QuorumZeroSeparates(s: System, c: PouwChain.State, r: Root)
    requires SameStanding(s, c, r) && c.quorum == s.verifier.quorum
    ensures (PouwChain.Approved(c, r) <==> Verified(s.verifier, r))
       <==> c.quorum >= 1 || r in c.counts || r in c.proven
  {}
}
