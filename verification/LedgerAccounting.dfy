/** What every history of the contract system adds up to: the ledger is the only minter and
    burner of the tokens, while holders transfer and spend as they like, and anybody may call
    `rewardMiner` and `setQuorum`. */
module LedgerAccounting {
  import opened Tokens
  import opened TrainingLedger

  datatype Event =
    | SubmitEvent(sub: Submission, root: Root, modelBytes: nat)
    | AttestEvent(root: Root)
    | ProveEvent(root: Root, computed: Root)
    | FinalizeEvent(root: Root)
    | EnergyTransfer(from: Address, to: Address, amount: nat)
    | EnergySpend(from: Address, amount: nat)
    | CoreTransfer(from: Address, to: Address, amount: nat)
    | RewardEvent(miner: Address, amount: nat)
    | QuorumEvent(newQuorum: nat)

  function WithCore(s: System, o: Outcome): Result {
    match o case Revert => Reverted case Done(t) => Changed(s.(core := t))
  }

  function Try(s: System, e: Event, maxBytes: nat): Result {
    match e
    case SubmitEvent(sub, root, bytes) => Submit(s, sub, root, bytes, maxBytes)
    case AttestEvent(root) => Attest(s, root)
    case ProveEvent(root, computed) => TakeProof(s, root, computed)
    case FinalizeEvent(root) => Finalize(s, root)
    case EnergyTransfer(from, to, amount) => WithEnergy(s, Move(s.energy, from, to, amount))
    case EnergySpend(from, amount) => WithEnergy(s, Debit(s.energy, from, amount))
    case CoreTransfer(from, to, amount) => WithCore(s, Move(s.core, from, to, amount))
    case RewardEvent(miner, amount) => RewardMiner(s, miner, amount)
    case QuorumEvent(newQuorum) => Changed(s.(verifier := s.verifier.(quorum := newQuorum)))
  }

  function Step(s: System, e: Event, maxBytes: nat): System {
    match Try(s, e, maxBytes) case Reverted => s case Changed(next) => next
  }

  function Run(s: System, events: seq<Event>, maxBytes: nat): System
    decreases |events|
  {
    if events == [] then s else Step(Run(s, events[..|events| - 1], maxBytes), events[|events| - 1], maxBytes)
  }

  /** ENERGY burned by submissions, minted back by finalisations, spent by holders, and minted by
      `rewardMiner`. */
  datatype Flows = Flows(burned: nat, reminted: nat, spent: nat, rewarded: nat)

  const NO_FLOWS := Flows(0, 0, 0, 0)

  function Note(s: System, e: Event, maxBytes: nat, f: Flows): Flows {
    if Try(s, e, maxBytes).Reverted? then f
    else
      match e
      case SubmitEvent(sub, _, _) => f.(burned := f.burned + sub.energySpent)
      case FinalizeEvent(root) => f.(reminted := f.reminted + SubmissionOf(s.ledger, root).energySpent)
      case EnergySpend(_, amount) => f.(spent := f.spent + amount)
      case RewardEvent(_, amount) => f.(rewarded := f.rewarded + amount)
      case _ => f
  }

  function FlowsOf(s: System, events: seq<Event>, maxBytes: nat): Flows
    decreases |events|
  {
    if events == [] then NO_FLOWS
    else
      var n := |events| - 1;
      Note(Run(s, events[..n], maxBytes), events[n], maxBytes, FlowsOf(s, events[..n], maxBytes))
  }

  lemma OnlyRewardsReward(s: System, e: Event, maxBytes: nat, f: Flows)
    ensures e.RewardEvent? || Note(s, e, maxBytes, f).rewarded == f.rewarded
  {
    hide Try;
  }

  /** What an event does to the tokens is a call on them: the ledger mints and burns in its own
      name, holders move and spend in theirs. */
  lemma EventsAreCalls(s: System, e: Event, maxBytes: nat)
    ensures var next := Step(s, e, maxBytes);
            match e
            case SubmitEvent(sub, _, _) =>
              next.core == s.core && (next.energy == s.energy
                                      || next.energy == Apply(s.energy, false,
                                                              BurnCall(s.self, sub.miner, sub.energySpent)))
            case FinalizeEvent(root) =>
              var sub := SubmissionOf(s.ledger, root);
              || (next.energy == s.energy && next.core == s.core)
              || (next.energy == Apply(s.energy, false, MintCall(s.self, sub.miner, sub.energySpent))
                  && next.core == Apply(s.core, true,
                                        MintCall(s.self, sub.miner, sub.energySpent * 1_000_000_000_000_000_000)))
            case EnergyTransfer(from, to, amount) =>
              next.energy == Apply(s.energy, false, TransferCall(from, to, amount)) && next.core == s.core
            case EnergySpend(from, amount) =>
              next.energy == Apply(s.energy, false, SpendCall(from, amount)) && next.core == s.core
            case CoreTransfer(from, to, amount) =>
              next.core == Apply(s.core, true, TransferCall(from, to, amount)) && next.energy == s.energy
            case RewardEvent(miner, amount) =>
              next.energy == Apply(s.energy, false, MintCall(s.self, miner, amount)) && next.core == s.core
            case _ => next.energy == s.energy && next.core == s.core
    ensures Step(s, e, maxBytes).ledger == s.ledger || e.SubmitEvent? || e.FinalizeEvent?
    ensures e.QuorumEvent? ==>
              Step(s, e, maxBytes).verifier == Verifier(e.newQuorum, s.verifier.attestations, s.verifier.proven)
  {
    hide MayFinalize, Credit, Debit, Move;
  }

  // ---------------------------------------------------------------- open submissions

  /** Energy of the submissions that can still be finalised. */
  function Open(l: Ledger): map<Root, nat> {
    map r | r in l.submissions && r !in l.finalized :: l.submissions[r].energySpent
  }

  lemma OpenAfterSubmit(l: Ledger, root: Root, sub: Submission)
    ensures Sum(Open(l.(submissions := l.submissions[root := sub]))) <= Sum(Open(l)) + sub.energySpent
  {
    var next := l.(submissions := l.submissions[root := sub]);
    if root in l.finalized {
      assert Open(next) == Open(l);
    } else {
      assert Open(next) == Open(l)[root := sub.energySpent];
      SumUpdate(Open(l), root, sub.energySpent);
    }
  }

  lemma OpenAfterFinalize(l: Ledger, root: Root, next: Ledger)
    requires SubmissionOf(l, root).miner != 0 && root !in l.finalized
    requires next.submissions == l.submissions && next.finalized == l.finalized + {root}
    ensures Sum(Open(next)) + SubmissionOf(l, root).energySpent == Sum(Open(l))
  {
    assert Open(next) == Open(l) - {root};
    SumRemove(Open(l), root);
  }

  // ---------------------------------------------------------------- the invariant

  ghost predicate Accounted(s0: System, s: System, f: Flows) {
    && Backed(s.energy) && Backed(s.core)
    && s.self == s0.self && s.energy.admin == s0.energy.admin && s.core.admin == s0.core.admin
    && f.reminted + Sum(Open(s.ledger)) <= f.burned
    && s.energy.supply + f.burned + f.spent == s0.energy.supply + f.reminted + f.rewarded
    && s.core.supply == s0.core.supply + f.reminted * ETHER
  }

  lemma SubmitAccounted(s0: System, s: System, e: Event, maxBytes: nat, f: Flows)
    requires Accounted(s0, s, f) && e.SubmitEvent? && Try(s, e, maxBytes).Changed?
    ensures Accounted(s0, Step(s, e, maxBytes), Note(s, e, maxBytes, f))
  {
    hide Backed, Open;
    OpenAfterSubmit(s.ledger, e.root, e.sub);
    DebitKeepsBacked(s.energy, e.sub.miner, e.sub.energySpent);
  }

  lemma FinalizeAccounted(s0: System, s: System, e: Event, maxBytes: nat, f: Flows)
    requires Accounted(s0, s, f) && e.FinalizeEvent? && Try(s, e, maxBytes).Changed?
    ensures Accounted(s0, Step(s, e, maxBytes), Note(s, e, maxBytes, f))
  {
    hide Backed, Open, Verified;
    var sub := SubmissionOf(s.ledger, e.root);
    var next := Step(s, e, maxBytes);
    OpenAfterFinalize(s.ledger, e.root, next.ledger);
    CreditKeepsBacked(s.energy, sub.miner, sub.energySpent);
    CreditKeepsBacked(s.core, sub.miner, sub.energySpent * ETHER);
  }

  lemma StepAccounted(s0: System, s: System, e: Event, maxBytes: nat, f: Flows)
    requires Accounted(s0, s, f)
    ensures Accounted(s0, Step(s, e, maxBytes), Note(s, e, maxBytes, f))
  {
    if Try(s, e, maxBytes).Changed? {
      match e
      case SubmitEvent(_, _, _) => SubmitAccounted(s0, s, e, maxBytes, f);
      case FinalizeEvent(_) => FinalizeAccounted(s0, s, e, maxBytes, f);
      case EnergyTransfer(from, to, amount) => MoveIsExact(s.energy, from, to, amount);
      case EnergySpend(from, amount) => DebitKeepsBacked(s.energy, from, amount);
      case CoreTransfer(from, to, amount) => MoveIsExact(s.core, from, to, amount);
      case AttestEvent(_) =>
      case ProveEvent(_, _) =>
      case RewardEvent(miner, amount) => CreditKeepsBacked(s.energy, miner, amount);
      case QuorumEvent(_) =>
    }
  }

  /** A ledger on which nothing was submitted yet, over any two tokens. */
  ghost predicate FreshLedger(s: System) {
    s.ledger == Ledger(map[], {}, map[], map[]) && Backed(s.energy) && Backed(s.core)
  }

  lemma {:induction false} RunAccounted(s0: System, events: seq<Event>, maxBytes: nat)
    requires FreshLedger(s0)
    ensures Accounted(s0, Run(s0, events, maxBytes), FlowsOf(s0, events, maxBytes))
    decreases |events|
  {
    hide Step, Note, Accounted;
    if events == [] {
      FreshAccounted(s0);
    } else {
      var n := |events| - 1;
      RunAccounted(s0, events[..n], maxBytes);
      StepAccounted(s0, Run(s0, events[..n], maxBytes), events[n], maxBytes, FlowsOf(s0, events[..n], maxBytes));
    }
  }

  lemma FreshAccounted(s0: System)
    requires FreshLedger(s0)
    ensures Accounted(s0, s0, NO_FLOWS)
  {
    assert Open(s0.ledger) == map[];
    assert Sum(map[]) == 0;
  }

  /** After any history, whoever sets the quorum to whatever: balances of both tokens add up to
      their supplies, no more ENERGY was minted back than submissions burned, the ENERGY supply
      never exceeds what it started with plus what `rewardMiner` minted, and CORE grew by exactly
      1 ether per re-minted unit. */
  lemma EveryHistory(s0: System, events: seq<Event>, maxBytes: nat)
    requires FreshLedger(s0)
    ensures var s := Run(s0, events, maxBytes);
            var f := FlowsOf(s0, events, maxBytes);
            && Sum(s.energy.balances) == s.energy.supply && Sum(s.core.balances) == s.core.supply
            && f.reminted <= f.burned
            && s.energy.supply == s0.energy.supply - f.burned - f.spent + f.reminted + f.rewarded
            && s.energy.supply <= s0.energy.supply + f.rewarded
            && s.core.supply - s0.core.supply == f.reminted * 1_000_000_000_000_000_000
  {
    hide Run, FlowsOf, Open;
    RunAccounted(s0, events, maxBytes);
  }

  /** While the supply at the start and all rewards together stay below 2^256, a finalisation that
      passes its checks is never refused by the ENERGY token: what it mints was burned before. */
  lemma EnergyMintNeverReverts(s0: System, s: System, f: Flows, root: Root)
    requires Accounted(s0, s, f) && s.energy.admin == s.self && MayFinalize(s, root)
    requires s0.energy.supply + f.rewarded < TWO256
    ensures var sub := SubmissionOf(s.ledger, root);
            EnergyMint(s.energy, s.self, sub.miner, sub.energySpent).Done?
  {
    hide Open, Verified;
    var sub := SubmissionOf(s.ledger, root);
    OpenAfterFinalize(s.ledger, root, s.ledger.(finalized := s.ledger.finalized + {root}));
    CreditKeepsBacked(s.energy, sub.miner, sub.energySpent);
  }
}
