/** The on-chain ledger: ProofVerifier decides what is verified, TrainingLedger records
    submissions and finalises them, minting rewards through the two tokens. */
module TrainingLedger {
  import opened Tokens

  type Root = nat
  type Creature = nat

  /** An unset entry of the submission mapping has miner 0. */
  datatype Submission = Submission(creature: Creature, epoch: nat, miner: Address, loss: nat, energySpent: nat)

  const UNSET := Submission(0, 0, 0, 0, 0)

  datatype Verifier = Verifier(quorum: nat, attestations: map<Root, nat>, proven: set<Root>)

  datatype Ledger = Ledger(submissions: map<Root, Submission>, finalized: set<Root>,
                           lastLoss: map<Creature, nat>, nextEpoch: map<Creature, nat>)

  /** The whole contract system.  `self` is the ledger's own address. */
  datatype System = System(ledger: Ledger, verifier: Verifier, energy: Token, core: Token, self: Address)

  function Attestations(v: Verifier, r: Root): nat { if r in v.attestations then v.attestations[r] else 0 }

  function Verified(v: Verifier, r: Root): bool { Attestations(v, r) >= v.quorum }

  function SubmissionOf(l: Ledger, r: Root): Submission { if r in l.submissions then l.submissions[r] else UNSET }

  function LastLoss(l: Ledger, c: Creature): nat { if c in l.lastLoss then l.lastLoss[c] else 0 }

  function NextEpoch(l: Ledger, c: Creature): nat { if c in l.nextEpoch then l.nextEpoch[c] else 0 }

  /** A transaction either goes through or reverts as a whole. */
  datatype Result = Reverted | Changed(next: System)

  function Submit(s: System, sub: Submission, root: Root, modelBytes: nat, maxBytes: nat): Result {
    if modelBytes > maxBytes then Reverted
    else
      var burned :=
        if sub.energySpent > 0 then BurnFrom(s.energy, s.self, sub.miner, sub.energySpent) else Done(s.energy);
      match burned
      case Revert => Reverted
      case Done(energy) =>
        Changed(s.(energy := energy, ledger := s.ledger.(submissions := s.ledger.submissions[root := sub])))
  }

  function Attest(s: System, root: Root): Result {
    var count := Attestations(s.verifier, root) + 1;
    Changed(s.(verifier := s.verifier.(attestations := s.verifier.attestations[root := count])))
  }

  /** `computed` is the root that the zk verifier returns for the submitted proof bytes. */
  function TakeProof(s: System, root: Root, computed: Root): Result {
    if root in s.verifier.proven || computed != root then Reverted
    else Changed(s.(verifier := s.verifier.(proven := s.verifier.proven + {root},
                                            attestations := s.verifier.attestations[root := s.verifier.quorum])))
  }

  /** An attestation adds one vote.  A proof is taken exactly once and only if it computes the root,
      and then the root counts as verified until the quorum is raised. */
  lemma VerifierCalls(s: System, root: Root, computed: Root)
    ensures var r := TakeProof(s, root, computed);
            && (r.Changed? <==> root !in s.verifier.proven && computed == root)
            && (r.Changed? ==> Attestations(r.next.verifier, root) == s.verifier.quorum && Verified(r.next.verifier,
                                                                                                    root)
                               && r.next.verifier.proven == s.verifier.proven + {root}
                               && r.next == s.(verifier := r.next.verifier))
    ensures var r := Attest(s, root);
            && r.Changed? && r.next == s.(verifier := r.next.verifier)
            && Attestations(r.next.verifier, root) == Attestations(s.verifier, root) + 1
            && r.next.verifier.proven == s.verifier.proven && r.next.verifier.quorum == s.verifier.quorum
    ensures forall other: Root | other != root ::
              && Attestations(Attest(s, root).next.verifier, other) == Attestations(s.verifier, other)
              && (TakeProof(s, root, computed).Changed? ==>
                    Attestations(TakeProof(s, root, computed).next.verifier, other) == Attestations(s.verifier, other))
  {}

  /** The checks of finalizeCheckpoint before it writes anything. */
  predicate MayFinalize(s: System, root: Root) {
    var sub := SubmissionOf(s.ledger, root);
    && root !in s.ledger.finalized
    && Verified(s.verifier, root)
    && sub.miner != 0
    && sub.epoch == NextEpoch(s.ledger, sub.creature)
    && (LastLoss(s.ledger, sub.creature) == 0 || sub.loss <= LastLoss(s.ledger, sub.creature))
  }

  function Finalize(s: System, root: Root): Result {
    if !MayFinalize(s, root) then Reverted
    else
      var sub := SubmissionOf(s.ledger, root);
      match EnergyMint(s.energy, s.self, sub.miner, sub.energySpent)
      case Revert => Reverted
      case Done(energy) =>
        match CoreMint(s.core, s.self, sub.miner, sub.energySpent * ETHER)
        case Revert => Reverted
        case Done(core) =>
          Changed(s.(energy := energy, core := core,
                     ledger := Ledger(s.ledger.submissions, s.ledger.finalized + {root},
                                      s.ledger.lastLoss[sub.creature := sub.loss],
                                      s.ledger.nextEpoch[sub.creature := sub.epoch + 1])))
  }

  function WithEnergy(s: System, o: Outcome): Result {
    match o case Revert => Reverted case Done(t) => Changed(s.(energy := t))
  }

  /** rewardMiner mints for whoever asks. */
  function RewardMiner(s: System, miner: Address, amount: nat): Result {
    WithEnergy(s, EnergyMint(s.energy, s.self, miner, amount))
  }

  /** A submission goes through exactly when the model is not too large and, if it spends ENERGY,
      the miner can pay and the ledger may burn; then the payment is gone and the entry recorded. */
  lemma SubmitExactly(s: System, sub: Submission, root: Root, modelBytes: nat, maxBytes: nat)
    requires Backed(s.energy)
    ensures var r := Submit(s, sub, root, modelBytes, maxBytes);
            && (r.Changed? <==> modelBytes <= maxBytes
                                && (sub.energySpent == 0
                                    || (s.energy.admin == s.self && sub.energySpent <= Bal(s.energy.balances,
                                                                                           sub.miner))))
            && (r.Changed? ==>
                  && r.next.ledger == Ledger(s.ledger.submissions[root := sub], s.ledger.finalized, s.ledger.lastLoss,
                                             s.ledger.nextEpoch)
                  && r.next.core == s.core && r.next.verifier == s.verifier && r.next.self == s.self
                  && Bal(r.next.energy.balances, sub.miner) == Bal(s.energy.balances, sub.miner) - sub.energySpent
                  && r.next.energy.supply == s.energy.supply - sub.energySpent)
  {
    DebitKeepsBacked(s.energy, sub.miner, sub.energySpent);
  }

  // ---------------------------------------------------------------- the contracts

  class ProofVerifier {
    var quorum: nat
    var attestations: map<Root, nat>
    var proven: set<Root>

    ghost function View(): Verifier
      reads this
    {
      Verifier(quorum, attestations, proven)
    }

    constructor ()
      ensures View() == Verifier(3, map[], {})
    {
      quorum, attestations, proven := 3, map[], {};
    }

    method Attest(root: Root)
      modifies this`attestations
      ensures View() == old(View()).(attestations := old(attestations)[root := Attestations(old(View()), root) + 1])
    {
      var count := (if root in attestations then attestations[root] else 0) + 1;
      attestations := attestations[root := count];
    }

    /** A valid proof marks the root and lifts (or lowers) its attestations to the quorum. */
    method SubmitProof(root: Root, computed: Root) returns (ok: bool)
      modifies this
      ensures ok <==> root !in old(proven) && computed == root
      ensures forall s: System | s.verifier == old(View()) ::
                TakeProof(s, root, computed) == if ok then Changed(s.(verifier := View())) else Reverted
      ensures View() == if ok then Verifier(old(quorum), old(attestations)[root := old(quorum)], old(proven) + {root})
                        else old(View())
    {
      if root in proven || computed != root {
        return false;
      }
      proven := proven + {root};
      attestations := attestations[root := quorum];
      ok := true;
    }

    method Verify(root: Root) returns (ok: bool)
      ensures ok == Verified(View(), root)
    {
      ok := (if root in attestations then attestations[root] else 0) >= quorum;
    }

    method SetQuorum(newQuorum: nat)
      modifies this`quorum
      ensures View() == old(View()).(quorum := newQuorum)
    {
      quorum := newQuorum;
    }
  }

  class TrainingLedger {
    const energy: Energy
    const core: Core
    const verifier: ProofVerifier
    const self: Address
    var submissions: map<Root, Submission>
    var finalized: set<Root>
    var lastLoss: map<Creature, nat>
    var nextEpoch: map<Creature, nat>

    ghost function View(): System
      reads this, energy, core, verifier
    {
      System(Ledger(submissions, finalized, lastLoss, nextEpoch), verifier.View(), energy.View(), core.View(), self)
    }

    constructor (energy: Energy, core: Core, verifier: ProofVerifier, self: Address)
      ensures this.energy == energy && this.core == core && this.verifier == verifier && this.self == self
      ensures View().ledger == Ledger(map[], {}, map[], map[])
    {
      this.energy, this.core, this.verifier, this.self := energy, core, verifier, self;
      submissions, finalized, lastLoss, nextEpoch := map[], {}, map[], map[];
    }

    method SubmitCheckpoint(sender: Address, creature: Creature, epoch: nat, root: Root, modelBytes: nat, maxBytes: nat,
                            loss: nat, energySpent: nat)
      returns (ok: bool)
      modifies this`submissions, energy
      ensures var r := Submit(old(View()), Submission(creature, epoch, sender, loss, energySpent), root, modelBytes,
                              maxBytes);
              ok == r.Changed? && View() == if ok then r.next else old(View())
    {
      if modelBytes > maxBytes {
        return false;
      }
      if energySpent > 0 {
        ok := energy.BurnFrom(self, sender, energySpent);
        if !ok {
          return false;
        }
      }
      submissions := submissions[root := Submission(creature, epoch, sender, loss, energySpent)];
      ok := true;
    }

    method MintReward(miner: Address, amount: nat) returns (ok: bool)
      modifies energy
      ensures var r := RewardMiner(old(View()), miner, amount);
              ok == r.Changed? && View() == if ok then r.next else old(View())
    {
      MintKeepsAdmin(energy.View(), self, miner, amount);
      ok := energy.Mint(self, miner, amount);
    }

    /** The `require` checks at the top of finalizeCheckpoint. */
    method CheckFinalize(root: Root) returns (ok: bool, sub: Submission)
      ensures ok == MayFinalize(View(), root) && (ok ==> sub == SubmissionOf(View().ledger, root))
    {
      sub := UNSET;
      if root in finalized {
        return false, sub;
      }
      var verified := verifier.Verify(root);
      if !verified {
        return false, sub;
      }
      if root in submissions {
        sub := submissions[root];
      }
      if sub.miner == 0 {
        return false, sub;
      }
      if sub.epoch != (if sub.creature in nextEpoch then nextEpoch[sub.creature] else 0) {
        return false, sub;
      }
      var prev := if sub.creature in lastLoss then lastLoss[sub.creature] else 0;
      if prev != 0 && sub.loss > prev {
        return false, sub;
      }
      ok := true;
    }

    /** The writes happen before the mints, as in the source; a mint that fails reverts them. */
    method FinalizeCheckpoint(root: Root) returns (ok: bool)
      requires energy as object != core
      modifies this, energy, core
      ensures var r := Finalize(old(View()), root);
              ok == r.Changed? && View() == if ok then r.next else old(View())
    {
      hide MayFinalize, EnergyMint, CoreMint;
      var sub;
      ok, sub := CheckFinalize(root);
      if !ok {
        return;
      }
      var nextEpoch0, lastLoss0, finalized0 := nextEpoch, lastLoss, finalized;
      var balances0, supply0 := energy.balanceOf, energy.totalSupply;
      nextEpoch := nextEpoch[sub.creature := sub.epoch + 1];
      lastLoss := lastLoss[sub.creature := sub.loss];
      finalized := finalized + {root};
      MintKeepsAdmin(energy.View(), self, sub.miner, sub.energySpent);
      ok := energy.Mint(self, sub.miner, sub.energySpent);
      if ok {
        ok := core.Mint(self, sub.miner, sub.energySpent * ETHER);
      }
      if !ok {
        nextEpoch, lastLoss, finalized := nextEpoch0, lastLoss0, finalized0;
        energy.balanceOf, energy.totalSupply := balances0, supply0;
      }
    }
  }

  lemma MintKeepsAdmin(t: Token, sender: Address, to: Address, amount: nat)
    ensures EnergyMint(t, sender, to, amount).Done? ==> EnergyMint(t, sender, to, amount).next.admin == t.admin
  {}
}
