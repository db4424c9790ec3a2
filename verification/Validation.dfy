/** The off-chain validator: attestations with their quorum, and the gate that admits a proof
    only when its loss is no worse than the last admitted one. */
module Validation {
  import opened Basics

  type Root = nat
  type Tensors = seq<seq<int8>>

  datatype StarkProof = StarkProof(root: Root, proof: nat, loss: int)

  /** Proofs and losses come from outside; losses are numbers without NaN. */
  datatype ProofSystem = ProofSystem(generate: Tensors -> StarkProof, verifies: (Tensors, StarkProof) -> bool,
                                     lossOf: Tensors -> int)

  /** A use of the gate.  `taken` is what the on-chain verifier answers to a submission. */
  datatype Use = Verify(tensors: Tensors, proof: StarkProof) | Submit(tensors: Tensors, taken: bool)

  predicate ProofHolds(sys: ProofSystem, u: Use) {
    sys.verifies(u.tensors, if u.Verify? then u.proof else sys.generate(u.tensors))
  }

  /** A verification measures the loss itself, a submission believes its proof. */
  function LossOf(sys: ProofSystem, u: Use): int {
    if u.Verify? then sys.lossOf(u.tensors) else sys.generate(u.tensors).loss
  }

  /** `None` is the initial gate, positive infinity in the source. */
  predicate Passes(sys: ProofSystem, gate: Option<int>, u: Use) {
    ProofHolds(sys, u) && (gate.Some? ==> LossOf(sys, u) <= gate.value)
  }

  predicate Accepted(sys: ProofSystem, gate: Option<int>, u: Use) {
    Passes(sys, gate, u) && (u.Submit? ==> u.taken)
  }

  /** The gate moves before the on-chain verifier answers. */
  function NextGate(sys: ProofSystem, gate: Option<int>, u: Use): Option<int> {
    if Passes(sys, gate, u) then Some(LossOf(sys, u)) else gate
  }

  function GateAfter(sys: ProofSystem, uses: seq<Use>): Option<int>
    decreases |uses|
  {
    if uses == [] then None else NextGate(sys, GateAfter(sys, uses[..|uses| - 1]), uses[|uses| - 1])
  }

  /** The losses of the uses that returned true, in order. */
  function AcceptedLosses(sys: ProofSystem, uses: seq<Use>): seq<int>
    decreases |uses|
  {
    if uses == [] then []
    else
      var before, u := uses[..|uses| - 1], uses[|uses| - 1];
      AcceptedLosses(sys, before) + if Accepted(sys, GateAfter(sys, before), u) then [LossOf(sys, u)] else []
  }

  function LastOf(losses: seq<int>): Option<int> { if losses == [] then None else Some(losses[|losses| - 1]) }

  /** A submission that passed the gate with a lower loss and was then refused on chain. */
  predicate LowersInVain(sys: ProofSystem, gate: Option<int>, u: Use) {
    Passes(sys, gate, u) && u.Submit? && !u.taken && Some(LossOf(sys, u)) != gate
  }

  /** Such a submission has happened since the last accepted use. */
  predicate LoweredInVain(sys: ProofSystem, uses: seq<Use>)
    decreases |uses|
  {
    uses != [] &&
    var before, u := uses[..|uses| - 1], uses[|uses| - 1];
    var gate := GateAfter(sys, before);
    !Accepted(sys, gate, u) && (LoweredInVain(sys, before) || LowersInVain(sys, gate, u))
  }

  /** Over any use of a validator the accepted losses never rise, and the gate is at or below
      all of them. */
  lemma {:induction false} AcceptedNeverRise(sys: ProofSystem, uses: seq<Use>)
    ensures var losses, gate := AcceptedLosses(sys, uses), GateAfter(sys, uses);
            && (forall i, j | 0 <= i < j < |losses| :: losses[j] <= losses[i])
            && (forall i | 0 <= i < |losses| :: gate.Some? && gate.value <= losses[i])
    decreases |uses|
  {
    hide ProofHolds, LossOf;
    if uses != [] {
      var before, u := uses[..|uses| - 1], uses[|uses| - 1];
      AcceptedNeverRise(sys, before);
      var gate := GateAfter(sys, before);
      assert GateAfter(sys, uses) == NextGate(sys, gate, u);
      if Accepted(sys, gate, u) {
        assert AcceptedLosses(sys, uses) == AcceptedLosses(sys, before) + [LossOf(sys, u)];
      } else {
        assert AcceptedLosses(sys, uses) == AcceptedLosses(sys, before);
      }
    }
  }

  /** The gate is the last accepted loss unless a refused submission has lowered it since. */
  lemma {:induction false} GateIsLastAcceptedExactly(sys: ProofSystem, uses: seq<Use>)
    ensures GateAfter(sys, uses) == LastOf(AcceptedLosses(sys, uses)) <==> !LoweredInVain(sys, uses)
    decreases |uses|
  {
    hide ProofHolds, LossOf;
    if uses != [] {
      var before := uses[..|uses| - 1];
      GateIsLastAcceptedExactly(sys, before);
      AcceptedNeverRise(sys, before);
    }
  }

  /** A valid submission shuts out every higher loss for good, even when it is refused on chain
      and so nothing was accepted; a fresh validator would admit those losses. */
  lemma RefusalShutsOut(sys: ProofSystem, before: seq<Use>, refused: Tensors, after: seq<Use>, u: Use)
    requires ProofHolds(sys, Submit(refused, false)) && ProofHolds(sys, u)
    requires sys.generate(refused).loss < LossOf(sys, u)
    ensures !Accepted(sys, GateAfter(sys, before + [Submit(refused, false)] + after), u)
    ensures Accepted(sys, None, u) <==> (u.Submit? ==> u.taken)
  {
    GateNeverRises(sys, before, Submit(refused, false), after);
  }

  lemma {:induction false} GateNeverRises(sys: ProofSystem, before: seq<Use>, u: Use, after: seq<Use>)
    requires ProofHolds(sys, u)
    ensures var gate := GateAfter(sys, before + [u] + after);
            gate.Some? && gate.value <= LossOf(sys, u)
    decreases |after|
  {
    hide ProofHolds, LossOf;
    var all := before + [u] + after;
    if after == [] {
      assert all[..|all| - 1] == before;
    } else {
      GateNeverRises(sys, before, u, after[..|after| - 1]);
      assert all[..|all| - 1] == before + [u] + after[..|after| - 1];
    }
  }

  class Validator {
    const quorum: nat
    const system: ProofSystem
    var counts: map<Root, nat>
    var lastLoss: Option<int>

    constructor (quorum: nat, system: ProofSystem)
      ensures this.quorum == quorum && this.system == system && counts == map[] && lastLoss == None
    {
      this.quorum, this.system, counts, lastLoss := quorum, system, map[], None;
    }

    method Attest(root: Root)
      modifies this`counts
      ensures counts == old(counts)[root := (if root in old(counts) then old(counts)[root] else 0) + 1]
    {
      counts := counts[root := (if root in counts then counts[root] else 0) + 1];
    }

    method HasReachedQuorum(root: Root) returns (ok: bool)
      ensures ok <==> root in counts && counts[root] >= quorum
    {
      ok := root in counts && counts[root] >= quorum;
    }

    method VerifyStarkProof(tensors: Tensors, proof: StarkProof) returns (ok: bool)
      modifies this`lastLoss
      ensures ok <==> system.verifies(tensors, proof)
                      && (old(lastLoss).Some? ==> system.lossOf(tensors) <= old(lastLoss).value)
      ensures lastLoss == if ok then Some(system.lossOf(tensors)) else old(lastLoss)
      ensures ok == Accepted(system, old(lastLoss), Verify(tensors, proof))
      ensures lastLoss == NextGate(system, old(lastLoss), Verify(tensors, proof))
    {
      if !system.verifies(tensors, proof) {
        return false;
      }
      var loss := system.lossOf(tensors);
      if lastLoss.Some? && lastLoss.value < loss {
        return false;
      }
      lastLoss := Some(loss);
      ok := true;
    }

    /** `onchain` is the verifier the proof is submitted to. */
    method ProveAndSubmit(tensors: Tensors, onchain: StarkProof -> bool) returns (ok: bool)
      modifies this`lastLoss
      ensures var proof := system.generate(tensors);
              var passed := system.verifies(tensors, proof)
                            && (old(lastLoss).Some? ==> proof.loss <= old(lastLoss).value);
              && (ok <==> passed && onchain(proof))
              && lastLoss == if passed then Some(proof.loss) else old(lastLoss)
      ensures ok == Accepted(system, old(lastLoss), Submit(tensors, onchain(system.generate(tensors))))
      ensures lastLoss == NextGate(system, old(lastLoss), Submit(tensors, onchain(system.generate(tensors))))
    {
      var proof := system.generate(tensors);
      if !system.verifies(tensors, proof) {
        return false;
      }
      if lastLoss.Some? && lastLoss.value < proof.loss {
        return false;
      }
      lastLoss := Some(proof.loss);
      if !onchain(proof) {
        return false;
      }
      ok := true;
    }
  }
}
