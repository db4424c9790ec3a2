# Chain Beasts core, verified

A Dafny model of the deterministic core of Chain Beasts: the two battle engines, the INT8 kernel
and the inference built on it, the proof-of-useful-work ledger in both of its forms, the tokens,
and the bit-level codecs.  `dafny verify dfyconfig.toml` checks the whole project.

What changes step by step in the source is a class or a method with loops here (`Engine`,
`BattleAnimator`, `Matchmaker`, the matrix workers, `InStream`, `Validator`, `Chain`, `TrainingLedger`, `Energy`,
`Core`, `DiskCacheProducer`).  Each such method is proved against functions on values, and the
theorems are lemmas about those functions.  Concurrency (matrix workers, the dispatch queue) is
modelled as atomic steps under an arbitrary scheduler.

| file | contents |
|---|---|
| Basics, Bits | shared definitions; exclusive or, shifts and digit arithmetic on natural numbers |
| Xorshift32 | the generator of the random-turn duel and its 33-state parity window |
| Creatures, Duel, ContractMatchmaker | stat totals, the random-turn duel, record and replay, the on-chain matchmaker |
| Grid, GridPaths, FightRecord, ClearBoard, BattleEngine | the board fight: termination, paths, invariants, closed forms, and the engine class |
| Int8Kernel, MatmulThreads, SimdTile, Inference | the matrix product: scalar, threaded, vectorised; layered inference |
| DispatchQueue | the one-worker task queue under all interleavings |
| Tokens, TrainingLedger, LedgerAccounting | ENERGY, CORE, the on-chain ledger and what every history adds up to |
| Validation, PouwChain, LedgerSimulation | the off-chain validator, the in-memory chain and its simulation by the contracts |
| Hatching, Int8Spec, Traits, DiskCache | splitmix64 weights, the network file, trait packing, the dataset cache |

## What is false as promised, and when it holds

- A duel need not end: it is endless exactly when ids are equal, the seed is 0, A has health and
  stamina, B has health, and B's blows together leave A standing (`Duel.EndlessExactly`).
- A replay that answers a winner need not be a replay of any run: any legal list of strikes is
  taken, in whatever order and complete or not (`Duel.ReplayTakesExactly`, `Duel.ReplayIsNotARun`);
  a finished one is the run's own trace exactly when its strikes come in the run's order and, for
  a duel that is over from the start, there are none (`Duel.TakenRunExactly`).
- A board fight need not end: walls can trap both creatures (`Grid.EndsExactly`,
  `Grid.WalledCornersStall`).
- 32-bit accumulation is exact for all inputs only up to K = 131071 (`Int8Kernel.OverflowExactly`).
- The vector builds read B with the tile width as row stride, so they agree with the scalar build
  only on matrices no wider than a tile, or with K at most 1 (`SimdTile.SimdRefinesExactly`).
- Clamping twice in a dense layer differs from clamping once when the sum saturates and the bias
  pulls back (`Inference.DoubleClampExactly`).
- The contract cannot tell a recorded loss of 0 from no loss; the chain can.  The two ledgers
  decide a whole run alike exactly when no finalisation of it asks for a loss above a recorded 0
  (`LedgerSimulation.Simulation`, `LedgerSimulation.ZeroLossSeparates`).
- The chain takes a negative recorded loss for "no previous loss": a higher loss than the recorded
  one can be finalised exactly when the recorded one is negative
  (`PouwChain.HigherLossTakenExactly`, `PouwChain.NegativeLossRises`).
- The validator's gate is meant to hold the last accepted loss; a submission that the on-chain
  verifier refuses lowers it all the same (`Validation.GateIsLastAcceptedExactly`,
  `Validation.RefusalShutsOut`).
- A network whose counts exceed 32 bits does not load back (`Int8Spec.RoundTripExactly`).
- Traits with four sensors and four appendages do not fit the 128-bit word; all others do
  (`Traits.PackableExactly`).
- Growth of a cache takes the base's next items, not the dataset's next ones
  (`DiskCache.GrowthInOrderExactly`, `DiskCache.BlankEndedGrowth`, `DiskCache.WrappingGrowth`).
- A changed cache token is meant to discard the old records, and a reused one to keep them.  Only
  the first line of the stored token is compared: a changed token keeps the file exactly when the
  stored one is that token, a line break, and more, and then stale records are served
  (`DiskCache.ChangedTokenKeepsExactly`, `DiskCache.ChangedTokenServesStale`); a reused token keeps
  the file exactly when it has no line break (`DiskCache.SameTokenKeepsExactly`).
- Bytes after the last readable record of a cache stay in the file (`DiskCache.FileAgreesExactly`,
  `DiskCache.TornTailCorrupts`), and a dataset that shrank keeps its stale tail
  (`DiskCache.GrownDataset`).
- The task queue's worker starts before its stop flag is initialised.  Every start is sound if and
  only if the flag's storage begins as false (`DispatchQueue.EveryStartSoundExactly`), as it does
  for the repository's only queue, a function-local static (include/neuropet/int8_kernel.hpp:90-93);
  otherwise the worker may leave at once and then runs nothing (`DispatchQueue.LeftRunsNothing`).

Where documents and code disagree the code is followed: `docs/MatchmakerContract.md` says the
contract mirrors `battle.hpp`, but its loop is that of `battle_animation.hpp`;
`docs/DatasetCaching.md` says a grown dataset's additional records are written, but the code writes
whatever the base yields next.  The kernel document describes a saturating accumulator;
`int8_matmul` sums in plain 32-bit integers and saturates only what it stores.

## Model

| member | source | states |
|---|---|---|
| Xorshift32.StepInvertible | include/neuropet/battle_animation.hpp:29-34 | the generator step has an inverse on 32-bit words |
| Xorshift32.ZeroIsIsolated | contracts/Matchmaker.sol:102-109 | a non-zero state never becomes 0 and state 0 never leaves |
| Xorshift32.ParityWindow | include/neuropet/battle_animation.hpp:29-51 | any 33 consecutive states from a non-zero one show both turn bits |
| Xorshift32.WindowIsTight | include/neuropet/battle_animation.hpp:29-34 | 32 consecutive states may all be odd, so 33 is the least window |
| Xorshift32.EveryStateIsASum | include/neuropet/battle_animation.hpp:29-34 | every state is a sum of 32 states whose next low bits are all 0 but one |
| Xorshift32.LowBitsDetermine | include/neuropet/battle_animation.hpp:29-34 | the next 32 low bits determine the state |
| Creatures.ComputeTotal | include/neuropet/battle.hpp:32-51 | the totals loop adds the base value and every item bonus |
| Creatures.AttachAdds | include/neuropet/battle.hpp:21-51 | attaching an item adds its power, defense and stamina to the totals, each to its own |
| Creatures.BareTotals | include/neuropet/battle.hpp:15-51 | a creature without items has its own numbers as totals |
| Creatures.DetachItem | include/neuropet/battle.hpp:23-30 | the search erases the first item of the id and nothing else |
| Creatures.DetachUndoesAttach | include/neuropet/battle.hpp:21-30 | detaching an attached item restores the items, if none of its id was there |
| Creatures.SetupKeepsSides | include/neuropet/battle.hpp:96-99 | each side starts with its own id, power, health (defense) and stamina |
| Creatures.ParityOfSeed | include/neuropet/battle.hpp:100-101 | the effective seed is even exactly for an even seed, or for seed 0 and ids of the same parity |
| Creatures.ZeroSeedMeansSameId | include/neuropet/battle_animation.hpp:28 | the effective seed is 0 exactly for equal ids and seed 0 |
| Duel.EndsFromNonZero | include/neuropet/battle_animation.hpp:40-51 | from a non-zero state the loop ends within 33 passes per point of stamina |
| Duel.EndsExactly | include/neuropet/battle_animation.hpp:40-51 | the loop ends unless the state is 0, A keeps stamina and health and B is alive; then it never ends |
| Duel.EndlessExactly | include/neuropet/battle_animation.hpp:28-51 | the endless duels, in terms of ids, seed and stats only |
| Duel.DistinctIdsEnd | contracts/Matchmaker.sol:80-99 | a duel of different ids (or with a seed) always ends, within 33 passes per point of stamina |
| Duel.DrawsFromSeed | include/neuropet/battle_animation.hpp:28-50 | pass k of a run acts on the (k+1)-th draw from the caller's seed, or from the exclusive or of the ids for seed 0 |
| Duel.PassOfRun | include/neuropet/battle_animation.hpp:40-51 | the side named by the low bit of that draw strikes if it has stamina, losing a point of it and taking its power off the other's health; otherwise nothing changes |
| Duel.TiredDuel | include/neuropet/battle_animation.hpp:35-52 | a run starts from the given numbers; without stamina it is over at once and the healthier creature has won, A on equal health |
| Duel.FramesCountStamina | include/neuropet/battle_animation.hpp:41-49 | frames recorded = stamina spent by both sides |
| Duel.RunFitsInt32 | include/neuropet/battle_animation.hpp:35-51 | with non-negative power every value of a run stays in 32 bits |
| Duel.ReplayOfRun | include/neuropet/battle_animation.hpp:70-94 | replaying the frames of a finished run, with anything after them, answers that run's winner |
| Duel.ReplayRejectsExactly | include/neuropet/battle_animation.hpp:70-94 | with non-zero ids replay answers 0 exactly when a frame up to the first finished score disagrees with the recomputed duel |
| Duel.ReplayTakesExactly | include/neuropet/battle_animation.hpp:70-94 | with non-zero ids replay answers w exactly when the frames it looks at are those of a legal list of strikes with leader w |
| Duel.ReplayIsNotARun | include/neuropet/battle_animation.hpp:70-94 | the empty trace is taken, and one-blow duels can be replayed with either side as winner |
| Duel.TakenRunExactly | include/neuropet/battle_animation.hpp:40-94 | a taken trace that finishes is the run's own exactly when its strikes come in the run's order; then the winner is the run's |
| Duel.RecordedFramesAgree | include/neuropet/battle_animation.hpp:40-51 | every recorded frame recomputes to the score the run went through |
| Duel.BattleAnimator.Run | include/neuropet/battle_animation.hpp:26-53 | frames and winner are those of the duel played to its end |
| Duel.BattleAnimator.Replay | include/neuropet/battle_animation.hpp:70-94 | 0 when a frame it looks at disagrees, otherwise the leader where it stops |
| ContractMatchmaker.Fight | contracts/Matchmaker.sol:80-100 | returns the leader when the contract's loop ends |
| ContractMatchmaker.SameWinnerAsAnimator | contracts/Matchmaker.sol:80-100 | contract and animator agree on the winner of the same stats and seed |
| ContractMatchmaker.Matchmaker.Enqueue | contracts/Matchmaker.sol:41-52 | first in, first out in pairs: at most one creature waits, match k is between requests 2k and 2k+1; a match that cannot end reverts the call |
| ContractMatchmaker.Matchmaker.RunMatch | contracts/Matchmaker.sol:59-78 | takes the two oldest requests and records their duel |
| Grid.StepCloses | include/neuropet/battle.hpp:108-138 | a step goes to a free tile one nearer and never past the other creature |
| Grid.TurnKeepsGeometry | include/neuropet/battle.hpp:147-186 | A stays coordinatewise below B on another tile; a turn apart closes the gap by one or leaves the mover stuck |
| GridPaths.WalkingTurnOfA | include/neuropet/battle.hpp:108-138 | A goes to the next column if columns differ and the tile is no wall, else to the next row likewise, else nowhere; a hazard entered costs a point |
| GridPaths.WalkingTurnOfB | include/neuropet/battle.hpp:108-138 | the same for B, the other way |
| GridPaths.AdjacentTurn | include/neuropet/battle.hpp:149-183 | adjacent, a side with stamina strikes, less the other's block and not below 0, using up stamina and block; one without raises its block |
| GridPaths.FirstMover | include/neuropet/battle.hpp:100-101 | A moves first exactly for an even seed, or for seed 0 and ids of the same parity |
| GridPaths.WallFreeWalk | include/neuropet/battle.hpp:94-186 | on a board without walls the whole state after each of the first 13 turns: paths, hazards paid, turn |
| GridPaths.WallFreeFight | include/neuropet/battle.hpp:94-187 | closed form of the winner and the number of turns on every board without walls, when both survive their paths |
| GridPaths.WallFreeFall | include/neuropet/battle.hpp:94-187 | and when one does not: the fight ends at that step |
| GridPaths.TiredFight | include/neuropet/battle.hpp:147-187 | without stamina the fight is over at once: the healthier creature wins after its corner's hazard, A on equal health |
| Grid.StuckStaysStuck | include/neuropet/battle.hpp:132-137 | a stuck creature stays stuck while the gap stays above 1 |
| Grid.StalledForever | include/neuropet/battle.hpp:147-186 | a fight apart after 26 turns has both creatures stuck and repeats with period two forever |
| Grid.EndsUnlessStalled | include/neuropet/battle.hpp:147-186 | otherwise it ends within 26 turns plus twice the larger stamina |
| Grid.EndsExactly | include/neuropet/battle.hpp:147-186 | a fight ends if and only if it is not stalled after 26 turns |
| Grid.EndsWithoutWalls | include/neuropet/battle.hpp:147-186 | without walls every fight ends within 13 turns plus twice the larger stamina |
| Grid.WalledCornersStall | include/neuropet/battle.hpp:108-138 | with both corners walled in every live fight is endless |
| FightRecord.FightInvariants | include/neuropet/battle.hpp:94-186 | order of positions, moves = 14 - distance, no tile entered twice, hazard loss bounded by 15 and by the hazards of the board, at most one block point, health lost = hazards + net damage |
| FightRecord.TurnKeepsInvariant | include/neuropet/battle.hpp:147-186 | one turn of a running fight keeps all of these |
| ClearBoard.BlowsIsCeiling | include/neuropet/battle.hpp:150-159 | the blow count is the ceiling of health over power |
| ClearBoard.Brawl | include/neuropet/battle.hpp:147-187 | who wins a trade of blows between adjacent creatures, and after how many turns |
| ClearBoard.ClearFight | include/neuropet/battle.hpp:100-187 | closed form on an empty board: 13 steps, who strikes first, who wins, and the exact number of turns |
| BattleEngine.Engine.ClearBoard | include/neuropet/battle.hpp:67-71 | every tile becomes empty |
| BattleEngine.Engine.SetTile | include/neuropet/battle.hpp:74-77 | sets one tile, ignoring coordinates off the board |
| BattleEngine.Engine.ReadTile | include/neuropet/battle.hpp:80-84 | off the board counts as wall |
| BattleEngine.Engine.WalkTowards | include/neuropet/battle.hpp:108-138 | the moving branch is the step function of the model, with its hazard loss |
| BattleEngine.Engine.Fight | include/neuropet/battle.hpp:92-188 | the loop plays the turn machine to its first end and returns the leader there |
| BattleEngine.Matchmaker.TryMatch | include/neuropet/battle.hpp:209-222 | the two longest waiting fight; the ledger gets the winner and the other id |
| Int8Kernel.OverflowExactly | include/neuropet/int8_kernel.hpp:226-230 | no partial sum leaves 32 bits for any inputs if and only if K is at most 131071 |
| Int8Kernel.ClampIsNearest | include/neuropet/int8_kernel.hpp:231-232 | the clamp is the 8-bit number nearest to the sum |
| Int8Kernel.Worker | include/neuropet/int8_kernel.hpp:208-236 | a worker fills exactly its rows with clamped dot products, all indices in range, all accumulators in 32 bits |
| Int8Kernel.Accumulate | include/neuropet/int8_kernel.hpp:225-230 | the tile loops leave the full dot product of each column of the tile |
| Int8Kernel.Store | include/neuropet/int8_kernel.hpp:231-232 | writes the clamped sums of the tile and nothing else |
| MatmulThreads.RowRanges | include/neuropet/int8_kernel.hpp:243-250 | the row ranges partition the rows and are at most one per worker |
| MatmulThreads.ThreadCount | include/neuropet/int8_kernel.hpp:30-41 | never more workers than rows; the environment decides if positive, else the hardware, else one worker |
| MatmulThreads.RowHasOneOwner | include/neuropet/int8_kernel.hpp:243-250 | every row belongs to exactly one worker |
| MatmulThreads.AdvanceInPlace | include/neuropet/int8_kernel.hpp:208-236 | between any two steps a worker's accumulators are partial dot products within 32 bits |
| MatmulThreads.StepKeepsJoint | include/neuropet/int8_kernel.hpp:238-253 | whichever worker moves, all finished parts of C stay right |
| MatmulThreads.TotalDrops | include/neuropet/int8_kernel.hpp:208-236 | every step of any worker brings the whole product one step nearer its end |
| MatmulThreads.RunThreads | include/neuropet/int8_kernel.hpp:238-253 | under an arbitrary scheduler the workers finish and C is the plain product |
| MatmulThreads.Int8Matmul | include/neuropet/int8_kernel.hpp:202-254 | for every shape and worker count C[i,j] is the clamped dot product, whenever no partial sum leaves 32 bits |
| Int8Kernel.ShortSumsFit | include/neuropet/int8_kernel.hpp:226-230 | up to K = 131071 no partial sum of any input does |
| SimdTile.LaneProducts | include/neuropet/int8_kernel.hpp:107-183 | on AVX2, NEON and SSE2 each lane holds the exact product |
| SimdTile.ChunkIsScalar | include/neuropet/int8_kernel.hpp:110-122 | a vector step adds what the scalar loop adds |
| SimdTile.TileAccumulate | include/neuropet/int8_kernel.hpp:104-128 | sixteen-lane chunks and tail give the scalar accumulators, reading only inside A and B |
| SimdTile.SimdRow | include/neuropet/int8_kernel.hpp:210-222 | what the vector build stores in a row, with the tile width as stride |
| SimdTile.SimdRefinesExactly | include/neuropet/int8_kernel.hpp:215-223 | vector and scalar builds agree on all inputs of a shape on which both are defined (no sum leaves 32 bits; all inputs up to K = 131071) if and only if N is at most 128, or K at most 1, or M is 0 |
| SimdTile.TelltaleDiffers | include/neuropet/int8_kernel.hpp:112-124 | for every other shape, inputs on which both are defined and differ |
| Inference.DoubleClampExactly | include/neuropet/training.hpp:60-63 | clamp(clamp(sum) + bias) = clamp(sum + bias) unless the sum saturates and the bias pulls back |
| Inference.DenseOutputIs | include/neuropet/training.hpp:59-63 | output i is the clamped dot product plus bias, except the pulled-back value when the dot product saturates against the bias |
| Inference.ReluOutputIs | include/neuropet/training.hpp:64-68 | any other layer keeps the size and gives the larger of 0 and each entry |
| Inference.NetworkByLayers | include/neuropet/training.hpp:55-73 | a network starts from its input and applies layer k to what layers 0 to k - 1 gave |
| Inference.BytesAreSaved | include/neuropet/training.hpp:33-38 | the counted bytes are those of the saved layers less 17 of header per layer |
| Inference.DenseStep | include/neuropet/training.hpp:59-63 | a dense layer outputs clamp(clamp(sum) + bias) for each unit |
| Inference.ReluStep | include/neuropet/training.hpp:64-68 | any other layer replaces negatives by 0 |
| Inference.EvalNetwork | include/neuropet/training.hpp:55-73 | layers that fit and whose sums stay in 32 bits are composed in order, every access in range |
| Inference.EvalConcat | include/neuropet/training.hpp:75-81 | evaluating joined layer lists is evaluating one after the other |
| Inference.NetworkByteSize | include/neuropet/training.hpp:33-38 | sums the weight and bias bytes of all layers |
| Inference.RunInference | include/neuropet/training.hpp:75-81 | throws over 64 KiB whatever the layers; otherwise evaluates sensor, core and appendage layers as one network |
| Inference.SmallModelSumsFit | include/neuropet/training.hpp:31-48 | layers within the size limit have too few weights for a sum to leave 32 bits |
| DispatchQueue.EveryInterleaving | include/neuropet/int8_kernel.hpp:43-88 | finished + in hand + queued is always the enqueue order; no lost wake-up; the worker leaves only when every enqueued task has run once |
| DispatchQueue.EveryCallRuns | include/neuropet/int8_kernel.hpp:57-81 | on any schedule after which no thread can step, the tasks executed are exactly those handed to calls, each once, each enqueuer's in the order of its calls |
| DispatchQueue.DestructionEnds | include/neuropet/int8_kernel.hpp:46-54 | once the destructor is called, such a schedule has it return with the worker gone |
| DispatchQueue.SpuriousWakeIsHarmless | include/neuropet/int8_kernel.hpp:72-73 | a spurious wake-up with nothing to do ends with the worker parked as before |
| DispatchQueue.CallsArePushed | include/neuropet/int8_kernel.hpp:57-66 | over any schedule what each enqueuer was handed is what it pushed, in order, and what it still holds |
| DispatchQueue.StepKeeps | include/neuropet/int8_kernel.hpp:43-88 | every atomic step of every thread keeps the invariant |
| DispatchQueue.EveryStartSoundExactly | include/neuropet/int8_kernel.hpp:45-88 | whatever the worker does before the constructor sets the stop flag, the invariant holds after it, if and only if the flag's storage began as false |
| DispatchQueue.SoundUnlessLeftExactly | include/neuropet/int8_kernel.hpp:45-88 | in a single start it holds if and only if the worker has not left on the uninitialised flag |
| DispatchQueue.LeftRunsNothing | include/neuropet/int8_kernel.hpp:66-81 | a worker that has left runs nothing, whatever is enqueued |
| DispatchQueue.SomeoneCanMove | include/neuropet/int8_kernel.hpp:46-81 | no deadlock: until settled some thread can step |
| DispatchQueue.LeftAloneAllRun | include/neuropet/int8_kernel.hpp:46-81 | any schedule of the threads' own steps is finite and ends with every enqueued task run |
| Tokens.SupplyAlwaysBacked | contracts/Core.sol:41-81 | after any calls the balances add up to the supply, and CORE stays within CAP |
| Tokens.MoveIsExact | contracts/Energy.sol:62-67 | a transfer succeeds exactly when funded, moves exactly the amount, and to oneself changes nothing |
| Tokens.OnlyAdmin | contracts/Core.sol:30-33 | minting, burning and handing over by anybody but the admin reverts and changes nothing, on both tokens |
| Tokens.CallGoesThroughExactly | contracts/Core.sol:41-81 | which calls go through: the admin's within cap or width, funded burns, spends and transfers |
| Tokens.MintAndBurnExactly | contracts/Energy.sol:36-50 | on any token: mints need the admin and room in balance, supply and cap; burns the admin and cover in both |
| Tokens.MoveGoesThroughExactly | contracts/Core.sol:63-69 | on any token: a transfer needs the amount, and room at the receiver after the sender paid |
| Tokens.CallEffect | contracts/Energy.sol:29-67 | what a call that goes through does to each balance, the supply and the admin |
| Tokens.WithoutAdmin | contracts/Energy.sol:29-67 | while the admin sends no call the supply never rises, nobody becomes admin, and no balance grows by more than the transfers to it |
| Tokens.Energy.Mint | contracts/Energy.sol:36-41 | admin only, reverts on overflow, credits balance and supply |
| Tokens.Energy.BurnFrom | contracts/Energy.sol:44-50 | admin only, reverts when unfunded, debits balance and supply |
| Tokens.Energy.Spend | contracts/Energy.sol:53-59 | debits the caller's balance and the supply |
| Tokens.Energy.Transfer | contracts/Energy.sol:62-67 | moves between balances |
| Tokens.Core.Mint | contracts/Core.sol:41-47 | admin only and capped |
| Tokens.Core.TransferFrom | contracts/Core.sol:72-81 | moves the owner's tokens and consumes the allowance |
| TrainingLedger.ProofVerifier.SubmitProof | contracts/ProofVerifier.sol:38-45 | a first valid proof marks the root and sets its attestations to the quorum |
| TrainingLedger.VerifierCalls | contracts/ProofVerifier.sol:28-45 | an attestation adds one vote to its root; a proof is taken once, only if it computes the root, and then verifies it |
| TrainingLedger.TrainingLedger.SubmitCheckpoint | contracts/TrainingLedger.sol:78-105 | size limit, burn, then record; a failed burn reverts |
| TrainingLedger.SubmitExactly | contracts/TrainingLedger.sol:78-105 | a submission goes through exactly within the size limit and, if it spends, when the miner can pay and the ledger may burn; then payment and entry are made |
| TrainingLedger.TrainingLedger.FinalizeCheckpoint | contracts/TrainingLedger.sol:119-137 | all checks, then epoch, loss, finalised flag and both mints, or no change at all |
| LedgerAccounting.EveryHistory | contracts/TrainingLedger.sol:78-137 | after any history, with `rewardMiner` and `setQuorum` called by anybody: ENERGY minted back never exceeds ENERGY burned, the supply is the start less what was burned and spent plus what was minted back and rewarded, CORE grows by 1 ether per unit minted back, balances add up to supplies |
| LedgerAccounting.EventsAreCalls | contracts/TrainingLedger.sol:78-137 | what each event does to the two tokens is a call on them, in the ledger's or the holder's name |
| LedgerAccounting.StepAccounted | contracts/TrainingLedger.sol:78-137 | each call, reverted or not, keeps the accounts |
| LedgerAccounting.EnergyMintNeverReverts | contracts/TrainingLedger.sol:131 | while the starting supply and all rewards stay below 2^256, the refund of an accepted checkpoint cannot overflow the ENERGY supply |
| Validation.AcceptedNeverRise | include/neuropet/validator.hpp:42-75 | over any use of a validator the accepted losses never rise and the gate is at or below all of them |
| Validation.GateIsLastAcceptedExactly | include/neuropet/validator.hpp:60-75 | the gate is the last accepted loss if and only if no refused submission has lowered it since |
| Validation.RefusalShutsOut | include/neuropet/validator.hpp:68-71 | a submission refused on chain shuts out for good every higher loss, though none was accepted |
| Validation.Validator.VerifyStarkProof | include/neuropet/validator.hpp:41-55 | accepts a valid proof of a loss no worse than the gate, and only then moves the gate |
| Validation.Validator.ProveAndSubmit | include/neuropet/validator.hpp:61-76 | moves the gate before the on-chain verifier answers |
| PouwChain.EveryRun | include/neuropet/pouw_chain.hpp:32-98 | indices, epochs, distinct roots = finalised set, balances = sums over blocks, in every run |
| PouwChain.CreatureHistory | include/neuropet/pouw_chain.hpp:54-65 | consecutive blocks of a creature carry consecutive epochs and a loss that does not rise from a non-negative one |
| PouwChain.LossNeverRises | include/neuropet/pouw_chain.hpp:60-65 | with non-negative losses no later block of a creature has a higher loss |
| PouwChain.HigherLossTakenExactly | include/neuropet/pouw_chain.hpp:58-65 | a higher loss than the recorded one can be finalised if and only if the recorded one is negative |
| PouwChain.ProposalAppendedExactly | include/neuropet/pouw_chain.hpp:32-86 | submitting, proving and finalising a new root in epoch order appends its block unless it raises a non-negative recorded loss |
| PouwChain.NegativeLossRises | include/neuropet/pouw_chain.hpp:58-65 | a run in which a creature is finalised at loss -1 and then at loss 5 |
| PouwChain.BlockWasApproved | include/neuropet/pouw_chain.hpp:43-52 | each block was appended by a finalisation with quorum or proof |
| PouwChain.NextKeeps | include/neuropet/pouw_chain.hpp:32-86 | every call keeps the maps in step with the chain |
| PouwChain.Chain.CheckFinalize | include/neuropet/pouw_chain.hpp:43-65 | the conditions under which a checkpoint is accepted |
| PouwChain.Chain.FinalizeCheckpoint | include/neuropet/pouw_chain.hpp:43-86 | accepts exactly then and appends the block, or changes nothing |
| LedgerSimulation.Simulation | contracts/TrainingLedger.sol:119-137 | over every admissible run both ledgers finalise on the same events if and only if no finalisation meets a recorded loss of 0 with a higher one; then they agree on finalised roots, epochs, losses and rewards |
| LedgerSimulation.RunRelated | include/neuropet/pouw_chain.hpp:43-86 | until the first such finalisation the two ledgers stay related |
| LedgerSimulation.PositiveLossesNeverTrapped | include/neuropet/pouw_chain.hpp:60-65 | runs with positive losses have none |
| LedgerSimulation.DecisionsAgreeExactly | include/neuropet/pouw_chain.hpp:60-65 | in related states (`RunRelated`) they decide alike unless the recorded loss is 0 and the new one is higher |
| LedgerSimulation.ZeroLossSeparates | contracts/TrainingLedger.sol:126-127 | a run with a zero loss after which the contract accepts what the chain refuses |
| LedgerSimulation.QuorumZeroSeparates | contracts/ProofVerifier.sol:50-52 | the approvals agree if and only if the quorum is positive or the root has votes or a proof |
| Hatching.MixInvertible | include/neuropet/hatching.hpp:43-48 | the output mix has an inverse on 64-bit words |
| Hatching.OutputsRepeatExactly | include/neuropet/hatching.hpp:43-48 | outputs are equal exactly when a multiple of 2^64 draws apart |
| Hatching.StateInClosedForm | include/neuropet/hatching.hpp:43-44 | the state after n draws is the seed plus n times the increment modulo 2^64 |
| Hatching.GenerateGenesisWeights | include/neuropet/hatching.hpp:50-61 | weight i depends on seed and i only, lies in [-8, 8], and is the output without its two low bits, up to 8 and a multiple of 17 |
| Int8Spec.RoundTripExactly | include/neuropet/int8_spec.hpp:41-87 | a saved network loads back as itself if and only if its counts fit 32 bits |
| Int8Spec.HeaderIs | include/neuropet/int8_spec.hpp:43-45 | a saved file begins with N8NW, version 1 and the number of layers, low byte first |
| Int8Spec.LayerLayout | include/neuropet/int8_spec.hpp:46-55 | the fields of a saved layer in their places: operation, sizes, counts low byte first, weights and biases in two's complement |
| Int8Spec.LoadsExactly | include/neuropet/int8_spec.hpp:61-87 | a file loads as a network if and only if the counts of the network fit 32 bits and the file is its encoding, up to the version field and with anything after it |
| Int8Spec.SuffixIgnored | include/neuropet/int8_spec.hpp:61-87 | bytes after a saved network are ignored |
| Int8Spec.TruncationThrows | include/neuropet/int8_spec.hpp:61-87 | every strict prefix of a saved file throws |
| Int8Spec.SaveNetwork | include/neuropet/int8_spec.hpp:41-58 | the file is the encoding |
| Int8Spec.InStream.Read | include/neuropet/int8_spec.hpp:61-84 | a short read fails the stream for good |
| Int8Spec.LoadLayer | include/neuropet/int8_spec.hpp:71-83 | one layer, with failures noticed at the next count |
| Int8Spec.LoadNetwork | include/neuropet/int8_spec.hpp:61-87 | loads what the file decodes to, or throws |
| Traits.RoundTripExactly | include/neuropet/traits.hpp:34-93 | unpacking a packed word returns the same traits if and only if fields fit 4 bits and unused slots are zero |
| Traits.UnpackOfPack | include/neuropet/traits.hpp:46-93 | in general it returns the low nibbles with unused slots zeroed |
| Traits.SlotsOfPacked | include/neuropet/traits.hpp:46-93 | slot by slot: used slots come back up to low nibbles, unused ones as zeros |
| Traits.LayoutOfPacked | include/neuropet/traits.hpp:34-67 | body in the lowest 16 bits, then sensors, then appendages, each with shape lowest, then value, saturation, hue |
| Traits.PackOfUnpack | include/neuropet/traits.hpp:46-93 | packing an unpacked word keeps its low 16(1+s+a) bits |
| Traits.PackableExactly | include/neuropet/traits.hpp:46-67 | every choice of traits with given counts has a 128-bit word if and only if at most seven slots are used |
| Traits.PackTraits | include/neuropet/traits.hpp:46-67 | the push loops build the word with one 16-bit digit per part |
| Traits.UnpackTraits | include/neuropet/traits.hpp:69-93 | the pop loops read the digits into the slots |
| Traits.TraitsToBytes | include/neuropet/traits.hpp:99-104 | sixteen big-endian bytes that stand for the word |
| DiskCache.ReadAllOfEncoded | include/harmonics/disk_cache_producer.hpp:71-85 | a well-formed file reads back as exactly its records |
| DiskCache.EverySessionAgrees | include/harmonics/disk_cache_producer.hpp:19-49 | over any sequence of sessions that starts without a cache file, or with one of whole records, the file is the encoding of the records in memory |
| DiskCache.NextSessionReloads | include/harmonics/disk_cache_producer.hpp:27-43 | a kept file is reloaded exactly and grows by what the base yields next; otherwise it is rebuilt from the base |
| DiskCache.FileAgreesExactly | include/harmonics/disk_cache_producer.hpp:71-108 | file and records agree if and only if the kept file had no unreadable tail |
| DiskCache.TornTailCorrupts | include/harmonics/disk_cache_producer.hpp:71-108 | a lawful codec and a file with half a record at its end: growth appends after it and the next session reads something else |
| DiskCache.SameTokenKeepsExactly | include/harmonics/disk_cache_producer.hpp:27-37 | reusing a token keeps the file if and only if it has no line break |
| DiskCache.ChangedTokenKeepsExactly | include/harmonics/disk_cache_producer.hpp:27-37 | a changed token keeps the file if and only if it is a line by itself and the stored token begins with it and a line break |
| DiskCache.ChangedTokenDiscards | include/harmonics/disk_cache_producer.hpp:27-37 | every change from a stored token of a single line discards the file |
| DiskCache.ChangedTokenServesStale | include/harmonics/disk_cache_producer.hpp:27-43 | two sessions with different tokens over different bases, the second of which holds the first one's items |
| DiskCache.GrowthInOrder | include/harmonics/disk_cache_producer.hpp:99-108 | from a base that stands where the cache ends, growth keeps the dataset's order, whatever its items |
| DiskCache.GrowthInOrderExactly | include/harmonics/disk_cache_producer.hpp:99-108 | growth keeps the order if and only if the base stands there, unless the base stands at a repetition of the item that is due |
| DiskCache.BlankEndedGrowth | include/harmonics/disk_cache_producer.hpp:99-108 | the same for a dataset of distinct items whose base yields blanks after the last |
| DiskCache.WrappingGrowth | include/harmonics/disk_cache_producer.hpp:99-108 | for one whose base starts over after the last: in order if and only if it stands there up to whole rounds |
| DiskCache.GrownDataset | include/harmonics/disk_cache_producer.hpp:19-49 | a second session over a dataset of another size holds the dataset's items if and only if the size is the same or growth is in order; after shrinking it holds the old ones |
| DiskCache.DiskCacheProducer.LoadCache | include/harmonics/disk_cache_producer.hpp:71-85 | reads records up to the end or the first unreadable one |
| DiskCache.DiskCacheProducer.Fetch | include/harmonics/disk_cache_producer.hpp:87-108 | takes items from the base into memory and to the end of the file |
| DiskCache.DiskCacheProducer.constructor | include/harmonics/disk_cache_producer.hpp:19-49 | leaves the records and files of one session |
| DiskCache.DiskCacheProducer.Next | include/harmonics/disk_cache_producer.hpp:51-57 | the k-th call returns record k modulo the number of records |

## Left out

- Duel.BattleAnimator.Run: called only when the loop ends, since a method here must terminate; `Duel.EndsExactly` says exactly when that is.
- BattleEngine.Engine.Fight: likewise, with `Grid.EndsExactly`.
- Creatures.ComputeTotal: stats are unbounded integers; overflow of item sums or of healing by negative power is not modelled.
- Duel.RunFitsInt32: says nothing about negative power, where the C++ value may overflow.
- ContractMatchmaker.Matchmaker.Enqueue: gas is not modelled beyond an endless match reverting; event logs and the battle hash are not modelled.
- MatmulThreads.Int8Matmul: the thread count sources (hardware, environment) are parameters; the Vulkan branch of `int8_matmul_gpu` is left out, its CPU fallback is this method. Inputs on which a partial sum leaves 32 bits, where signed overflow is undefined, are excluded.
- SimdTile.SimdRow: one row at a time, for inputs whose sums stay in 32 bits; the row loop and the threads around it are those of the scalar worker.
- DispatchQueue.EveryInterleaving: exceptions inside tasks and the future objects are not modelled; calls that overlap destruction are excluded by the language's lifetime rules; reading the stop flag before it is initialised is modelled as finding an arbitrary value there.
- LedgerSimulation.Simulation: counts of attestations and the number of blocks do not wrap in the relation; losses are integers; `setQuorum`, `setVerifier`, `setAdmin` and `rewardMiner` are not among the compared events.
- PouwChain.EveryRun: losses are integers without NaN; negative ones are included.
- LedgerAccounting.EveryHistory: `setVerifier` changes only what a proof computes, which is a parameter; allowances are in `Tokens.Core` only, and a spent one moves balances like a transfer.
- TrainingLedger.TrainingLedger.SubmitCheckpoint: the byte limit of SeasonRegistry is a parameter; fields that are only logged are dropped.
- Traits.PackTraits: not called with four sensors and four appendages, which need 144 bits (`Traits.PackableExactly`) and shift a 128-bit word by its whole width, which C++ leaves undefined.
- Int8Spec.SaveNetwork: bytes are written low first, as on the little-endian hosts the project targets; write errors and allocation failure are not modelled.
- DiskCache.DiskCacheProducer.constructor: opening and writing files succeed; the tensor codec is a parameter with the law that what was written is read back whatever follows.
- Validation.AcceptedNeverRise: proofs, losses and the on-chain answer are parameters, losses without NaN; broadcasting to peers and curriculum caching are left out.
- `derive_topology`, trait name hashes and hex output: hash digests and formatting.
- Governance, FashionDuel, CurriculumDuel, Tournament, Marketplace, SeasonRegistry, CreatureNFT and its bridge: mostly single-branch guards.
- Sockets, JSON-RPC, plugins, kernel caching, Harmonics graphs and the clients: input and output without a deep invariant.
