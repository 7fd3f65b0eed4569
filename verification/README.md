# Consensus core of a lean Ethereum client, verified

This project models the consensus engine of the client in Dafny and proves what it is for:
that finality never moves back and can always be driven on, that justification always rests
on a supermajority, that the fork choice computes LMD-GHOST, that neither the store nor the
fate of a run depends on the order in which blocks arrive, and that what the node builds it
can also accept.

`dafny verify dfyconfig.toml` checks everything.

## How the model is laid out

| file | what it holds |
|---|---|
| `Containers`, `Slots`, `Bits` | records, outcomes (`Ok`, `Err`, `Panic`), the 3SF-mini justifiability rule, bit lists |
| `Window`, `Tallies` | the sliding window of justified slots; pending vote tallies and their flattened form |
| `Justification`, `StateTransitions` | attestation processing and the state transition: functions that say what happens, methods with the loops |
| `Finality`, `Soundness`, `Chain`, `Bodies`, `Counting` | what every attestation, block and chain keeps; when they fail; what the window, the justified checkpoint and the pending tallies mean |
| `Provenance`, `Liveness`, `Witnesses` | where justification comes from; chains that finalize; chains on which two plausible properties fail |
| `BlockTree`, `ForkChoice`, `HeadTheorems` | declarative LMD-GHOST, the three-stage computation, majority and supermajority theorems |
| `StoreTree`, `StoreModel`, `Imports`, `Arrivals`, `Runs`, `StoreFacts`, `Ballots`, `Pipeline` | the store as a value, and theorems over all runs |
| `Productions`, `Store` | runs in which the node builds blocks of its own; the store as a class whose handlers update its fields |
| `Duties`, `Staleness` | choosing what to vote for; a run in which that panics |
| `Aggregation`, `Covering`, `Builder` | grouping votes, covering them with proofs, building blocks |

Conventions:

- A root is a natural number whose order is the byte order of the hash; zero is the zero hash.
  Hash tree roots come from a `Hasher` parameter and are never zero. A block and its header
  with the state root filled in have the same root, because they merkleize to the same tree.
  Collision freedom is assumed only for the blocks of one run (`Env.universe`) and, where
  stated, for attestation data.
- An error return and an assertion failure are different outcomes. A panic ends a run; an
  error leaves a store to go on with.
- Slots, indices and distances are unbounded. The floating-point square root is the integer
  square root.
- The iteration order of hash maps and hash sets is left open in the methods (`v :| v in rest`),
  so what is proved holds for every order.
- `StoreModel.WithHead` and `WithSafeTarget` leave the store alone when the justified root is
  not stored. The code would panic there; `StoreFacts.InvAnchored` shows that no run gets there.
- An absent pool of votes, signatures or proofs given to `build_block` is an empty one.

Where code and comments differ, the model follows the code: justifiability is always tested
against the finalized slot that the block started from, also after the loop has moved
finality.

Four plausible properties are false of the code. Each has a counterexample, for every hash
function (in the last case every one that is free of collisions), and an exact condition:

| property | counterexample | exactly when | guard that a caller can check |
|---|---|---|---|
| processing a block never panics | `Witnesses.OldSourcePanics` | `Bodies.TransitionPanicsExactly`; for runs `StoreFacts.RunCrashesOnlyInAttestations` | `Bodies.HarmlessNeverPanics` |
| the justified slot of a state never goes down | `Witnesses.JustifiedCanMoveBack` | `Bodies.JustifiedMovesBackExactly` | `Bodies.LateTargetsNeverMoveBack` |
| `build_block` always yields a block | `Builder.MixedVotesWitness`, `Builder.NoBlockForMixedVotes` | the clauses of `Promised`, which is the contract of `Builder.BuildBlock` | `Buildable` |
| a node can always choose a target to vote for | `Staleness.StaleTargetPanics`, `Staleness.AttestingCanPanic` | `Duties.TargetExact` | the hypotheses of `Duties.TargetIsNearestJustifiable` |

## Model

| member | source | states |
|---|---|---|
| Slots.JustifiableDistanceExact | lean_client/containers/src/slot.rs:43-76 | the square-root tests accept a distance exactly when it is at most 5, a square or a pronic number |
| Slots.NextJustifiableIsNear | lean_client/containers/src/slot.rs:43-76 | after any distance the next accepted one is at most its square root plus one further on |
| Slots.NothingBetweenSquareAndPronic | lean_client/containers/src/slot.rs:56-75 | from distance 9 on nothing is accepted between neighbouring squares and pronics |
| Bits.IndicesAreMembers | lean_client/containers/src/attestation.rs:97-111 | reading a bit list gives its set bits, strictly increasing, and nothing exactly when no bit is set |
| Window.LookupRefinesSet | lean_client/containers/src/state.rs:34-43 | a lookup answers whether the slot is justified, for every slot up to the horizon, and is an error for every other |
| Window.MarkRefinesSet | lean_client/containers/src/state.rs:45-60 | marking justifies one slot and no other, keeps the horizon, and fails exactly past it |
| Window.ShiftWindowByCopying | lean_client/containers/src/state.rs:62-84 | the copying loop yields the tail of the window, or panics when the shift is too long |
| Window.ShiftRefinesSet | lean_client/containers/src/state.rs:62-84 | a shift keeps every later answer and the horizon, justifies everything up to the new finality, and panics exactly when that lies past the horizon |
| Window.ExtendToSlotByCopying | lean_client/containers/src/state.rs:86-103 | the copying loop yields the old bits followed by false, and leaves a window that is long enough alone |
| Window.ExtendRefinesSet | lean_client/containers/src/state.rs:86-103 | extending moves the horizon and justifies nothing |
| Tallies.SortRoots | lean_client/containers/src/state.rs:567-571 | the keys of the tallies come out as their unique strictly increasing listing |
| Tallies.WithJustifications | lean_client/containers/src/state.rs:240-275 | `get_justifications` reads back exactly the map that was written, and there is one row of bits per root |
| Tallies.GetJustificationsIsUnflatten | lean_client/containers/src/state.rs:217-238 | with enough bits, `get_justifications` is the slicing that attestation processing does |
| Tallies.UnflattenInvertsFlatten | lean_client/containers/src/state.rs:431-443 | what one block writes the next reads back as the same map; bit length is roots times validators |
| Tallies.FlattenInvertsUnflatten | lean_client/containers/src/state.rs:573-592 | every well-shaped pair of lists is the flattening of the map read from it |
| Aggregation.PackIndices | lean_client/containers/src/attestation.rs:72-95 | the loops compute the packing, with its two assertions |
| Aggregation.PackRoundTrip | lean_client/containers/src/attestation.rs:72-111 | packing succeeds exactly on non-empty lists of ids below 4096 and reads back as the same ids, sorted, without repeats |
| Aggregation.PackedIsCanonical | lean_client/containers/src/attestation.rs:72-111 | packing, reading back and packing again gives the same bits |
| Aggregation.CanonicalUnique | lean_client/containers/src/attestation.rs:72-95 | bits that packing yields are determined by the validators they name |
| Aggregation.Aggregate | lean_client/containers/src/attestation.rs:187-210 | the grouping and packing loops compute the aggregation |
| Aggregation.AggregationPreservesVotes | lean_client/containers/src/attestation.rs:187-210 | groups have pairwise distinct data, a validator is in the group of a vote exactly when it cast it, and this completes exactly when every id is below 4096 |
| Aggregation.FindDuplicateData | lean_client/containers/src/attestation.rs:213-222 | finds a repeat exactly when two attestations have data with the same root |
| Aggregation.AggregatesHaveNoDuplicates | lean_client/containers/src/attestation.rs:187-222 | without data collisions the result of aggregation passes the duplicate check |
| Aggregation.AggregatesInOrder | lean_client/containers/src/attestation.rs:187-210 | aggregates come in the order in which their data was first cast |
| Justification.IndexSlots | lean_client/containers/src/state.rs:450-464 | the loop maps each root after finality to its last slot |
| Justification.CastVotes | lean_client/containers/src/state.rs:517-525 | the voting loop sets the bits one by one and fails at the first unknown validator |
| Justification.ScanForJustifiable | lean_client/containers/src/state.rs:540-542 | the scan stops at the first justifiable slot or panic |
| Justification.JustifyTarget | lean_client/containers/src/state.rs:532-564 | the branch taken on a supermajority computes `Justify` |
| Justification.ProcessOne | lean_client/containers/src/state.rs:473-564 | one round of the loop computes `Step`; what that does to tallies is in `Counting.ChainTallyExact`, to checkpoints and window in `Finality.JustificationExact` |
| Justification.ProcessEach | lean_client/containers/src/state.rs:466-565 | the loop computes `Run`, stopping at the first failure |
| Justification.ProcessAttestations | lean_client/containers/src/state.rs:417-599 | the whole of attestation processing computes `AfterAttestations`, errors and panics included; what that means along a chain is in `Bodies.ChainWindowExact` and `Counting.ChainTallyExact` |
| Finality.AnyJustifiableExact | lean_client/containers/src/state.rs:540-542 | the scan panics exactly when it starts before finality, and otherwise finds a hit exactly when there is one |
| Finality.CountedExact | lean_client/containers/src/state.rs:473-508 | the chain of filters lets a vote through exactly when it satisfies the declarative condition `Countable` |
| Finality.OldSourceIsBlocked | lean_client/containers/src/state.rs:540-547 | once finality has moved on, a source behind it always has a justifiable slot between it and its target |
| Finality.StepKeepsGuard | lean_client/containers/src/state.rs:466-565 | one attestation keeps the invariant that protects finality and does not lower finality |
| Finality.JustificationExact | lean_client/containers/src/state.rs:532-562 | a completed supermajority justifies exactly its target and finalizes its source exactly when nothing between them is justifiable |
| Finality.OnlySupermajoritiesJustify | lean_client/containers/src/state.rs:466-565 | no other attestation changes checkpoints or window |
| Finality.FinalityNeverRegresses | lean_client/containers/src/state.rs:417-599 | for every state and list of attestations that is processed to the end, the finalized slot does not go down |
| Finality.StepPanicsExactly | lean_client/containers/src/slot.rs:43-47 | an attestation panics exactly when it is counted and names nobody, or completes a supermajority with a source two or more slots before the starting finality; and on which assertion |
| Soundness.SlotIndexSound | lean_client/containers/src/state.rs:450-464 | the index has every root after finality, at its greatest slot, and no other |
| Soundness.StepKeepsSound | lean_client/containers/src/state.rs:466-565 | one attestation keeps: checkpoints name blocks of the chain, the window spans the history, tallies are pending and short of two thirds |
| Soundness.StepFailsExactly | lean_client/containers/src/state.rs:466-565 | an attestation is an error exactly when it speaks of a slot not reached yet or an unknown validator; the bookkeeping checks never fire |
| StateTransitions.ProcessSlots | lean_client/containers/src/state.rs:311-334 | skipping any number of slots fills in the header's state root once and moves the slot |
| StateTransitions.SlotsCompose | lean_client/containers/src/state.rs:311-334 | skipping slots in two steps equals skipping them at once; a header that is complete stays as it is |
| StateTransitions.ProcessBlockHeader | lean_client/containers/src/state.rs:353-415 | the header step with its five checks, history padding and window extension |
| StateTransitions.ProcessBlock | lean_client/containers/src/state.rs:336-351 | header, duplicate check, attestations, in this order |
| StateTransitions.StateTransition | lean_client/containers/src/state.rs:286-309 | slots, block and the final state root check |
| Chain.HeaderKeepsSound | lean_client/containers/src/state.rs:353-415 | the header step keeps the invariant, extends history by the parent root and zeros, and leaves finality and tallies |
| Chain.TransitionKeepsSound | lean_client/containers/src/state.rs:286-309 | a successful transition keeps the invariant, extends history, commits to the block and does not lower finality |
| Chain.TransitionFailures | lean_client/containers/src/state.rs:424-429 | in a reachable state no transition fails a bookkeeping check, and only two assertions can panic |
| Chain.ChainReachable | lean_client/containers/src/state.rs:286-309 | every state that a chain of accepted blocks reaches from genesis satisfies the invariant |
| Chain.ChainNeverGoesBack | lean_client/containers/src/state.rs:286-309 | along every chain from genesis finality is monotone and history append-only |
| Chain.AcceptedBlockExtendsTip | lean_client/containers/src/state.rs:353-415 | every accepted block names the root of the block before it, is later, comes from the validator whose turn it is, repeats no data and commits to its post-state, whose header is the block's, field by field |
| Chain.TransitionChecks | lean_client/containers/src/state.rs:353-372 | whatever the state, an accepted block is later than the state and its header, is by the validator whose turn it is, names the completed header as parent and commits to its post-state |
| Chain.FinalizedIsForever | lean_client/containers/src/state.rs:544-547 | a finalized block stays in every later history, at its slot and at or below later finality |
| Chain.ChainStatesWellKept | lean_client/containers/src/state.rs:369-415 | after the first block: history length is the header slot, finalized slot at most justified slot, both roots are the history entries, window length is header slot minus one minus finalized slot, every tally has a vote but less than two thirds and belongs to an unfinalized block |
| Chain.ChainNeverInconsistent | lean_client/containers/src/state.rs:424-429 | no block on top of any chain fails the zero-root, missing-slot or history check |
| Bodies.AttestationsPanicExactly | lean_client/containers/src/state.rs:466-565 | for every state, processing a list of attestations panics exactly when the stored tallies are too short or some attestation panics after all before it went through |
| Bodies.HarmlessNeverPanics | lean_client/containers/src/slot.rs:43-47 | nothing panics if every attestation names someone and has a source at most one slot before finality |
| Bodies.AttestationsFailExactly | lean_client/containers/src/state.rs:466-565 | processing is an error exactly when some attestation, after all before it went through, speaks of a slot not reached or an unknown validator |
| Bodies.AnswerableNeverFails | lean_client/containers/src/state.rs:417-599 | attestations of known validators about reached slots, with sources not behind finality, are always processed to the end |
| Bodies.TransitionPanicsExactly | lean_client/containers/src/state.rs:286-309 | the transition of a reachable state panics exactly when the header and duplicate checks pass and some attestation panics |
| Bodies.BodyMarksExactly | lean_client/containers/src/state.rs:532-552 | for every state, the slots justified after a block are those up to the new finality, those from before, and the targets of supermajorities completed in it |
| Bodies.ChainWindowExact | lean_client/containers/src/state.rs:33-104 | in every state of every chain the window marks a slot exactly when it is finalized or some block of the chain completed a supermajority for it |
| Bodies.JustifiedIsForever | lean_client/containers/src/state.rs:62-103 | along every chain no justified slot is forgotten, through extending, marking and shifting |
| Bodies.JustifiedIsLastTarget | lean_client/containers/src/state.rs:532-534 | the justified checkpoint after a block is the target of the last supermajority completed in it, or the one from before |
| Bodies.JustifiedMovesBackExactly | lean_client/containers/src/state.rs:532-534 | a block lowers the justified slot exactly when the last supermajority it completes is for an earlier target |
| Bodies.LateTargetsNeverMoveBack | lean_client/containers/src/state.rs:532-534 | a block in which no target is before the justified slot does not lower it |
| Counting.ChainTallyExact | lean_client/containers/src/state.rs:510-592 | in every state of every chain, a validator has a pending vote for a root that is neither finalized nor justified exactly when some attestation of the chain that was counted has that target and names it: votes add up over attestations and blocks, and pruning drops none of them |
| Counting.SupermajorityJustifies | lean_client/containers/src/state.rs:532-538 | a root is justified as soon as the counted attestations of the chain name two thirds of the validators for it |
| Liveness.QuietBlock | lean_client/containers/src/state.rs:286-415 | on every reachable state and in every later slot the proposer has an empty block that the transition accepts and that leaves finality and justified slots alone |
| Liveness.EveryoneVotesExactly | lean_client/containers/src/state.rs:473-564 | a counted vote of all validators justifies exactly its target, finalizes its source exactly when nothing between is justifiable, and panics exactly when the source is too old |
| Liveness.FinalityCanAdvance | lean_client/containers/src/state.rs:417-599 | plausible liveness: every chain can be continued by blocks that the transition accepts and that finalize a slot past any given bound |
| Provenance.JustificationHasQuorum | lean_client/containers/src/state.rs:505-538 | the attestation that justifies completes a set of distinct voters of two thirds, each with a recorded vote |
| Provenance.ChainTraced | lean_client/containers/src/state.rs:431-592 | along every chain, across flattening, every tally bit was cast in a block and every justified slot and checkpoint is backed by a quorum |
| Provenance.EveryJustificationHasQuorum | lean_client/containers/src/state.rs:466-538 | every justification that ever happens in a chain has a target that is justifiable from the finality its block started with and a quorum of votes in that chain |
| Provenance.QuorumsIntersect | lean_client/containers/src/state.rs:532 | any two quorums share a third of the registered validators |
| Provenance.JustifiedBlocksShareVoters | lean_client/containers/src/state.rs:532-534 | any two targets ever justified in any two chains, overtaken or not, have a third of the registered validators as common voters |
| Provenance.CheckpointsShareVoters | lean_client/containers/src/state.rs:532-534 | in particular the justified checkpoints that two chains end with |
| Witnesses.OldSourcePanics | lean_client/containers/src/state.rs:540-542 | for every hash function and number of validators, a chain from genesis and a block on which the transition panics |
| Witnesses.JustifiedCanMoveBack | lean_client/containers/src/state.rs:534 | for every hash function and number of validators, a chain from genesis and an accepted block that lowers the justified slot from 3 to 2 |
| ForkChoice.AddVoteWeight | lean_client/fork_choice/src/store.rs:167-191 | one vote adds one to exactly the ancestors of its head above the start slot |
| ForkChoice.AccumulateWeights | lean_client/fork_choice/src/store.rs:163-191 | the weight of every block above the start slot is the number of voters in its subtree, in any visiting order |
| ForkChoice.LinkChildren | lean_client/fork_choice/src/store.rs:193-204 | a parent lists exactly its children with enough votes |
| ForkChoice.HeaviestOf | lean_client/fork_choice/src/store.rs:214-222 | picks the child that beats all others on weight, then root |
| ForkChoice.GreedyWalk | lean_client/fork_choice/src/store.rs:206-223 | the walk ends at the declarative head |
| ForkChoice.GetForkChoiceHead | lean_client/fork_choice/src/store.rs:149-224 | the three stages compute declarative LMD-GHOST for every well-formed tree, vote map and threshold; the zero root means some earliest block |
| HeadTheorems.HeadDescendsFromStart | lean_client/fork_choice/src/store.rs:206-223 | the head descends from the start root |
| HeadTheorems.HeadIsGreedy | lean_client/fork_choice/src/store.rs:193-223 | the head has no child with enough votes, and every block on the path to it outweighs each sibling that has enough, or is as heavy and has the greater root |
| HeadTheorems.MajorityPrevails | lean_client/fork_choice/src/store.rs:166-223 | a block with more than half of all votes in its subtree is on the path to the head |
| HeadTheorems.VotingForHeadKeepsIt | lean_client/fork_choice/src/store.rs:166-223 | moving or adding any vote onto the head leaves the head unchanged |
| HeadTheorems.SafeWalkNeverBranches | lean_client/fork_choice/src/store.rs:256-267 | with the two-thirds threshold no block has two eligible children |
| HeadTheorems.SafeTargetExact | lean_client/fork_choice/src/store.rs:256-267 | below the start root, having two thirds of the votes is the same as being on the path to the safe target |
| Imports.ReimportChangesNothing | lean_client/fork_choice/src/handlers.rs:327-357 | importing a stored block again changes neither blocks, states nor checkpoints |
| Imports.ImportKeepsStore | lean_client/fork_choice/src/handlers.rs:299-357 | storing a valid block keeps the tree, the fit of states to blocks and the greatest checkpoints |
| Imports.ImportAlwaysGrows | lean_client/fork_choice/src/handlers.rs:285-447 | an import adds exactly its block or changes nothing, and keeps the invariant |
| Arrivals.ArrivalAccounts | lean_client/fork_choice/src/handlers.rs:256-283 | after a call, every delivered block is stored, rejected or waiting for a parent that is not stored |
| Arrivals.OrphansWaitInOrder | lean_client/fork_choice/src/handlers.rs:264-276 | an orphan goes to the end of the list of its parent, and nothing else changes |
| Arrivals.OrphansImportInOrder | lean_client/fork_choice/src/handlers.rs:452-457 | the orphans of one parent are imported in the order of the list |
| Arrivals.DrainIsDepthFirst | lean_client/fork_choice/src/handlers.rs:449-460 | what hangs below the roots on top of the stack is imported before the roots below them get their turn |
| Runs.AnchorStore | lean_client/fork_choice/src/store.rs:99-147 | a store made from any anchor has its clock at the anchor's slot, holds the anchor alone, and lets it stand in for checkpoints that the state does not have |
| Runs.InitialInv | lean_client/fork_choice/src/store.rs:99-147 | the store made from genesis satisfies the invariant |
| Runs.RunsStayQuiet | lean_client/fork_choice/src/handlers.rs:256-283 | every run keeps the invariant and leaves no queued parent stored |
| Runs.StoredExactly | lean_client/fork_choice/src/handlers.rs:256-329 | the store holds exactly the ends of accepted chains of delivered blocks, with their states |
| Runs.RunCrashesExactly | lean_client/fork_choice/src/handlers.rs:285-329 | a run crashes exactly when some delivered block panics on the state of an accepted chain of delivered blocks, whatever the order of arrival |
| Runs.SameBlocksSameFate | lean_client/fork_choice/src/handlers.rs:256-460 | a run that is handed no other blocks than one that completes, completes as well |
| Runs.ArrivalOrderIrrelevant | lean_client/fork_choice/src/handlers.rs:256-460 | if one run completes, every run handed the same blocks in any order and number completes too and stores the same blocks and states |
| StoreFacts.RunHistoryExact | lean_client/fork_choice/src/handlers.rs:299-329 | in every run the history of a stored state is its parent walk: ancestors at their slots, zero elsewhere |
| StoreFacts.RunCheckpointsGreatest | lean_client/fork_choice/src/handlers.rs:331-357 | in every run the checkpoints have the greatest slots among stored states, name stored blocks of those slots, and the head descends from the justified one |
| StoreFacts.RunCheckpointsBacked | lean_client/fork_choice/src/handlers.rs:331-357 | in every run both checkpoints are backed by a quorum in a chain of delivered blocks |
| StoreFacts.RunSafeTargetExact | lean_client/fork_choice/src/store.rs:256-267 | when the safe target is recomputed in a run, the path to it consists of exactly the blocks with two thirds of the pending votes |
| StoreFacts.RunCrashesOnlyInAttestations | lean_client/fork_choice/src/handlers.rs:316 | a run crashes exactly when a delivered block on an accepted chain of delivered blocks carries an attestation that panics, and only on two assertions; no block or state lookup fails |
| StoreFacts.RunNeverGoesBack | lean_client/fork_choice/src/handlers.rs:327-357 | along a run nothing stored is lost, time goes forward, and a checkpoint is only replaced by one of a greater slot |
| StoreFacts.ValidityLasts | lean_client/fork_choice/src/handlers.rs:28-87 | a vote that is valid at some point of a run is valid ever after, and one that contradicts stored blocks or itself fails ever after with the same error |
| StoreFacts.RunHeadIsGhost | lean_client/fork_choice/src/store.rs:233-241 | in every run with gossip votes the head is at all times the LMD-GHOST head of the accepted votes |
| Productions.ProducingRunKeepsChain | lean_client/fork_choice/src/store.rs:329-388 | in every run, also with blocks of the node's own, every stored block is the valid successor of its parent, histories are parent walks, checkpoints name stored blocks, and the head descends from the justified one |
| Productions.ProducingRunGrows | lean_client/fork_choice/src/store.rs:384-385 | also across productions nothing stored is lost and checkpoints only advance |
| Productions.OwnBlockKeepsRestExactly | lean_client/fork_choice/src/store.rs:384-385 | after a production the checkpoints are still the greatest exactly when those of the new state are not greater, and no queued parent is stored exactly when nobody waits for the new block |
| Productions.ProposalIsCollectable | lean_client/fork_choice/src/store.rs:336-380 | in every coherent store the proposer of a later slot is sure to collect its votes, if they are by registered validators for earlier targets and do not collide |
| Productions.ProposalCarriesVotes | lean_client/fork_choice/src/store.rs:355-380 | if all accepted votes are signed, a block that comes out carries accepted votes about stored heads only, and all those whose source is the justified checkpoint of the state it leads to |
| Ballots.BodyVotesExact | lean_client/fork_choice/src/handlers.rs:403-425 | what the votes of a block body leave for each validator: the first of its latest votes counts unless an accepted one is as late, its pending vote survives only if later, and nothing changes for validators that are not named |
| Ballots.ImportVotesExact | lean_client/fork_choice/src/handlers.rs:403-445 | the same for a successful import, after which the vote of the proposer is pending unless one as late is there |
| Pipeline.VotersNeverShrink | lean_client/fork_choice/src/handlers.rs:208-247 | over any run no validator's vote disappears from both stages |
| Pipeline.IntervalExact | lean_client/fork_choice/src/store.rs:289-300 | in which intervals pending votes are accepted and the safe target is recomputed, and that they are otherwise untouched |
| Pipeline.TickVotesExact | lean_client/fork_choice/src/handlers.rs:10-22 | ticking accepts the pending votes exactly when it passes an accepting interval |
| Pipeline.PendingStageEmpties | lean_client/fork_choice/src/store.rs:282-300 | any run of four intervals, whoever votes meanwhile, passes through a store in which nothing is pending and every earlier voter counts |
| Pipeline.PendingVoteCounts | lean_client/fork_choice/src/store.rs:282-300 | within four intervals of any run, a vote at least as late as the pending one counts for its validator |
| Pipeline.PendingVotesAreAccepted | lean_client/fork_choice/src/store.rs:282-300 | for validators that fall silent: four intervals later nothing of theirs is pending, and the vote that counts is at least as late as the one that was |
| Pipeline.GossipKeepsLatest | lean_client/fork_choice/src/handlers.rs:234-245 | of several gossip votes the first with the greatest slot is kept |
| Pipeline.ChainKeepsLatest | lean_client/fork_choice/src/handlers.rs:216-233 | of several on-chain votes the first with the greatest slot is kept, and pending votes not later than it are dropped |
| Pipeline.GossipVoteCounts | lean_client/fork_choice/src/handlers.rs:28-247 | a valid, later gossip vote counts after acceptance for exactly its head block and the ancestors of it |
| Pipeline.SlotExact | lean_client/fork_choice/src/store.rs:256-300 | a slot without proposal recomputes the safe target from the pending votes and then accepts them |
| Pipeline.TickWithProposalExact | lean_client/fork_choice/src/handlers.rs:10-22 | with a proposal the votes are also accepted if the ticking ends in the first interval of a slot |
| Pipeline.ClockExact | lean_client/fork_choice/src/handlers.rs:10-22 | the clock of the store shows the seconds since genesis and never goes back; ticking up to genesis does nothing |
| Pipeline.ProposalClockExact | lean_client/fork_choice/src/store.rs:303-309 | a proposal for a slot brings the clock to its first interval, if it is not later, and leaves no vote pending |
| Pipeline.TicksCompose | lean_client/fork_choice/src/handlers.rs:10-22 | ticking in two steps equals ticking at once |
| ForkChoiceStore.Store.constructor | lean_client/fork_choice/src/store.rs:99-147 | builds the store from any anchor state, block and genesis time; made from genesis it is coherent |
| ForkChoiceStore.Store.UpdateHead | lean_client/fork_choice/src/store.rs:233-241 | sets the head to the LMD-GHOST head of the accepted votes |
| ForkChoiceStore.Store.UpdateSafeTarget | lean_client/fork_choice/src/store.rs:256-267 | sets the safe target to the head of the pending votes with the two-thirds threshold |
| ForkChoiceStore.Store.AcceptNewAttestations | lean_client/fork_choice/src/store.rs:282-287 | moves pending votes over accepted ones and updates the head |
| ForkChoiceStore.Store.TickInterval | lean_client/fork_choice/src/store.rs:289-300 | one interval, keeping the store coherent |
| ForkChoiceStore.Store.OnTick | lean_client/fork_choice/src/handlers.rs:10-22 | the interval loop, with the proposal signalled in the last interval only; `Pipeline.ClockExact` and `TickWithProposalExact` say where it ends and what it accepts |
| ForkChoiceStore.Store.GetProposalHead | lean_client/fork_choice/src/store.rs:303-309 | advances to the slot, accepts votes and returns the head |
| ForkChoiceStore.Store.ProduceBlockWithSignatures | lean_client/fork_choice/src/store.rs:329-388 | advances and accepts votes in any case; for the proposer whose turn it is the outcome is that of `build_block` on all accepted votes, all stored roots and the head; a block that comes out extends the head, carries the accepted votes if they are signed, and is put into the store, which stays coherent |
| ForkChoiceStore.Store.ValidateAttestationData | lean_client/fork_choice/src/handlers.rs:28-87 | accepts exactly the votes about stored blocks at the slots they claim, source not after target, at most one slot ahead of the clock; `StoreFacts.ValidityLasts` says what the verdict is worth later |
| ForkChoiceStore.Store.OnAttestationInternal | lean_client/fork_choice/src/handlers.rs:208-247 | puts a vote into the right stage |
| ForkChoiceStore.Store.OnAttestation | lean_client/fork_choice/src/handlers.rs:155-205 | validates, then casts; an invalid vote changes nothing |
| ForkChoiceStore.Store.CastVotesOf | lean_client/fork_choice/src/handlers.rs:403-425 | casts the votes of a block body, participant by participant; `Ballots.BodyVotesExact` says what that leaves |
| ForkChoiceStore.Store.ProcessBlockInternal | lean_client/fork_choice/src/handlers.rs:285-447 | imports one block: transition, storing, checkpoints, votes, head, proposer's vote; `Ballots.ImportVotesExact` says what that leaves for each validator |
| ForkChoiceStore.Store.ImportOrphans | lean_client/fork_choice/src/handlers.rs:452-457 | imports the orphans of one parent and pushes those that succeed |
| ForkChoiceStore.Store.ProcessPendingBlocks | lean_client/fork_choice/src/handlers.rs:449-460 | drains the queue with a stack, and terminates |
| ForkChoiceStore.Store.OnBlock | lean_client/fork_choice/src/handlers.rs:256-283 | ignores known blocks, queues orphans, imports and drains otherwise |
| Duties.GetAttestationTarget | lean_client/fork_choice/src/store.rs:71-95 | the two loops compute `TargetOf`, failed lookups and the assertion included |
| Duties.CreateAttestations | lean_client/validator/src/lib.rs:200-293 | one vote, signed by every validator whose key signs, or none when the target is behind the source; `Duties.OwnVotesAreValid` says what is in it |
| Duties.OwnVotesAreValid | lean_client/validator/src/lib.rs:200-293 | in every run each vote that a node makes has its head with the head's slot, its justified checkpoint as source and the selected target; it passes the node's own validation; and a validator votes exactly when its key signs and the target is not behind the source |
| Duties.TargetExact | lean_client/fork_choice/src/store.rs:71-95 | in every run selection completes exactly when some ancestor-or-self of the walk-back point is justifiable after finality, and otherwise trips the assertion; no lookup fails |
| Duties.TargetIsNearestJustifiable | lean_client/fork_choice/src/store.rs:71-95 | if the head descends from the finalized block and the safe target is not before it, selection completes at the nearest justifiable ancestor of the walk-back point |
| Staleness.StaleTargetPanics | lean_client/fork_choice/src/store.rs:71-95 | wherever three blocks finalize slot 1, the run in which they arrive ends with target selection panicking |
| Staleness.AttestingCanPanic | lean_client/fork_choice/src/store.rs:71-95 | for every collision-free hash function and number of validators there is a run after which target selection panics |
| Covering.BestCandidate | lean_client/containers/src/state.rs:854-866 | picks a proof with the greatest overlap; panics exactly when a candidate has no participants |
| Covering.PickProof | lean_client/containers/src/state.rs:838-871 | one round of the greedy loop: adds nothing exactly when no kept proof helps, covers all that are left if a kept proof does, panics only on a kept proof that is not usable |
| Covering.CoverRemaining | lean_client/containers/src/state.rs:830-889 | the greedy loop terminates; it panics only on a proof without participants or with an id past the limit; each vote names exactly its proof's participants; if everyone has a proof that contains them all are covered, by one entry if each has a proof containing all and by several if none has; nothing is added if nobody has a proof that helps |
| Covering.ListedIsSelfProved | lean_client/containers/src/state.rs:830-889 | if every proof contains the validator it is kept under, a non-empty list is enough for that |
| Covering.CollectGossip | lean_client/containers/src/state.rs:775-802 | splits the voters of a group into signers, with their own signatures in order, and the rest; fails exactly when a signer is not registered |
| Covering.SealGossip | lean_client/containers/src/state.rs:810-828 | succeeds exactly when the signers fit into a bit list and their signatures aggregate; at most one vote, whose proof is what the prover makes of exactly these signatures for this data |
| Covering.CoverGroup | lean_client/containers/src/state.rs:770-890 | succeeds only if the gossip part can be sealed, and always then if kept proofs are usable or the group fits; covers every provable voter; a group that fits comes out as it went in, a single one as at most one vote, one that splits as several |
| Covering.ComputeAggregatedSignatures | lean_client/containers/src/state.rs:761-902 | the same for all groups: when it succeeds, votes and proofs match in number and participants, every proof was kept or sealed for its data, provable voters are covered, votes that fit come out as they were packed, data is repeated if a group splits and not if all are single |
| Covering.SignedGroupsFit | lean_client/containers/src/state.rs:775-802 | if everyone has signed, every group fits |
| Builder.StampedBlockIsValid | lean_client/containers/src/state.rs:737-758 | a block stamped with the root of the state it leads to passes the state transition |
| Builder.FindNew | lean_client/containers/src/state.rs:672-709 | finds exactly the available, eligible votes not yet taken, in order |
| Builder.CollectionSettles | lean_client/containers/src/state.rs:643-718 | where the collection ends, nothing available and eligible is left out and nothing else was taken in |
| Builder.CollectedExactly | lean_client/containers/src/state.rs:672-718 | spelled out: a vote about a known head with a signature or proofs is collected if its source is the justified checkpoint that the collected votes lead to, and every vote collected is like that, for an earlier round |
| Builder.CollectVotes | lean_client/containers/src/state.rs:643-718 | the loop terminates, computes `Collection` with its failures, and ends at that fixed point |
| Builder.CollectionSucceeds | lean_client/containers/src/state.rs:643-718 | collecting never fails if it is the proposer's turn, all votes are by registered validators for earlier targets, initial sources are not behind finality, and data roots do not collide |
| Builder.UnsplitFits | lean_client/containers/src/state.rs:775-889 | if all votes are provable, every group has a signer or exact proofs, and none splits, then all of them fit |
| Builder.SpeakingApplies | lean_client/containers/src/state.rs:737-745 | on collectable inputs every body without repeated data, for collected data and by registered validators, is accepted |
| Builder.BuildableSucceeds | lean_client/containers/src/state.rs:624-759 | under conditions that a caller can check beforehand the collection succeeds, all its groups fit and all its signatures can be sealed |
| Builder.BuildBlock | lean_client/containers/src/state.rs:624-759 | fails as the collection fails; a returned block passes `state_transition` with exactly the returned state and repeats no data; a block comes out only if the signatures aggregate and no group splits, and exactly then if the order of proofs cannot matter and kept proofs name registered validators, or if all is provable and decided; votes that fit come out as packed; provable votes are covered; a split group is a duplicate-data error; always a block if `Buildable` |
| Builder.MixedVotesWitness | lean_client/containers/src/state.rs:672-718 | for every hash function and a prover that never fails, a pool of two votes that are collected and provable, but whose group splits |
| Builder.NoBlockForMixedVotes | lean_client/containers/src/state.rs:775-889 | whatever meets the contract of `build_block` on that input is a duplicate-data error |

## Left out

- Builder.BuildBlock: says nothing on success where the order in which a hash set yields voters matters (among the voters of a group who did not sign, some have a proof that helps, or contains all, and some do not), nor, unless every vote is provable and decided or every group fits, for inputs outside `Collectable` or with kept proofs that name unregistered validators.
- XMSS keys, signatures and `verify_signatures`: a proof is its participants and some bytes, and aggregation is an operation that may fail; whether a signature is valid plays no part.
- SSZ encoding, merkleization and the capacity limits of persistent lists and bit lists (the limit of 4096 validator ids in aggregation bits is modelled).
- The signature and proof caches inside the store: they do not influence blocks, states, votes or head, and the builder takes them as arguments.
- Greatest checkpoints and an empty open queue in runs that produce blocks: `produce_block_with_signatures` neither raises checkpoints nor drains the queue, so these two are stated for runs without it; `Productions.OwnBlockKeepsRestExactly` says when it keeps them.
- Runs from anchors other than genesis: the constructor takes any anchor, but runs start from the genesis state and block, as the node's main program does.
- Hash collisions between blocks of one run: with a collision the block that arrives first would win, and arrival order would matter.
- Accountable safety across forks: tallies pool votes with different sources, so the code does not determine it; `Provenance.QuorumsIntersect` is what the tallies give.
- Validator ids of gossip votes are not checked against the registry by the code, so the safe-target theorems assume ids below the number of validators.
- Wrap-around of 64-bit counters and floating-point rounding at astronomically large distances.
- Networking, HTTP, metrics, command line, key loading and the event loop: input and output without consensus logic.
