# A verified model of the rusty-kaspa consensus and mempool core

This project is a Dafny model of five parts of the Kaspa full node written in Rust
(rusty-kaspa), with proofs of what each part promises:

- **Difficulty manager** (`difficulty.dfy`, module `Difficulty`). This covers:
  - the DAA score of a block and the non-DAA blocks of its mergeset;
  - the next difficulty target: keep the genesis bits until the window is full, then drop the
    earliest block and rescale the average target by the elapsed time;
  - the network hashrate estimate;
  - `calc_work`, the work of a target.
- **DAG traversal manager** (`traversal.dfy`, module `Traversal`). This covers:
  - the chain path between two chain blocks;
  - the breadth-first anticone walk, with its traversal budget;
  - the lowest chain block above a blue score;
  - the size-bounded window heap, a class whose `TryPush` updates its contents in place.
- **Mempool standardness rules** (`standardness.dfy`, module `Standardness`). This covers:
  - the checks on a transaction in isolation, with a fixed order and the first failure
    reported;
  - the checks in the context of its inputs;
  - the dust rule for outputs;
  - the minimum relay fee for a mass.
- **Consensus parameters** (`params.dfy`, module `Params`). This covers the derived window
  sizes, the DAA window duration, the anticone finalization depth, the nearly-synced test, the
  mainnet values and `DIFFICULTY_MAX`.
- **Subscription commands** (`subscription.dfy`, module `Subscription`). This covers:
  - the `Command` to `i32` codec, which falls back to `Start` for unknown values;
  - `Mutation::active`;
  - mutation outcomes and `apply_to`, which writes through a mutable reference and is
    modelled by a `SubscriptionSlot` object.

Three support modules serve the others:

- `common.dfy` defines:
  - machine widths as bounded naturals (`u8` … `u64`, `i32`);
  - `Option` and `Result`;
  - `Checked<T>`, for a computation that may abort the process (`panic!`, `unwrap`,
    `expect`, `assert!`, an arithmetic overflow, a division by zero).
- `ordering.dfy` defines `SortableBlock` and its order.
- `arithmetic.dfy` holds small facts about multiplication and division. They keep nonlinear
  reasoning out of the main proofs.

Map of the model:

- Wide integers (`Uint256`, `Uint320`, `BlueWorkType`) are naturals with their width bounds
  stated where the code relies on them.
- Stores are maps:
  - headers, GHOSTDAG data and relations are maps from hashes;
  - the reachability service's `is_dag_ancestor_of` is a function parameter;
  - `is_chain_ancestor_of`, `default_backward_chain_iterator` and `backward_chain_iterator`
    follow the selected-parent chain of the GHOSTDAG store instead of the reachability tree.
    The chain path requires a store whose selected chains all end at genesis, so genesis is a
    chain ancestor of every known block. In the node the reachability tree is rooted at
    `ORIGIN` instead; the climb to a lowest chain block admits chains that end there;
  - store lookups the code `unwrap`s are preconditions saying the store holds the block.
- Imperative code is imperative here too. The operations that loop or mutate are methods
  with loop invariants, each proved equal to a specification function or specified by its
  postconditions. These are:
  - `calculate_difficulty_bits`, `position_minmax`, `swap_remove` and the target sum;
  - the chain path loops and the in-place `reverse`;
  - the anticone walk and the lowest-chain-block climb. The walk's output is specified through
    the blocks it reaches: those joined to a tip by a path of parent links that never enters
    the past of `block`;
  - `try_push`;
  - the two standardness loops and the fee computation;
  - `apply_to`.

Assumptions about code that is not part of this model:

- `SortableBlock` is ordered lexicographically by (blue work, hash), with hashes totally
  ordered. Its definition is not part of this model.
- The compact target encoding (`from_compact_target_bits`, `compact_target_bits`) is an
  abstract pair of functions, `CompactCodec`. The only assumption is that every decoded target
  is below 2^256.
- `transaction_output_estimated_serialized_size` is `18 + script length`: value (8 bytes),
  script version (2), script length (8), then the script. This agrees with the dust test
  vectors, where 605 sompi is dust and 606 is not.
- `MAX_SOMPI` is 29 billion KAS of 10^8 sompi, and `MAX_SCRIPT_PUBLIC_KEY_VERSION` is 0.
- `as_u64` on the hashrate quotient keeps its low 64 bits.
- `position_minmax` reports the first minimum and the last maximum.
- `ORIGIN` is an abstract hash value.
- Unsigned 64-bit arithmetic aborts on overflow, as in a build with overflow checks. This
  concerns `mass * minimum_relay_transaction_fee` and the parameter formulas.
  `Uint256`/`Uint320` arithmetic is proved never to overflow where the code says it cannot
  (`TargetArithmeticFitsUint320`).
- The two `Uint256` additions in `calc_work`, `target + 1` and the final `+ 1`, abort on
  overflow. Their implementation in `kaspa_math` is not part of this model.
- The isolation test scenarios use a configuration that accepts transaction version 0 only,
  with a relay fee of 1000 sompi per kilogram.

Where the code and its documentation differ, the model follows the code:

- **Which blocks the window heap keeps.** `BoundedSizeBlockHeap` wraps blocks in `Reverse`,
  so `peek` is the least block.
  - `try_push` refuses a candidate below that block when the heap is full, and otherwise
    evicts it.
  - The heap therefore keeps the *greatest* blocks pushed, not the lowest-blue-work ones.
  - `TryPush` states this.
- **Steady state of the retarget formula.** A window of ten blocks of one target, spanning ten
  target block times, does not reproduce the target.
  - The earliest block is dropped before averaging, so nine blocks are averaged and the
    elapsed time is divided by nine block times.
  - The target comes back unchanged when the window spans one block time per averaged block
    (`SteadyStateKeepsTarget`).
  - `TenBlocksOverTenBlockTimes` shows the ten-block case raising 900 to 1000.
- **Equality of difficulty blocks.** `DifficultyBlock` equality compares only the sortable
  block, while its order compares the timestamp first. The two agree on blocks read from one
  header store (`BlockOrderAgreesWithEq`).

## Model

| member | source | states |
|---|---|---|
| `Ordering.LessIsStrictTotalOrder` | consensus/src/processes/difficulty.rs:52 | the `SortableBlock` order used by `take_while` and the window heap is irreflexive, transitive, total and asymmetric |
| `Ordering.MinBlock` | consensus/src/processes/traversal_manager.rs:143-148 | the block at the top of a `Reverse` heap is in the heap and no block of the heap is below it |
| `Ordering.MinBlockUnique` | consensus/src/processes/difficulty.rs:45 | the least block of a collection is unique |
| `Ordering.MinBlockOrderInvariant` | consensus/src/processes/difficulty.rs:45 | the window's lowest block depends only on the multiset of blocks, not on the heap layout |
| `Difficulty.WindowLowestBlock` | consensus/src/processes/difficulty.rs:44-45 | the window's lowest block is a block of the window with none below it; for an empty window the sentinel of greatest blue work is above every block of smaller blue work |
| `Difficulty.TakeWhileBelow` | consensus/src/processes/difficulty.rs:52 | `take_while` yields the longest prefix whose elements are all strictly below the bound; the next element, if any, is not below it |
| `Difficulty.HashesOfSize` | consensus/src/processes/difficulty.rs:53-54 | collecting hashes into a set never yields more hashes than blocks |
| `Difficulty.CalcDaaScoreAndNonDaaMergesetBlocks` | consensus/src/processes/difficulty.rs:38-58 | the DAA score is the selected parent's score plus the mergeset size minus the non-DAA count, so it lies between the two; a hash is non-DAA exactly when its candidate and every candidate before it are below the window's lowest block (the sentinel of greatest blue work for an empty window); every non-DAA hash is in the mergeset |
| `Difficulty.NonDaaFacts` | consensus/src/processes/difficulty.rs:46-57 | the non-DAA set is no larger than the mergeset, is characterised by the below-prefix of candidates, and lies in the mergeset |
| `Difficulty.NonDaaAreBelowPrefix` | consensus/src/processes/difficulty.rs:46-54 | a hash is taken by `take_while` exactly when its candidate and all earlier candidates are below the lowest block |
| `Difficulty.NonDaaInMergeset` | consensus/src/processes/difficulty.rs:46-51 | every candidate, the selected parent included, is a mergeset block |
| `Difficulty.NonDaaEmptyWhenFirstCandidateNotBelow` | consensus/src/processes/difficulty.rs:52-57 | when the first candidate is not below the window's lowest block, no block is non-DAA and the score is the selected parent's plus the whole mergeset |
| `Difficulty.NonDaaEmptyWindow` | consensus/src/processes/difficulty.rs:44-57 | with an empty window every candidate below the maximal blue work is non-DAA, so the non-DAA set is the whole mergeset and, for distinct hashes, the score equals the selected parent's |
| `Difficulty.DaaScoreWindowOrderInvariant` | consensus/src/processes/difficulty.rs:44-57 | the DAA score and non-DAA set depend on the window only through its multiset of blocks |
| `Difficulty.BlockLess` | consensus/src/processes/difficulty.rs:151-161 | the order of difficulty blocks puts an earlier timestamp first and settles equal timestamps by the sortable block; a block is never below itself |
| `Difficulty.BlockEq` | consensus/src/processes/difficulty.rs:144-149 | two difficulty blocks are equal exactly when neither sortable block is below the other; equal blocks compare equal, and with the same timestamp and bits such blocks are identical |
| `Difficulty.BlockOrderAgreesWithEq` | consensus/src/processes/difficulty.rs:137-161 | on blocks from one header store the order (timestamp, then sortable block) is strict, and incomparability coincides with `PartialEq` and with equality |
| `Difficulty.DifficultyBlocks` | consensus/src/processes/difficulty.rs:60-68 | each window block is paired, in order, with its header's timestamp and bits |
| `Difficulty.DifficultyBlocksConsistent` | consensus/src/processes/difficulty.rs:144-149 | blocks read from one header store satisfy the premise of `PartialEq for DifficultyBlock` |
| `Difficulty.MinIndex` | consensus/src/processes/difficulty.rs:78 | the position reported as minimum holds a least block, ahead of every equal one, with the smallest timestamp |
| `Difficulty.MaxIndex` | consensus/src/processes/difficulty.rs:78 | the position reported as maximum holds a greatest block, after every equal one, with the largest timestamp |
| `Difficulty.SwapRemove` | consensus/src/processes/difficulty.rs:84 | `swap_remove` moves the last element into the removed position and keeps the rest |
| `Difficulty.SwapRemoveIsRemoveAt` | consensus/src/processes/difficulty.rs:84 | `swap_remove` leaves the same multiset as removing the element in place |
| `Difficulty.SumTargetsConcat` | consensus/src/processes/difficulty.rs:89-90 | the target sum of a concatenation is the sum of the parts |
| `Difficulty.SumTargetsRemoveAt` | consensus/src/processes/difficulty.rs:89-90 | taking one block out subtracts its target from the sum |
| `Difficulty.SumTargetsPermutation` | consensus/src/processes/difficulty.rs:89-90 | the target sum depends only on the multiset of blocks |
| `Difficulty.SumTargetsConstant` | consensus/src/processes/difficulty.rs:89-90 | n blocks of one target sum to n times that target |
| `Difficulty.SumTargetsBound` | consensus/src/processes/difficulty.rs:89-90 | n 256-bit targets sum to at most n * (2^256 - 1) |
| `Difficulty.ScaledTargetAtSteadyState` | consensus/src/processes/difficulty.rs:91-92 | with n targets T over n block times, the left-to-right floor divisions give back T |
| `Difficulty.Retarget` | consensus/src/processes/difficulty.rs:91-93 | a retarget that does not abort had a positive count and block time and yields a target below 2^256 |
| `Difficulty.NextTarget` | consensus/src/processes/difficulty.rs:78-93 | a next target that does not abort comes from at least two blocks and a positive block time and is below 2^256 |
| `Difficulty.GenesisBitsUntilWindowFull` | consensus/src/processes/difficulty.rs:73-76 | while the window holds fewer blocks than the adjustment window size, the result is the genesis bits whatever the blocks |
| `Difficulty.ExactlyOneMinimumRemoved` | consensus/src/processes/difficulty.rs:78-84 | exactly one block is left out of the average, and it is a least block by timestamp with ties settled by the sortable block |
| `Difficulty.TargetArithmeticFitsUint320` | consensus/src/processes/difficulty.rs:86-92 | the target sum, the average and the average times the elapsed time all fit 320 bits, as the source comment relies on |
| `Difficulty.Uint320Bounds` | consensus/src/processes/difficulty.rs:86-92 | fewer than 2^64 values below 2^256 sum below 2^320, and their average times a 64-bit number stays below 2^320 |
| `Difficulty.RetargetAtSteadyState` | consensus/src/processes/difficulty.rs:91-93 | at steady state the retarget returns the common target without aborting |
| `Difficulty.TenBlocksOverTenBlockTimes` | consensus/src/processes/difficulty.rs:88-92 | ten blocks of target 900 spanning 10 000 ms at 1000 ms per block retarget to 1000, because only nine blocks are averaged |
| `Difficulty.SteadyStateKeepsTarget` | consensus/src/processes/difficulty.rs:78-93 | when all averaged blocks share a target and the window spans one block time per averaged block, the next target is that target |
| `Difficulty.SameLeastBlock` | consensus/src/processes/difficulty.rs:78-84 | every arrangement of one block collection removes the same block |
| `Difficulty.SameMaxTimestamp` | consensus/src/processes/difficulty.rs:78-81 | the greatest timestamp does not depend on the arrangement of the blocks |
| `Difficulty.NextTargetCongruence` | consensus/src/processes/difficulty.rs:88-92 | the next target depends only on the averaged sum, the count and the extreme timestamps |
| `Difficulty.SameAveragedSum` | consensus/src/processes/difficulty.rs:83-90 | two arrangements of one block collection average the same target sum |
| `Difficulty.DifficultyBitsOrderInvariant` | consensus/src/processes/difficulty.rs:70-94 | the next target and the returned bits depend on the window only through its multiset of blocks |
| `Difficulty.PositionMinMax` | consensus/src/processes/difficulty.rs:78 | the single-pass loop finds the first least and the last greatest block |
| `Difficulty.TargetSum` | consensus/src/processes/difficulty.rs:89-90 | the accumulating loop computes the target sum |
| `Difficulty.NextTargetOfPositions` | consensus/src/processes/difficulty.rs:80-92 | the next target can be computed from any arrangement of the averaged blocks |
| `Difficulty.SplitWindow` | consensus/src/processes/difficulty.rs:78-84 | it reads the extreme timestamps and, by `swap_remove`, leaves exactly the averaged blocks |
| `Difficulty.ComputeNextTarget` | consensus/src/processes/difficulty.rs:78-93 | the imperative computation equals the next-target specification, aborts included |
| `Difficulty.CalculateDifficultyBits` | consensus/src/processes/difficulty.rs:70-94 | `calculate_difficulty_bits` returns the genesis bits for a short window, and otherwise the compact bits of the next target |
| `Difficulty.SeqMin` | consensus/src/processes/difficulty.rs:109 | `minmax` yields an element no larger than any other |
| `Difficulty.SeqMax` | consensus/src/processes/difficulty.rs:118-119 | `minmax` yields an element no smaller than any other |
| `Difficulty.EstimateNetworkHashesPerSecond` | consensus/src/processes/difficulty.rs:96-122 | it returns `UnderMinWindowSizeAllowed` exactly for windows under 1000 blocks, and `EmptyTimestampRange` exactly for full windows of one timestamp; otherwise the estimate is the blue-work spread divided by the whole seconds between the extreme timestamps, kept to its low 64 bits, and 0 under a second |
| `Difficulty.SpreadPerSecond` | consensus/src/processes/difficulty.rs:108-121 | from the extreme timestamps and blue works: an error exactly for equal timestamps, 0 for a span under a second, and otherwise the work spread per whole second modulo 2^64 |
| `Difficulty.TimestampSpread` | consensus/src/processes/difficulty.rs:109-116 | a window has one timestamp exactly when its least and greatest timestamps agree, and spans a second exactly when they are at least 1000 ms apart |
| `Difficulty.SameExtremes` | consensus/src/processes/difficulty.rs:109-119 | two sequences with the same elements have the same `minmax` |
| `Difficulty.RearrangedValues` | consensus/src/processes/difficulty.rs:108-119 | rearranging the window keeps it in the header store and keeps every timestamp and blue work among the rearranged blocks' values |
| `Difficulty.HashrateOrderInvariant` | consensus/src/processes/difficulty.rs:96-122 | the hashrate estimate depends on the window only through its multiset of blocks |
| `Difficulty.HashesPerSecond` | consensus/src/processes/difficulty.rs:121 | equal extreme blue works give zero hashes per second |
| `Difficulty.HashrateZeroUnderASecond` | consensus/src/processes/difficulty.rs:113-116 | a full window of distinct timestamps spanning under a second estimates 0 |
| `Difficulty.HashrateZeroWithoutWork` | consensus/src/processes/difficulty.rs:118-121 | a full window whose blocks share one blue work estimates 0 |
| `Difficulty.WorkIdentity` | consensus/src/processes/difficulty.rs:127-133 | the identity the source comment relies on: (M - d) / d + 1 == M / d for 0 < d <= M |
| `Difficulty.CalcWork` | consensus/src/processes/difficulty.rs:125-135 | `calc_work` is 2^256 / (target + 1); it aborts exactly when target + 1 reaches 2^256 or the work reaches 2^192 |
| `Difficulty.CalcWorkAntitone` | consensus/src/processes/difficulty.rs:125-135 | an easier target never needs more work |
| `Difficulty.CalcWorkExtremes` | consensus/src/processes/difficulty.rs:125-135 | the target 2^255 - 1 needs work 2, and the target 0 aborts |
| `Traversal.BackwardChain` | consensus/src/processes/traversal_manager.rs:46 | the backward chain iterator starts at the block, ends at genesis and never rises in blue score |
| `Traversal.ChainSteps` | consensus/src/processes/traversal_manager.rs:46 | each step of the backward chain goes to the selected parent |
| `Traversal.ChainSuffix` | consensus/src/processes/traversal_manager.rs:46-55 | the chain below any of its blocks is that block's own chain |
| `Traversal.ChainPositionUnique` | consensus/src/processes/traversal_manager.rs:46 | a block occurs at most once on a chain |
| `Traversal.ChainOfAncestor` | consensus/src/processes/traversal_manager.rs:47 | the chain of a chain ancestor is a suffix of the descendant's chain |
| `Traversal.FirstCommonIndex` | consensus/src/processes/traversal_manager.rs:46-53 | the first block of the chain that is a chain ancestor of `to`, with none before it |
| `Traversal.Reverse` | consensus/src/processes/traversal_manager.rs:56 | reversal maps position i to position len - 1 - i |
| `Traversal.ReverseReverse` | consensus/src/processes/traversal_manager.rs:56 | reversing twice is the identity |
| `Traversal.CommonChainAncestor` | consensus/src/processes/traversal_manager.rs:45-53 | the common ancestor is a chain ancestor of both `from` and `to` |
| `Traversal.ChainPathOf` | consensus/src/processes/traversal_manager.rs:43-58 | `removed` is the chain of `from` down to the common ancestor, exclusive, none of it a chain ancestor of `to`; `added` reversed is the chain of `to` down to it; the ancestor is in neither list |
| `Traversal.ChainPathToItself` | consensus/src/processes/traversal_manager.rs:43-58 | the path from a block to itself is empty |
| `Traversal.AboveCommonAncestorNotOnFromChain` | consensus/src/processes/traversal_manager.rs:55 | no block of `to`'s chain above the common ancestor is on `from`'s chain |
| `Traversal.AddedAreNewChainBlocks` | consensus/src/processes/traversal_manager.rs:55-57 | every added block is a chain ancestor of `to` and not of `from` |
| `Traversal.CommonChainAncestorSymmetric` | consensus/src/processes/traversal_manager.rs:43-58 | the common ancestor does not depend on the direction of the path |
| `Traversal.ChainPathSymmetric` | consensus/src/processes/traversal_manager.rs:43-58 | the path back removes what the path forth added and adds what it removed, in reverse order |
| `Traversal.CalculateChainPath` | consensus/src/processes/traversal_manager.rs:43-58 | `calculate_chain_path` returns the specified chain path |
| `Traversal.RemovedChainBlocks` | consensus/src/processes/traversal_manager.rs:44-53 | the first loop collects the removed blocks and stops at the common ancestor |
| `Traversal.BackwardChainIterator` | consensus/src/processes/traversal_manager.rs:55 | the bounded backward iterator yields the chain of `high` down to `low`, exclusive |
| `Traversal.ReverseInPlace` | consensus/src/processes/traversal_manager.rs:56 | the in-place pairwise swap reverses the sequence |
| `Traversal.ParentsCoveredStep` | consensus/src/processes/traversal_manager.rs:88-94 | processing a block keeps the parents of every processed block outside the past visited or queued |
| `Traversal.EmittedStep` | consensus/src/processes/traversal_manager.rs:88-90 | a newly visited block is appended to the output exactly when it is in the anticone, and the output keeps no duplicates |
| `Traversal.WalkSkip` | consensus/src/processes/traversal_manager.rs:70-77 | skipping a visited block, or an ancestor of `block`, preserves the walk invariant without counting it |
| `Traversal.WalkVisit` | consensus/src/processes/traversal_manager.rs:79-94 | processing a new block outside the past counts it, queues its parents and emits it when it is not a descendant |
| `Traversal.PendingReached` | consensus/src/processes/traversal_manager.rs:70-77 | a queued block that is a tip or a parent of a reached block, and not in the past of `block`, is reached |
| `Traversal.WalkPathVisited` | consensus/src/processes/traversal_manager.rs:70-94 | once the queue is empty, every block of a path from a tip outside the past of `block` has been visited |
| `Traversal.WalkCounts` | consensus/src/processes/traversal_manager.rs:79-94 | counting a newly visited block outside the past keeps the count equal to the number of counted blocks, all of them reached, and keeps every queued block pending |
| `Traversal.WalkExceeds` | consensus/src/processes/traversal_manager.rs:79-86 | a block about to be counted makes at least count + 1 reached blocks |
| `Traversal.NothingReachedIffTipsInPast` | consensus/src/processes/traversal_manager.rs:70-81 | no block is reached exactly when every tip is in the past of `block` |
| `Traversal.WalkFinished` | consensus/src/processes/traversal_manager.rs:95-97 | when the queue is empty the output is duplicate-free and holds exactly the reached blocks that are in the anticone, the count equals the number of reached blocks, and the output respects the budget |
| `Traversal.WalkStep` | consensus/src/processes/traversal_manager.rs:70-94 | one round preserves the walk invariant and makes progress, or reports a count one above the budget that the reached blocks attain |
| `Traversal.Anticone` | consensus/src/processes/traversal_manager.rs:60-98 | on success the output has no duplicates and holds exactly the reached blocks that are neither ancestors nor descendants of `block`, within the budget; it fails exactly when a budget is given and more blocks than it are reached, reporting count = max + 1; with a budget of 0 it succeeds, with an empty output, exactly when every tip is an ancestor |
| `Traversal.TipInPastNeedsNoRelations` | consensus/src/processes/traversal_manager.rs:71-77 | a tip in the past of `block` is skipped before its parents are read, so a store without relations allows the walk from it, and nothing is reached |
| `Traversal.AnticoneThroughDescendant` | consensus/src/processes/traversal_manager.rs:70-94 | the walk passes through a descendant of `block` it does not output: from tip 2 above block 1 it reaches 3 through 2 |
| `Traversal.WfAdmitsClimb` | consensus/src/processes/traversal_manager.rs:100-119 | in a store whose chains all end at genesis the climb can start from any known block |
| `Traversal.ClimbChain` | consensus/src/processes/traversal_manager.rs:107-116 | the climb from a block follows selected parents to genesis or `ORIGIN`, never rising in blue score |
| `Traversal.ClimbSteps` | consensus/src/processes/traversal_manager.rs:107-116 | the climb continues exactly past blocks other than genesis and `ORIGIN`, each time to the selected parent |
| `Traversal.ClimbSuffix` | consensus/src/processes/traversal_manager.rs:107-116 | the climb from a block of a climb is the rest of that climb |
| `Traversal.ClimbReadsOnlyItsChain` | consensus/src/processes/traversal_manager.rs:101-116 | a store with another block whose selected parent is unknown still allows the climb from `high` |
| `Traversal.ClimbEndingAtOrigin` | consensus/src/processes/traversal_manager.rs:100-119 | a store where `high`'s selected parent is `ORIGIN` allows the climb but has no chain to genesis, and at a score `high` meets, `high` is returned without reaching `ORIGIN` |
| `Traversal.ScoresDecrease` | consensus/src/processes/traversal_manager.rs:107-116 | blue scores strictly decrease down a selected chain |
| `Traversal.BelowStop` | consensus/src/processes/traversal_manager.rs:107-116 | past the block where the climb stops, every chain block is below the score |
| `Traversal.StopIsUniqueLowest` | consensus/src/processes/traversal_manager.rs:100-119 | the block where the climb stops is the only lowest chain block at or above the score |
| `Traversal.OriginBeforeStop` | consensus/src/processes/traversal_manager.rs:107-108 | the climb meets `ORIGIN` exactly when it lies on the chain down to the stop |
| `Traversal.LowestChainBlockAboveOrEqualToBlueScore` | consensus/src/processes/traversal_manager.rs:100-119 | when the selected chain of `high` is known down to genesis or `ORIGIN`, it aborts exactly when `high` is below the score or the climb meets `ORIGIN`; otherwise the result is at or above the score and is genesis or has a selected parent below it, and it is the only such chain block; `high` at exactly the score is returned itself |
| `Traversal.BoundedSizeBlockHeap.constructor` | consensus/src/processes/traversal_manager.rs:128-130 | a new heap is empty with the given bound |
| `Traversal.BoundedSizeBlockHeap.FromBinaryHeap` | consensus/src/processes/traversal_manager.rs:132-134 | the heap holds the given contents and bound |
| `Traversal.BoundedSizeBlockHeap.ReachedSizeBound` | consensus/src/processes/traversal_manager.rs:136-138 | the bound is reached when the length equals it exactly |
| `Traversal.BoundedSizeBlockHeap.Peek` | consensus/src/processes/traversal_manager.rs:143 | `peek` is empty only for an empty heap, and otherwise gives a least block |
| `Traversal.BoundedSizeBlockHeap.TryPush` | consensus/src/processes/traversal_manager.rs:140-152 | it refuses, leaving the heap unchanged, exactly when the heap is full and the candidate is below its least block; below the bound it adds the candidate; when full it replaces the least block by the candidate, so every block kept is at least the evicted one; a bound of at least 1 that held keeps holding |
| `Standardness.IsTransactionOutputDust` | mining/src/mempool/check_transaction_standard.rs:120-165 | scripts under 33 bytes are dust; otherwise dust exactly when value * 1000 < 3 * (size + 148) * relay fee, with no overflow on 64-bit inputs |
| `Standardness.DustMonotoneInValue` | mining/src/mempool/check_transaction_standard.rs:163-164 | raising the value never makes a non-dust output dust |
| `Standardness.DustMonotoneInFee` | mining/src/mempool/check_transaction_standard.rs:163-164 | raising the relay fee never makes dust acceptable |
| `Standardness.NoDustWithoutRelayFee` | mining/src/mempool/check_transaction_standard.rs:163-164 | with a zero relay fee only scripts under 33 bytes are dust |
| `Standardness.DustTestVectors` | mining/src/mempool/check_transaction_standard.rs:343-424 | the dust test table: 605 dust and 606 not at fee 1000, `MAX_SOMPI` and `u64::MAX` not dust, zero value dust exactly at a positive fee, a one-byte script always dust |
| `Standardness.MinimumRelayFee` | mining/src/mempool/check_transaction_standard.rs:217-233 | the minimum fee is at most `MAX_SOMPI`, positive for a positive relay fee, the mass-proportional fee rounded down when that is at least one sompi, and the relay fee itself below that; it aborts exactly when the product overflows |
| `Standardness.MinimumRequiredTransactionRelayFee` | mining/src/mempool/check_transaction_standard.rs:217-233 | the method with its mutable local computes the specified minimum fee |
| `Standardness.MinimumFeeTestTable` | mining/src/mempool/check_transaction_standard.rs:291-340 | the eight rows of the minimum fee test table |
| `Standardness.MinimumRelayFeeMonotone` | mining/src/mempool/check_transaction_standard.rs:222 | once the proportional fee is at least one sompi, a heavier transaction never needs a smaller fee |
| `Standardness.MinimumRelayFeeFloorIsNotMonotone` | mining/src/mempool/check_transaction_standard.rs:222-226 | below one sompi the relay fee itself is charged, so 100 grams can cost more than 300 |
| `Standardness.FirstOversizedInput` | mining/src/mempool/check_transaction_standard.rs:72-87 | the lowest position of an input with a signature script over 1650 bytes, or none exactly when all are within |
| `Standardness.FirstNonStandardOutput` | mining/src/mempool/check_transaction_standard.rs:90-106 | the lowest position of a non-standard output, or none exactly when all are standard |
| `Standardness.OutputError` | mining/src/mempool/check_transaction_standard.rs:90-106 | a script version too high is reported before a script under 34 bytes, which is reported before dust |
| `Standardness.StandardInIsolation` | mining/src/mempool/check_transaction_standard.rs:41-109 | the verdict is `Ok` exactly when the version is in range, the mass is known and at most 100 000, every input script is within 1650 bytes and every output is standard; it aborts exactly on a missing mass once the version passed |
| `Standardness.OutputRejectionIsFirstFailure` | mining/src/mempool/check_transaction_standard.rs:90-106 | a rejected output is the first non-standard one, all inputs passed, and the rule named is the first it breaks |
| `Standardness.InputRejectionIsFirstFailure` | mining/src/mempool/check_transaction_standard.rs:72-87 | a rejected input is the first oversized one, with its real size |
| `Standardness.VersionCheckedFirst` | mining/src/mempool/check_transaction_standard.rs:49-58 | a version out of range is reported whatever else is wrong |
| `Standardness.IsolationTestScenarios` | mining/src/mempool/check_transaction_standard.rs:427-620 | the isolation test scenarios, each with the error the first failing rule reports |
| `Standardness.CheckTransactionStandardInIsolation` | mining/src/mempool/check_transaction_standard.rs:41-109 | the two early-return loops compute the specified verdict |
| `Standardness.FeeVerdict` | mining/src/mempool/check_transaction_standard.rs:206-209 | the fee check aborts exactly on a missing mass or fee or a fee overflow, and otherwise rejects, with `RejectInsufficientFee`, exactly when the fee is below the minimum |
| `Standardness.StubbedInContextIsFeeCheck` | mining/src/mempool/check_transaction_standard.rs:177-212 | with the stubbed script engine, a transaction with inputs is decided by the fee check alone |
| `Standardness.NoInputsInContext` | mining/src/mempool/check_transaction_standard.rs:174-213 | a transaction without inputs always passes the context check |
| `Standardness.CheckTransactionStandardInContext` | mining/src/mempool/check_transaction_standard.rs:174-213 | the loop over inputs computes the specified verdict: the script class, then the signature operation count, then the fee, at the first failing input |
| `Params.Uint256Value` | consensus/core/src/config/params.rs:138 | four little-endian 64-bit limbs denote a number below 2^256 |
| `Params.DifficultyMaxValue` | consensus/core/src/config/params.rs:134-138 | `DIFFICULTY_MAX` is 2^255 - 1 |
| `Params.MaxDifficultyWork` | consensus/core/src/config/params.rs:134-138 | the easiest target, `DIFFICULTY_MAX`, needs work 2 |
| `Params.PastMedianTimeWindowSize` | consensus/core/src/config/params.rs:69-71 | the window is odd, with tolerance - 1 blocks on either side of its median; it aborts exactly on a zero or too large tolerance |
| `Params.PastMedianTimeSampleWindowSize` | consensus/core/src/config/params.rs:76-81 | the sampled window is odd, with the tolerance in samples rounded to the nearest sample; it aborts exactly on a zero rate, an overflow or a tolerance that rounds to no sample |
| `Params.ExpectedDaaWindowDurationInMilliseconds` | consensus/core/src/config/params.rs:83-85 | the window spans window size - 1 sampling intervals; it aborts exactly on an empty window or an overflow |
| `Params.AnticoneFinalizationDepth` | consensus/core/src/config/params.rs:90-92 | the depth is finality + merge + 4 * mergeset limit * k + 2 * k + 2; it aborts exactly when that or 4 * mergeset limit leaves 64 bits |
| `Params.IsNearlySynced` | consensus/core/src/config/params.rs:95-100 | nearly synced exactly when the sink is less than one DAA window duration old; it aborts exactly when the duration or the deadline overflows |
| `Params.NotSyncedStaysNotSynced` | consensus/core/src/config/params.rs:95-100 | a node that is not nearly synced stays so as time passes with the same sink |
| `Params.FutureSinkIsNearlySynced` | consensus/core/src/config/params.rs:95-100 | a sink no older than the clock is nearly synced when the window has a positive duration |
| `Params.MainnetDerivedValues` | consensus/core/src/config/params.rs:146-216 | mainnet gives 263, 119, 79 200 000 ms, 102 998 and the easiest target 2^255 - 1 |
| `Subscription.CommandToI32` | notify/src/subscription/mod.rs:34-38 | `Start` encodes to 0 and `Stop` to 1 |
| `Subscription.CommandFromI32` | notify/src/subscription/mod.rs:40-49 | decoding gives `Stop` exactly for 1, and `Start` for every other value |
| `Subscription.CommandRoundTrip` | notify/src/subscription/mod.rs:34-49 | decoding an encoded command gives it back |
| `Subscription.I32RoundTrip` | notify/src/subscription/mod.rs:40-49 | re-encoding a decoded value gives it back exactly for 0 and 1; other values come back as 0 |
| `Subscription.CommandLabel` | notify/src/subscription/mod.rs:24-32 | every command displays as a non-empty label |
| `Subscription.CommandLabelInjective` | notify/src/subscription/mod.rs:24-32 | distinct commands display differently |
| `Subscription.Mutation.Active` | notify/src/subscription/mod.rs:85-88 | a mutation is active exactly when its command encodes to 0 |
| `Subscription.InactiveIffStopCode` | notify/src/subscription/mod.rs:85-88 | a mutation is inactive exactly when its command is the one decoded from 1 |
| `Subscription.NewOutcome` | notify/src/subscription/mod.rs:121-123 | a new outcome has no changes |
| `Subscription.WithMutations` | notify/src/subscription/mod.rs:125-127 | an outcome with mutations only has no new state, and has changes exactly when there are mutations |
| `Subscription.WithMutated` | notify/src/subscription/mod.rs:129-131 | an outcome with a new state has a new state and changes |
| `Subscription.HasNewState` | notify/src/subscription/mod.rs:140-143 | an outcome has a new state exactly when it is not the outcome without one and with the same mutations |
| `Subscription.HasChanges` | notify/src/subscription/mod.rs:145-148 | an outcome has changes exactly when it is not the empty outcome |
| `Subscription.AppliedProperties` | notify/src/subscription/mod.rs:133-148 | applying an outcome without changes leaves the target alone; applying twice is applying once; a new state replaces any target |
| `Subscription.ApplyTo` | notify/src/subscription/mod.rs:133-138 | `apply_to` overwrites the target with the new state when there is one, leaves it unchanged otherwise, and returns the outcome itself |

## Left out

- I/O, storage and concurrency. Store reads are maps, reachability queries are a function
  parameter, and `unix_now()` is the parameter `now` of `Params.IsNearlySynced`.
- `transaction.id()` hashing. The identifier is a field of `MutableTransaction`.
- Wide-integer and compact-encoding internals from `kaspa_math`. `CompactCodec` is abstract,
  and the division by `target + 1` in `calc_work` is computed on naturals.
- Floating point: `max_difficulty_f64` and `DIFFICULTY_MAX_AS_F64`.
- Fields of `Params` that no derived quantity reads, and the network tables other than mainnet
  (they agree with mainnet on every modelled field).
- `network_name`, `prefix`, `default_p2p_port`, `default_rpc_port` and `From<NetworkType>`.
  These delegate to `NetworkType`, which is not part of this model.
- `MutateSingle::mutate`, the `Subscription`/`Compounded`/`Single` traits and
  `UtxosChangedMutationPolicy`. Scopes and subscription objects are type parameters.
- `DifficultyManager::new`, `DagTraversalManager::new` and
  `BinaryHeap::with_capacity`. These are plain construction: the managers are values, and
  `new` of the heap is the class constructor.
- `Difficulty.EstimateNetworkHashesPerSecond`: the `window.is_empty()` branch returning
  `Ok(0)` is not modelled, because windows under 1000 blocks have already returned an error.
- `Difficulty.CalcDaaScoreAndNonDaaMergesetBlocks`: the DAA score is an unbounded number, so
  the `u64` addition is not checked for overflow. It requires the selected parent's DAA
  score to be in the store, which the source `unwrap`s.
- `Difficulty.CalculateDifficultyBits`: it requires every window block to have header data in
  the store, where the source `unwrap`s. With a difficulty adjustment window size of 0 an empty
  window passes the length check and `position_minmax(..).unwrap()` aborts; that abort is
  modelled, as `Panic` from `NextTarget` and `ComputeNextTarget` for a window without blocks.
- `Traversal.Anticone`: it requires the relations store to hold the parents of every reached
  block (`RelationsCover`), where the source `unwrap`s `get_parents`. Tips and parents in the
  past of `block` need no entry. With a budget the walk may stop before it expands every
  reached block, and the model still asks for the parents of those it never expands. The
  tips iterator is a sequence.
- `Traversal.LowestChainBlockAboveOrEqualToBlueScore`: it requires `high` and its selected
  chain down to genesis or `ORIGIN` in the GHOSTDAG store, with strictly falling blue scores
  (`ClimbsFrom`); no other block is constrained. The source `unwrap`s the entries down to the
  selected parent of the block where it stops. The model also asks for the entries below that
  block, and the falling scores stand for the GHOSTDAG property that makes the loop end.
- `Traversal.CalculateChainPath`: an exhausted backward chain iterator cannot be reached,
  because under `Wf` genesis is a chain ancestor of every known block, so that branch is not
  modelled.
- `Traversal.BoundedSizeBlockHeap.TryPush`: the heap's internal layout is represented only
  by the multiset of its blocks. `reached_size_bound` tests the length for
  equality, so a heap with bound 0, or one built by `from_binary_heap` with more blocks than
  its bound, is never full and grows by one block on every push without limit. The model
  does the same, and the bound is preserved only when it is at least 1 and held before.
- `Standardness.CheckTransactionStandardInContext`: the script engine's class and signature
  operation count for each input are parameters. `StubScriptClass` and `StubSigOps` give the
  source's stub values: pay-to-script-hash, one operation. With the stub, the
  `NonStandard` and too-many-operations branches of the source cannot be reached; they are
  modelled for general parameters.
- `Standardness.CheckTransactionStandardInIsolation`: the output script class is the source's
  stand-in, a script length test (under 34 bytes is non-standard), and not a call into the
  script engine.
