# Deterministic delivery: a Dafny model

The loader promises that the same samples are delivered exactly once and in the same order, whatever the
workers, the topology, the interleaving or the point of resumption. This project models the parts that carry
that promise and proves it of them.

- **Permutations and placement** (`Words`, `Philox`, `Streams`, `CycleWalk`, `Feistel`, `FisherYates`,
  `Positions`, `Placement`, `PlacementEngine`, `WorldPlacement`). The cipher, the walk and the shuffle are
  specified on unbounded integers and proved bijective; the engine's loops on 32- and 64-bit words are proved
  equal to them. Bitwise operators are defined bit by bit.
- **The frontier schedule** (`Schedule`, `RoundRobin`, `Requests`, `StaticSchedule`): a state machine with its
  whole-run guarantees and the object whose methods are proved to take its steps.
- **Worker lanes** (`Lanes`, `LaneSystem`, `LaneLedger`, `LaneOrder`, `LaneProgress`, `LaneInOrder`,
  `LaneAnyOrder`, `LaneRuns`, `LanePool`, `LaneCapture`, `LaneRuntime`, `CompatState`, `CheckpointForm`,
  `LaneResume`, `ResumeRefusals`, `SamplerResume`, `MultiIterator`, `MultiMap`). The owner and its lanes are one
  state machine whose moves are taken in any order; the pool, the owner, the iterator and the loader are objects
  proved to take those moves. Fetching is an arbitrary deterministic function of a unit and a lane state.
- **The completion port** (`CompletionPort`, `CompletionPump`, `CompletionWork`): any number of threads and the
  kernel, step by step.
- **Collation** (`Collate`, `CollateEngine`), the **latency histogram** (`Histogram`) and the **collection
  loop** of the training comparison with its validator (`Training`).

`dafny verify dfyconfig.toml` checks everything.

Where the code falls short of what one would expect of it, the model keeps the code and states the exact
condition. The shared tail covers the dataset if and only if a 64-bit product does not wrap. Two epochs share a
key if and only if they agree modulo 2^32. A capture resumes to exactly the undelivered values, whatever the
dataset and the states its lanes began from, if and only if the sampler was exhausted or a unit for each lane
was admitted and undelivered. That holds of every capture after a delivery, and a first iterator over a new pool
resumes exactly from any capture; it fails for a resumed iterator captured before its first delivery, because
the prefetch argument is overwritten (`python/hyperloader/compat/lane_runtime.py:39`). The lanes of persistent
workers are left for the next epoch as they would have been if and only if a unit for each lane was admitted and
undelivered: a lane without one starts from its seed (`python/hyperloader/compat/lane_runtime.py:107-121`).
Samplers that may draw from the generator while they run are all resumed exactly after a delivery if and only if
there is one lane or one prefetch factor reaches the last unit, since they are rebuilt by fewer pulls than the
capture had made. A checkpoint captured with no iterator under way and no checkpoint pending is blank
(`python/hyperloader/compat/multi.py:104-117`) and resumes to a fresh iteration; between two epochs of
persistent workers the next epoch keeps the base seed and the lanes and draws no base seed, so resuming can
change the sample order. Collation's fallback to a plain container is not reached for mutable containers, whose
errors leave `engine/src/collate/container.rs:42-46` and `:82-88` at once; Torch's own collation catches them.

## Model

| member | source | states |
|---|---|---|
| `Feistel.CipherBijective` | engine/src/rng/permutation.rs:25-47 | for every round function, width and key the eight unbalanced rounds map [0, 2^bits) one to one onto itself, with an explicit inverse |
| `Feistel.FeistelBijective` | engine/src/rng/permutation.rs:50-63 | the cycle-walked permutation is a bijection of [0, domain) for every round function and every domain |
| `Feistel.FeistelWalkTerminates` | engine/src/rng/permutation.rs:57-62 | the loop without a visible measure returns after at most 2^bits - domain + 1 cipher calls, by the orbit of the start position |
| `CycleWalk.WalkBound` | engine/src/rng/permutation.rs:57-62 | a walk that has not come back has visited distinct values outside the domain, so there are no more calls than such values plus one |
| `CycleWalk.WalkInvertible` | engine/src/rng/permutation.rs:57-62 | walking back with the inverse from where a walk ends gives its start |
| `Feistel.EngineRound` | engine/src/rng/permutation.rs:33-44 | one round on 32-bit words with wrapping addition and masks is one round of the reference on unbounded integers |
| `Feistel.EngineRounds` | engine/src/rng/permutation.rs:25-45 | the word loop with swapping widths computes the reference rounds |
| `Feistel.EightRounds` | engine/src/rng/permutation.rs:25-47 | the reference is eight rounds and no more, numbered 0 to 7, the upper and wider half first, each adding its word to the half before the last; the last two halves joined |
| `Feistel.NoOtherRound` | engine/src/rng/permutation.rs:33-45 | round functions that agree on rounds 0 to 7 give the same cipher |
| `Feistel.EveryRoundActs` | engine/src/rng/permutation.rs:33-45 | each of the rounds 0 to 7 changes the result of some cipher on two bits or more |
| `Feistel.RoundWord` | engine/src/rng/permutation.rs:34-35 | a round's word is the first of the block that ten Philox rounds make of the half, the round number, 3 and 0 |
| `Feistel.FeistelCipher` | engine/src/rng/permutation.rs:25-47 | shifts, masks and the final or compute exactly the reference cipher |
| `Feistel.WalkIntoDomain` | engine/src/rng/permutation.rs:56-62 | the in-domain value the reference walk ends at, with a proved decreasing measure |
| `Feistel.FeistelPermute` | engine/src/rng/permutation.rs:50-63 | declines exactly domains below 131072 and positions outside; otherwise equals the reference permutation |
| `FisherYates.ChoicesToPermutations` | engine/src/rng/permutation.rs:74-91 | distinct selection sequences give distinct permutations of [0, n): the selections can be recovered |
| `FisherYates.PermutationsToChoices` | engine/src/rng/permutation.rs:74-91 | every permutation comes from a selection sequence |
| `FisherYates.AcceptedResiduesUniform` | engine/src/rng/permutation.rs:78-88 | among accepted 32-bit words every residue below `upper` has exactly limit / upper preimages |
| `FisherYates.DrawIsFirstAccepted` | engine/src/rng/permutation.rs:80-88 | a selection is the residue of the first accepted word; it fails only when the ordinal overflows first |
| `FisherYates.MaterializeShuffles` | oracles/contract-vectors/reference.py:127-146 | drawing while shuffling is shuffling by the drawn selections |
| `FisherYates.MaterializedIsPermutation` | engine/src/rng/permutation.rs:65-93 | whatever the word stream, a materialized result is a permutation |
| `FisherYates.ChosenGoesLast` | engine/src/rng/permutation.rs:78-91 | the chosen element ends last and the last takes its place among the others, which the other selections shuffle |
| `FisherYates.WordsInOrder` | engine/src/rng/permutation.rs:74-93 | the words are read one by one, none twice and none left out: the longest prefix first, each selection where the one before stopped, up to the count of draws returned |
| `FisherYates.WordOf` | engine/src/rng/permutation.rs:81 | a word is the first of the block that ten Philox rounds make of the ordinal, 8, 3 and 0 |
| `FisherYates.DrawSelected` | engine/src/rng/permutation.rs:78-88 | the rejection loop draws what the specification draws, or panics on ordinal overflow with it |
| `FisherYates.ShuffleInPlace` | engine/src/rng/permutation.rs:73-92 | the in-place swaps leave the specified permutation in the array and count the draws |
| `FisherYates.MaterializedPermutationWithDraws` | engine/src/rng/permutation.rs:65-93 | declines exactly large domains, panics only when the draw ordinal overflows, else returns the specified permutation and draw count |
| `Placement.PermutationIndex` | engine/src/rng/permutation.rs:102-112 | out of range exactly when position >= domain; else the index of the regime the domain selects |
| `Placement.EpochBijective` | engine/src/rng/permutation.rs:102-112 | in both regimes positions and dataset indices correspond one to one |
| `Philox.Philox4x32_10` | engine/src/rng/philox.rs:14-32 | the loop computes ten rounds with the key bumped between them and not after the last |
| `Philox.RoundProducts` | engine/src/rng/philox.rs:18-26 | one round solved for its input: the products with 0xD2511F53 and 0xCD9E8D57 as the low word it outputs and the high word left once key and counter are taken out of another |
| `Philox.TenRounds` | engine/src/rng/philox.rs:14-32 | ten rounds, round i under the key advanced by i times 0x9E3779B9 and 0xBB67AE85 |
| `Philox.RoundsInvertible` | engine/src/rng/philox.rs:16-30 | any number of rounds can be undone, using the inverse of each odd multiplier |
| `Philox.RoundsOnto` | engine/src/rng/philox.rs:16-30 | every block is reached: the rounds are onto |
| `Philox.PhiloxInjective` | engine/src/rng/philox.rs:14-32 | under one key two counters with the same block are the same counter |
| `Streams.SplitMixInvertible` | engine/src/rng/streams.rs:21-28 | splitmix64 is a bijection of 64-bit words with an explicit inverse |
| `Streams.SplitMixStages` | engine/src/rng/streams.rs:21-28 | the finalizer is the three shifts by 30, 27 and 31 and the two multiplications |
| `Streams.EpochKeyIs` | engine/src/rng/streams.rs:31-34 | an epoch key with the finalized seed taken out is the finalized word of the epoch's low half over the tag 0x9E37 |
| `Streams.KeySeparatesSeeds` | engine/src/rng/streams.rs:31-34 | within an epoch two root seeds share a key only if equal |
| `Streams.KeySeparatesEpochs` | engine/src/rng/streams.rs:31-34 | under a root seed two epochs share a key if and only if they agree modulo 2^32: the shift drops the upper half |
| `Streams.PermutationKeySeparates` | engine/src/rng/permutation.rs:20-23 | permutation keys coincide exactly when epoch keys do |
| `Streams.PermutationKeyIs` | engine/src/rng/permutation.rs:20-23 | undoing the finalizer on the two halves of the permutation key gives the epoch key tagged with five |
| `Streams.BlocksSeparate` | engine/src/rng/streams.rs:49-54 | under one key blocks coincide only for the same coordinate, draw index and stream |
| `Streams.SampleBlocksSeparate` | engine/src/rng/streams.rs:37-46 | within one epoch two draws read the same block only if they are the same draw |
| `Streams.SampleBlockRead` | engine/src/rng/streams.rs:37-54 | undoing ten rounds on a sample's block under the halves of the epoch key reads back the coordinate, the draw index and the stream |
| `Placement.PositionCoverage` | engine/src/rng/placement.rs:111-140 | over all ranks every delivered position occurs exactly once and no other does |
| `Placement.IndexCoverage` | engine/src/rng/placement.rs:98-140 | exact count delivers each dataset index once; drop-last those of the full batches once; padding each index the floor or ceiling of delivered / length times |
| `Placement.RankCounts` | engine/src/rng/placement.rs:129-139 | padded and dropped tails give equal rank counts; shared tails differ by at most one |
| `Placement.StepContiguous` | engine/src/rng/placement.rs:113-128 | global batch k over the ranks is the contiguous block [kG, (k+1)G) |
| `Placement.ElasticInvariance` | engine/src/rng/placement.rs:59-64 | an accepted new world size keeps every full or padded global batch, position by position |
| `Placement.ElasticIff` | engine/src/rng/placement.rs:59-64 | a world size is accepted with a batch size exactly when it is positive and their product is the global batch |
| `Placement.DeliveredIs` | engine/src/rng/placement.rs:48-56 | what the world delivers: the dataset when the tail is shared, the greatest multiple of the global batch not above it when dropped, the least not below it when padded |
| `PlacementEngine.SharedTailCoverage` | engine/src/rng/placement.rs:129-139 | with the wrapping 64-bit product the shared tail covers the dataset once if and only if world size times tail size fits 64 bits |
| `PlacementEngine.WrappingTopology` | engine/src/rng/placement.rs:131-132 | a concrete request where the product wraps and samples are lost |
| `PlacementEngine.EnginePaddedLen` | engine/src/rng/placement.rs:48-56 | rounds up to whole global batches, an error exactly when that leaves 64 bits |
| `PlacementEngine.PlaceBatches` | engine/src/rng/placement.rs:111-128 | the loop over global batches pushes the rank's slices in order and its additions never leave 64 bits |
| `PlacementEngine.PlaceTail` | engine/src/rng/placement.rs:129-139 | pushes the rank's share of the tail as the wrapping arithmetic cuts it |
| `PlacementEngine.RankPlacements` | engine/src/rng/placement.rs:67-141 | every error in order, then regular batches and tail mapped through the epoch permutation |
| `PlacementEngine.WhyRefused` | engine/src/rng/placement.rs:68-97 | which requests are refused and for what, in order; coordinates overflow exactly when the global batch does or when a padded tail finds no multiple of it within 64 bits |
| `PlacementEngine.TailOwner` | engine/src/rng/placement.rs:129-139 | tail position i goes to exactly the rank whose wrapped products enclose (i + 1) times the world size |
| `WorldPlacement.WorldCoverage` | engine/src/rng/placement.rs:67-141 | the samples returned over all ranks, when no share wraps: every delivered position once, each with the epoch permutation's index, and each dataset index as often as the tail policy says |
| `WorldPlacement.SharedTailDelivers` | engine/src/rng/placement.rs:129-139 | with a shared tail the returned samples hold each dataset index exactly once if and only if no share wraps |
| `Schedule.ExactlyOnce` | engine/src/sched/static_frontier.rs:85-160 | after any requests, on any resumed schedule, exactly the positions below the base and the deliveries beyond it are committed, each once; a complete run covers [start, end) once |
| `Schedule.StepKeeps` | engine/src/sched/static_frontier.rs:93-215 | every request keeps the frontier shape and the commit ledger |
| `Schedule.DispatchOnce` | engine/src/sched/static_frontier.rs:93-121 | no position is dispatched while active or after it committed |
| `Schedule.OccupiedWithinDepth` | engine/src/sched/static_frontier.rs:186-203 | active positions never exceed the depth |
| `Schedule.StrictOrder` | engine/src/sched/static_frontier.rs:141-160 | under strict commit the sequence is start, start + 1, ... whatever the dispatch choice, completion order, depth, width and resumes |
| `Schedule.CommitsInOrder` | engine/src/sched/static_frontier.rs:49-76 | so a new schedule has at every moment committed exactly start, start + 1, ... up to its base, in that order |
| `Schedule.ResumeKeeps` | engine/src/sched/static_frontier.rs:49-76 | rebuilding from the base and the deliveries never fails, continues the same history and holds nothing in flight |
| `Schedule.SeedAllSucceeds` | engine/src/sched/static_frontier.rs:168-178 | seeding the deliveries of a checkpoint in any order succeeds and gives their set |
| `Schedule.NextCanMove` | engine/src/sched/static_frontier.rs:79-160 | in an incomplete schedule the position at the base can be dispatched, completed or committed |
| `Schedule.OwedStep` | engine/src/sched/static_frontier.rs:109-160 | three, two, one, nothing owed per position: each effective step lowers the total by one |
| `Schedule.ThreeStepsEach` | engine/src/sched/static_frontier.rs:109-183 | a run takes at most three effective steps per position and exactly three when it completes |
| `Schedule.OrdinalKept` | engine/src/sched/static_frontier.rs:119 | the dispatch ordinal never overflows 64 bits |
| `RoundRobin.Offered` | engine/src/sched/static_frontier.rs:93-106 | every eligible position is offered the same worker, one in use, and no other position any |
| `RoundRobin.TurnPasses` | engine/src/sched/static_frontier.rs:104-121 | an accepted dispatch went to the worker whose turn it was, and the turn passes to the next one, from the last to the first |
| `RoundRobin.TurnStays` | engine/src/sched/static_frontier.rs:109-203 | refused dispatches, completions, commits and depth changes pass no turn |
| `RoundRobin.BeginsAtZero` | engine/src/sched/static_frontier.rs:49-76 | a new schedule begins at worker 0 |
| `RoundRobin.ResumesAtZero` | engine/src/sched/static_frontier.rs:49-76 | and so does one rebuilt from a checkpoint |
| `RoundRobin.WidthTurn` | engine/src/sched/static_frontier.rs:206-215 | a new width within the ceiling goes on from the dispatch ordinal modulo that width |
| `RoundRobin.Balanced` | engine/src/sched/static_frontier.rs:93-121 | over any run without width changes and resumes any two workers are sent equally many positions, but for one |
| `Requests.Window` | engine/src/sched/static_frontier.rs:85-103 | a position may be dispatched exactly when it is below the end and less than a depth beyond the base, not active and not delivered |
| `Requests.AfterDispatch` | engine/src/sched/static_frontier.rs:109-160 | a dispatched position is not dispatched again, not committed and completed by its own worker only |
| `Requests.AfterCompletion` | engine/src/sched/static_frontier.rs:124-160 | a completed position was dispatched to that worker, is not completed again and commits |
| `Requests.AfterCommit` | engine/src/sched/static_frontier.rs:146-160 | a committed position was ready and is gone: no request takes it again |
| `Requests.DepthChange` | engine/src/sched/static_frontier.rs:191-203 | a depth is taken exactly when positive and no active position is excluded |
| `Requests.NewIs` | engine/src/sched/static_frontier.rs:49-76 | which bounds are refused, in order, and the state of a new schedule |
| `Requests.SeedIs` | engine/src/sched/static_frontier.rs:168-178 | a delivery is restored exactly strictly between base and end and once, and is then not dispatched |
| `StaticSchedule.StaticSchedule.constructor` | engine/src/sched/static_frontier.rs:49-76 | a new schedule is the specified initial state |
| `StaticSchedule.StaticSchedule.DispatchCandidates` | engine/src/sched/static_frontier.rs:85-90 | exactly the eligible positions, ascending |
| `StaticSchedule.StaticSchedule.NextDispatch` | engine/src/sched/static_frontier.rs:79-82 | the least eligible position, or nothing when there is none |
| `StaticSchedule.StaticSchedule.DispatchAt` | engine/src/sched/static_frontier.rs:93-106 | a route exactly for eligible positions, to the worker whose turn it is (`RoundRobin.Offered`) |
| `StaticSchedule.StaticSchedule.MarkDispatched` | engine/src/sched/static_frontier.rs:109-121 | the specified step, errors leaving the state alone |
| `StaticSchedule.StaticSchedule.MarkCompleted` | engine/src/sched/static_frontier.rs:124-138 | the specified step, with its three error cases |
| `StaticSchedule.StaticSchedule.TryCommit` | engine/src/sched/static_frontier.rs:141-143 | commits the base position only when that one is ready |
| `StaticSchedule.StaticSchedule.TryCommitReady` | engine/src/sched/static_frontier.rs:146-160 | commits a ready position and advances the base over deliveries |
| `StaticSchedule.StaticSchedule.SeedDelivered` | engine/src/sched/static_frontier.rs:168-178 | records an earlier delivery or refuses it |
| `StaticSchedule.StaticSchedule.IsComplete` | engine/src/sched/static_frontier.rs:181-183 | true only when every position of the range has committed |
| `StaticSchedule.StaticSchedule.SetDepth` | engine/src/sched/static_frontier.rs:191-203 | changes the depth unless it would exclude an active position |
| `StaticSchedule.StaticSchedule.SetWorkerCount` | engine/src/sched/static_frontier.rs:206-215 | changes the width within the ceiling |
| `StaticSchedule.StaticSchedule.Rebuilt` | engine/src/sched/static_frontier.rs:167-178 | a schedule rebuilt from a checkpoint keeps the whole commit history |
| `LaneSystem.CapacityExceedsPrefetch` | python/hyperloader/compat/lane_pool.py:45-46 | the ring has more slots than the prefetch factor |
| `LaneSystem.CapacityIs` | python/hyperloader/compat/lane_pool.py:45-46 | the ring has the least power of two of slots above one and above the prefetch factor |
| `LaneSystem.AdmitsUpTo` | python/hyperloader/compat/lane_runtime.py:88-93 | units are admitted exactly while fewer than lanes times prefetch are admitted and undelivered |
| `LaneInOrder.InOrderLaneIs` | python/hyperloader/compat/lane_runtime.py:139-143 | round robin from the phase puts unit t on lane t modulo the lanes, before and after a resume |
| `LaneInOrder.StepKeeps` | python/hyperloader/compat/lane_runtime.py:49-105 | every move of every interleaving keeps the owner's and the lanes' invariant |
| `LaneInOrder.EveryRun` | python/hyperloader/compat/lane_runtime.py:49-105 | every run: no unit refused or lost, [next_delivery, next_task) split between ready and pending, every bound kept, and the sampler's units delivered in order, none missing |
| `LaneInOrder.LaneBound` | python/hyperloader/compat/lane_pool.py:126-137 | no lane ever holds more than the prefetch factor, below its ring capacity |
| `LaneInOrder.CanMove` | python/hyperloader/compat/lane_runtime.py:53-86 | until everything is delivered some move is enabled: no deadlock |
| `LaneInOrder.OneMoveNearer` | python/hyperloader/compat/lane_runtime.py:53-86 | every move lowers the work left by exactly one |
| `LaneInOrder.EveryFullRun` | python/hyperloader/compat/lane_runtime.py:53-86 | a run that can go no further delivered the whole stream, in four moves a unit and one to stop, in every interleaving |
| `LaneInOrder.IdleLane` | python/hyperloader/compat/lane_pool.py:173-178 | a drained lane is in the RNG state after exactly its admitted units |
| `LaneInOrder.SnapshotsChain` | python/hyperloader/compat/lane_fetch.py:40-45 | in every run each delivered batch names its lane, unit number modulo the lanes, and that lane's seed, and carries its restore point: the start state before the lane's first fetch, then the very state its previous fetch left, and its value is fetched from it |
| `LaneAnyOrder.SomeLaneHasRoom` | python/hyperloader/compat/lane_runtime.py:144-152 | below the limit some lane holds fewer than its share, by pigeonhole |
| `LaneAnyOrder.WorkerFound` | python/hyperloader/compat/lane_runtime.py:144-152 | the cursor scan never comes back empty for a map dataset |
| `LaneAnyOrder.FirstWithRoom` | python/hyperloader/compat/lane_runtime.py:144-152 | the lanes are asked in turn from the cursor around the ring; the first with fewer than the prefetch factor pending is taken and the cursor stops past it |
| `LaneAnyOrder.FirstLane` | python/hyperloader/compat/lane_runtime.py:144-152 | the first unit of an iteration goes to the lane of its own number |
| `LaneAnyOrder.StepKeeps` | python/hyperloader/compat/lane_runtime.py:63-105 | every move of every completion order keeps the invariant and faults nothing |
| `LaneAnyOrder.EveryRun` | python/hyperloader/compat/lane_runtime.py:63-105 | no unit refused or lost, no foreign completion, every delivered batch a different unit's own |
| `LaneAnyOrder.EveryFullRun` | python/hyperloader/compat/lane_runtime.py:63-86 | a full run delivers every unit exactly once |
| `LanePool.PendingForCounts` | python/hyperloader/compat/lane_pool.py:117-119 | the count used by the scan is the number of pending tasks of the lane |
| `LanePool.CompatLanePool.constructor` | python/hyperloader/compat/lane_pool.py:29-42 | every lane idle in its start state, nothing pending |
| `LanePool.CompatLanePool.CountPending` | python/hyperloader/compat/lane_pool.py:117-119 | incomplete commands of one lane |
| `LanePool.CompatLanePool.TrySubmit` | python/hyperloader/compat/lane_pool.py:126-137 | accepted exactly while the lane's outstanding count is below capacity; else nothing changes |
| `LanePool.CompatLanePool.TryReceive` | python/hyperloader/compat/lane_pool.py:139-153 | the first lane with a completion, its oldest one, an error when the dictionary gives the task elsewhere |
| `LanePool.CompatLanePool.WaitForCompletion` | python/hyperloader/compat/lane_pool.py:155-167 | while some lane has a command, one completes and others may too; otherwise nothing changes |
| `LanePool.CompatLanePool.TakeOrWait` | python/hyperloader/compat/lane_runtime.py:77-86 | what a lane completes is always its own, and either way the run is nearer its end |
| `LanePool.CompatLanePool.Drain` | python/hyperloader/compat/lane_pool.py:173-178 | empties the dictionary and leaves each lane in the state after exactly its admitted units |
| `LaneRuntime.CompatLaneRuntime.constructor` | python/hyperloader/compat/lane_runtime.py:15-44 | skips what was delivered and admits exactly one prefetch factor of units: the argument is overwritten at line 39 |
| `LaneRuntime.CompatLaneRuntime.NextWorker` | python/hyperloader/compat/lane_runtime.py:139-152 | the lane the specification chooses, with the cursor moved past every lane tried |
| `LaneRuntime.CompatLaneRuntime.FillOnce` | python/hyperloader/compat/lane_runtime.py:94-105 | one turn of the fill loop, drawing before any lane has accepted |
| `LaneRuntime.CompatLaneRuntime.Fill` | python/hyperloader/compat/lane_runtime.py:88-105 | admits up to the target or to the end of the sampler |
| `LaneRuntime.CompatLaneRuntime.Next` | python/hyperloader/compat/lane_runtime.py:49-86 | in order the next unit's own batch; nothing only when all is delivered; the lanes are filled to the limit after a delivery |
| `LaneRuntime.CompatLaneRuntime.HandOver` | python/hyperloader/compat/lane_runtime.py:56-70 | takes a ready batch out, counts it and fills up |
| `LaneRuntime.CompatLaneRuntime.SnapshotPoints` | python/hyperloader/compat/lane_runtime.py:123-129 | per lane the first ready batch, which is the one of its first undelivered unit |
| `LaneRuntime.CompatLaneRuntime.CapturePoints` | python/hyperloader/compat/lane_runtime.py:107-121 | for exactly the lanes with an admitted undelivered unit, the batch of the first such unit, in lane order |
| `LaneCapture.ReadyFirst` | python/hyperloader/compat/lane_runtime.py:123-129 | a ready task's lane has its first undelivered task ready too |
| `LaneCapture.AllAnswered` | python/hyperloader/compat/lane_runtime.py:110-120 | when the capture loop ends every lane with an admitted undelivered unit has its point |
| `CompatState.CollectStates` | python/hyperloader/compat/multi_state.py:71-79 | the loop over lane states with its errors in order |
| `CompatState.CollectSeeds` | python/hyperloader/compat/multi_state.py:101-113 | the loop over lane seeds with its errors in order |
| `CompatState.FromDict` | python/hyperloader/compat/multi_state.py:43-98 | the checks in order; what passes is well formed |
| `CompatState.ParsedWellFormed` | python/hyperloader/compat/multi_state.py:43-98 | whatever dictionary is offered, what validation accepts is well formed |
| `CompatState.RoundTrip` | python/hyperloader/compat/multi_state.py:26-98 | a checkpoint comes back from its public form unchanged if and only if it is well formed |
| `CheckpointForm.AcceptedExactly` | python/hyperloader/compat/multi_state.py:43-98 | validation accepts exactly the dictionaries that say a well-formed checkpoint key by key, digest included, and reads the one they say |
| `CheckpointForm.RefusedFor` | python/hyperloader/compat/multi_state.py:43-133 | every other dictionary is refused with the error of the first check that fails |
| `LaneResume.CaptureAccepted` | python/hyperloader/compat/multi_iterator.py:69-93 | every captured checkpoint passes validation unchanged |
| `LaneResume.ResumeAccepted` | python/hyperloader/compat/multi_map.py:57-91 | the loader accepts its captures: base seed reproduces, lane seeds agree, and each lane starts before its first undelivered unit |
| `ResumeRefusals.Refusals` | python/hyperloader/compat/multi_map.py:62-91 | a validated checkpoint is refused exactly for another number of lanes, a contract path whose value differs, a base seed that does not reproduce or a lane seed that is not base plus lane, in this order |
| `ResumeRefusals.LastElementCounts` | python/hyperloader/fingerprint/model.py:67-85 | a contract is compared as a dictionary: the last element of a path counts |
| `ResumeRefusals.ChangedPathRefused` | python/hyperloader/compat/multi.py:120-143 | one path with another value is enough, whatever else agrees |
| `ResumeRefusals.RebuiltPlan` | python/hyperloader/compat/multi_map.py:57-91 | otherwise the iteration rebuilt: the loader's lanes and dataset, the sampler's units from the first undelivered one, each lane in its saved state or else its seed's |
| `LaneResume.ResumeExact` | python/hyperloader/compat/multi_map.py:57-91 | the values delivered after resuming are the undelivered ones if every lane with a unit left was captured or its seed gives its state; and only if, for every dataset whose values show the lane state |
| `LaneResume.BatchesExact` | python/hyperloader/compat/multi_map.py:57-91 | the resumed batches, restore states included, are the undelivered ones if and only if every lane is restored |
| `LaneResume.CaptureExactIff` | python/hyperloader/compat/lane_runtime.py:39-44 | for every loader and lane states the resumed values are the undelivered ones, if and only if at the capture the sampler is exhausted or a unit for each lane is admitted and undelivered |
| `LaneResume.LanesLeftSame` | python/hyperloader/compat/lane_runtime.py:107-121 | a resumed epoch leaves the lanes as the uninterrupted one would if every lane was captured or its seed gives its state; and only if, for fetches whose left state shows the one they began from |
| `LaneResume.LanesLeftIff` | python/hyperloader/compat/lane_runtime.py:107-121 | for every loader and lane states the next epoch over retained lanes goes on from the uninterrupted states, if and only if at the capture a unit for each lane is admitted and undelivered |
| `SamplerResume.SamplerIterator.Next` | python/hyperloader/compat/lane_runtime.py:25-30 | one pull of a sampler that shares the generator: the unit or the end, state and generator moved |
| `SamplerResume.Rebuild` | python/hyperloader/compat/lane_runtime.py:25-44 | skipping what was delivered and filling to one prefetch factor leaves the sampler that many pulls on, with the generator put back to where the capture found it |
| `SamplerResume.UnitsExactIff` | python/hyperloader/compat/multi_map.py:57-91 | the units of every sampler of a length are resumed exactly if and only if it was rebuilt by as many pulls as the capture had made, or past its last unit |
| `SamplerResume.GeneratorExactIff` | python/hyperloader/compat/multi_map.py:91 | the generator every sampler leaves to the next epoch is the uninterrupted one if and only if it was rebuilt by as many pulls |
| `SamplerResume.AfterDelivery` | python/hyperloader/compat/lane_runtime.py:39-44 | after a delivery both hold exactly when there is one lane, or one prefetch factor reaches the last unit, respectively past the end |
| `SamplerResume.DrawnFirstExact` | python/hyperloader/compat/multi_map.py:57-91 | a sampler that draws its whole order at its first pull is resumed exactly however far it was pulled |
| `SamplerResume.DrawsOnceExact` | python/hyperloader/compat/multi_map.py:57-91 | such a sampler exists, and is resumed exactly |
| `LaneResume.CoveredRestores` | python/hyperloader/compat/lane_runtime.py:104-129 | after a delivery, or with the sampler exhausted, every lane is captured |
| `LaneResume.FreshRestores` | python/hyperloader/compat/multi_map.py:31-48 | the first iterator over a new pool resumes exactly from any capture |
| `LaneResume.RetainedRestores` | python/hyperloader/compat/multi_map.py:44-48 | a later iterator captured before its first delivery resumes exactly only if its uncaptured lanes were left in their seed states |
| `LaneResume.CaptureBeforeDeliveryLosesState` | python/hyperloader/compat/lane_runtime.py:39-44 | a resumed iterator captured before its first delivery loses the states of lanes without an admitted unit, and other values are delivered: a concrete case |
| `LaneResume.InterruptedRunCompletes` | python/hyperloader/compat/multi_map.py:57-91 | the values an interrupted run and its resumed run deliver together, in any interleavings, are the uninterrupted ones if every lane was restored; and only if, for values that show the lane state |
| `MultiIterator.CompatMultiIterator.Next` | python/hyperloader/compat/multi_iterator.py:40-67 | the next unit's value, the end only after all, an error once invalidated |
| `MultiIterator.CompatMultiIterator.CaptureCheckpoint` | python/hyperloader/compat/multi_iterator.py:69-93 | the checkpoint validates unchanged, its loader accepts it, and after a delivery the rebuilt iteration produces exactly the undelivered batches |
| `MultiIterator.CompatMultiIterator.Invalidate` | python/hyperloader/compat/multi_iterator.py:100-107 | the iterator delivers nothing more |
| `MultiMap.CompatLoader.Iterate` | python/hyperloader/compat/multi_map.py:14-95 | fresh pool, retained lanes left after exactly their admitted units, or the iteration of any validated checkpoint; the abandoned iterator stops |
| `MultiMap.CompatLoader.RestoreState` | python/hyperloader/compat/multi.py:120-143 | installs a checkpoint of the same width and contract and stops the last iterator |
| `MultiMap.CompatLoader.CaptureState` | python/hyperloader/compat/multi.py:90-117 | captures the iterator under way or the pending checkpoint; else a blank one, which resumes to the iteration that would begin now if and only if no lanes are retained or theirs equals a fresh one in seed, order and lane states |
| `MultiMap.CaptureBetweenEpochs` | python/hyperloader/compat/multi.py:104-117 | with persistent workers, after one epoch of any loader, the next epoch samples from the generator as it then stands and the captured checkpoint from that generator after one more base seed draw |
| `MultiMap.BetweenEpochsReorders` | python/hyperloader/compat/multi.py:104-117 | a loader for which those two sample orders differ |
| `MultiMap.CompatLoader.Start` | python/hyperloader/compat/multi_map.py:34-56 | pool, owner and iterator over one plan become the loader's own |
| `CompletionPump.EveryRun` | engine/src/io/platform_windows.rs:39-84 | over all interleavings: no registration replaced, no packet without its waiter, no lost sender or receiver, no second result; each returned read gave the bytes its own packet moved, none at the end of the file, or its error if it was submitted, and what it failed with if not |
| `CompletionPump.FateMoves` | engine/src/io/platform_windows.rs:44-83 | a read's fate changes only by its own thread submitting or failing it, and then by the kernel posting its packet |
| `CompletionPump.BlockedHasItsOwn` | engine/src/io/platform_windows.rs:190-204 | a thread blocked in the pump has its own request registered and undispatched, in flight or on the port |
| `CompletionPump.ReturnedOnce` | engine/src/io/platform_windows.rs:170-188 | a returned read is final |
| `CompletionPump.CanMove` | engine/src/io/platform_windows.rs:170-228 | while a read is under way some thread or the kernel can move |
| `CompletionPump.StepKeeps` | engine/src/io/platform_windows.rs:117-228 | every step of every thread and of the kernel keeps the invariant |
| `CompletionPump.StillConnected` | engine/src/io/platform_windows.rs:170-178 | a waiting reader's channel always has its sender, so it is never found disconnected |
| `CompletionWork.ScheduleEnds` | engine/src/io/platform_windows.rs:170-228 | once no read begins, any schedule is finite |
| `CompletionWork.EveryReadReturns` | engine/src/io/platform_windows.rs:33-86 | a schedule that can go no further leaves every read returned |
| `Collate.CollatesIff` | engine/src/collate/dispatch.rs:26-118 | a batch of equally shaped samples collates if and only if its leaves and containers are supported; errors of copying or updating a mutable container are not caught |
| `Collate.MutableDoesNotFallBack` | engine/src/collate/container.rs:42-54 | one key in a mutable class that refuses its update: the type error leaves, where an immutable class falls back to a plain dictionary |
| `Collate.CollatePreserves` | engine/src/collate/container.rs:9-107 | reading sample i of the result at any leaf path gives sample i's leaf, whichever container fell back |
| `Collate.CollateTransposes` | engine/src/collate/container.rs:9-107 | the result has the first sample's containers and no others, with one entry for each sample at each leaf |
| `Collate.UnevenRefused` | engine/src/collate/container.rs:64-71 | for tuples and sequences the first later sample of another or no size decides the error of the whole collation, before any column |
| `Collate.EvenSizesPass` | engine/src/collate/container.rs:64-78 | with equal sizes the size error comes exactly from the first failing column |
| `Collate.NamedTuplesTruncated` | engine/src/collate/dispatch.rs:91-96 | named tuples are not size-checked: all columns gather exactly when no sample is shorter than the first, extra fields change nothing, and a shorter sample is an error |
| `Collate.LeafCollates` | engine/src/collate/dispatch.rs:26-118 | what each kind of leaf collates to: dense tensors and numbers stacked, arrays as tensors, texts listed; sparse and nested tensors, textual arrays and other objects refused, each with its error |
| `Collate.MappingRebuilt` | engine/src/collate/container.rs:42-54 | a mapping keeps its class if it rebuilds and becomes a plain dictionary only if it is immutable and raises a type error |
| `Collate.ItemsRebuilt` | engine/src/collate/container.rs:72-107 | a tuple becomes a plain list, a named tuple is rebuilt or fails, another sequence keeps its class or becomes a plain list likewise |
| `Collate.FirstKeyFails` | engine/src/collate/container.rs:31-39 | the first key whose samples do not collate decides the error |
| `Collate.FirstColumnFails` | engine/src/collate/container.rs:14-22 | the first position whose samples do not collate decides the error |
| `Collate.FirstMissing` | engine/src/collate/container.rs:16-18 | the first sample that does not answer a subscript decides the error of its column |
| `CollateEngine.MappingCollate` | engine/src/collate/container.rs:25-55 | the loop over keys builds the specified mapping or its fallback |
| `CollateEngine.CollatedColumns` | engine/src/collate/container.rs:9-23 | the loop over positions collates every column |
| `CollateEngine.SequenceCollate` | engine/src/collate/container.rs:57-107 | sizes first, tuples to lists, other sequences rebuilt or listed |
| `CollateEngine.CollateBatch` | engine/src/collate/dispatch.rs:26-118 | the branch chain in its order is the recursive specification, and terminates |
| `Histogram.LatencyHistogram.Observe` | engine/src/telemetry/histogram.rs:19-21 | one more in the value's bucket, modulo 2 to the 64 |
| `Histogram.LatencyHistogram.Percentile` | engine/src/telemetry/histogram.rs:48-61 | the bound of the bucket of the exact nearest-rank value q: at least q, zero exactly for zero, else below 2q; the fall-through is unreachable |
| `Histogram.LatencyHistogram.Percentiles` | engine/src/telemetry/histogram.rs:23-31 | each percentile so, and the three in order |
| `Histogram.LatencyHistogram.Reset` | engine/src/telemetry/histogram.rs:33-37 | nothing observed any more |
| `Histogram.RankUnique` | engine/src/telemetry/histogram.rs:52 | there is one value of a rank |
| `Histogram.RankBucket` | engine/src/telemetry/histogram.rs:54-58 | the first bucket whose cumulative count reaches the rank holds the value of that rank |
| `Histogram.BucketBounds` | engine/src/telemetry/histogram.rs:40-69 | a value is at most its bucket's bound and more than half of it |
| `Training.StepUntil` | benches/training_eval/live_cell.py:122-133 | steps at least once, reads the clock after every step and stops at the first reading past the deadline; chain and samples over exactly the batches taken |
| `Training.RunHalf` | benches/training_eval/live_cell.py:111-152 | a half the validator accepts, its duration from the readings before and after it, its rates the counts over it, its samples and chain those of the batches taken |
| `Training.RunObservation` | benches/training_eval/live_cell.py:59-108 | an accepted pair: alternating order, contiguous steps, one chain through both halves |
| `Training.CollectPoint` | benches/training_eval/point_collection.py:54-87 | every prefix validates, collection stops at the first decisive count between the bounds, steps are contiguous from the warmup and the last chain folds exactly the batches each feeder gave, in the order timed |
| `Training.DecisionMeaning` | benches/training_eval/decision.py:28-49 | collect exactly below the least count or while too wide and below the greatest; then an upper rule passes exactly below the threshold and an absolute one exactly strictly within it |
| `Training.AcceptedIff` | benches/training_eval/validation.py:20-53 | the validator accepts exactly numbered pairs of one declared configuration, process and environment, the reference first in even pairs, contiguous, each half long enough, warm, chained and with positive counts and rates |
| `Training.WarmUp` | benches/training_eval/live_cell.py:38-56 | refuses a nonpositive count; else takes that many batches of each feeder and counts both |

## Left out

- LanePool.CompatLanePool.WaitForCompletion: while a lane has a command a wait ends only when one completes; the 5 ms poll, time-outs and liveness checks of lane processes are not modelled, so termination of `Next`, `Drain` and `CapturePoints` rests on lanes eventually running.
- LanePool.CompatLanePool.TryReceive: worker exceptions (a nonzero status) and decoding and pinning of payloads are not modelled; fetching always succeeds. A completion that arrives while the lanes are being scanned counts as arriving before the scan or after the call.
- LanePool.CompatLanePool.TrySubmit: the native ring is modelled as accepting while a lane's outstanding count is below capacity, first in first out, as its source is not part of this model.
- LaneRuntime.CompatLaneRuntime.Next: on-completion delivery takes any ready task, where the code takes the first in dictionary order; which one does not matter to what is proved.
- LaneInOrder.EveryRun: map-style datasets only; exhausted lanes of iterable datasets, where the scan may find no lane, are not modelled.
- LaneResume.ResumeExact: the sampler draws its order when it begins, as a function of the generator state, as does the base seed (`SamplerResume` treats samplers that draw later); restoring a lane state gives that state back, and the dataset keeps no state between samples.
- MultiMap.CompatLoader.Iterate: retained lanes are a new pool object starting from the states they were left in. Sampling moves the loader's generator when it begins; further draws while it runs or at its end are not carried into the loader's generator.
- MultiMap.CompatLoader.CaptureState: the loader holds its iterator, where the code holds it by weak reference; an unfinished iterator that the program has dropped leaves a blank checkpoint, where the model captures it.
- MultiIterator.CompatMultiIterator.Invalidate: closing the lanes of an abandoned iterator is shutdown of processes and is not modelled.
- CompatState.FromDict: a fingerprint's digest is an arbitrary function of its elements, and values other than integers, booleans, bytes, texts, lists and dictionaries count as texts.
- PlacementEngine.RankPlacements: the release build, where the tail product wraps; a build with overflow checks would panic there.
- CompletionPump.EveryRun: modelled on values, as threads and locks have no object form here; keys do not wrap, no packet follows a synchronous failure, a read's file yields packets for that read only, and mutexes are not poisoned.
- Collate.CollatesIff: Torch's stacking and tensor construction always succeed and keep their samples; subscripting leaves, negative numbers as mapping keys, ragged mappings with missing keys beyond their error, and cyclic containers are not modelled.
- Histogram.LatencyHistogram.Percentiles: sequential; observations racing with a report or a reset are not modelled. It needs 99 times the number of observations to fit 64 bits.
- Training.CollectPoint: the declaration, lease, clock and pulse checks are one flag each of the configuration and the environment; time is real and never goes back; files, losses and control recording are not modelled, and the bootstrap is an arbitrary function of the observations.
- Training.WarmUp: the two feeders are always the reference and the subject, so a mismatched feeder order does not occur.
- Process spawning, pipes, pickling, arenas, pinned memory and shutdown of lane processes.
- The iterable, thread and process back ends, the native transport, and the installed random-number surfaces beyond key and block derivation.
- Telemetry recording, report writing, benchmark statistics and floating-point rounding.
- Cryptographic strength of hashes: a chain is a fold of an arbitrary function.
