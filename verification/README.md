# Verified model of zksync-era components

This project models seven parts of the zksync-era repository in Dafny and proves what they are for.

- **Snapshot creator** (`KeyChunks`, `StorageHistory`, `ObjectKeys`, `SnapshotProtocol`,
  `SnapshotSafety`, `SnapshotLiveness`, `SnapshotCompletion`, `SnapshotTermination`, `LateInsert`,
  `SnapshotRefinement`, `SnapshotDecisions`). A state machine over durable state (Postgres tables and blobs) and one
  volatile process with a task per chunk. A process can stop at any point; requests it had in flight
  may still land later; the node keeps appending blocks; later runs may use another config. Proved:
  safety of every reachable state, resource bounds, freedom from deadlock, exactly when every
  uninterrupted run completes, within a bound of steps, that interrupted runs leave what one
  uninterrupted run leaves, that the blobs read back give the replayed storage, and which batch a run
  works on.
- **Protocol upgrades** (`UpgradeHistory`, `UpgradeFold`, `UpgradeLoading`, `ForceDeployments`,
  `UpgradeExecution`, `RefusedUpgrades`, `HistoryExecution`). The fold of upgrade directories into
  chain states, when directories load and environments agree, the force-deployment check, and what
  executing accepted transactions does to the code of a chain.
- **Configuration** (`ConfigTree`, `ConfigNames`, `ConfigCommute`, `ConfigLoader`, `ImportGraph`). The mutually
  recursive loader with its shared stack, and the flattening of a merged tree into environment
  variables.
- **Blob codec and job counts** (`BlobCodec`, `JobCounts`).
- **Protocol version** (`PackedVersion`, `VersionText`): 256-bit packing on 64-bit limbs, text form,
  and the TypeScript counterparts.
- **TEE prover loop** (`RetryLoop`) and **intrinsic prices** (`IntrinsicPrice`).

`Wrappers`, `Strings`, `Decimal`, `Arithmetic` and `Runs` hold shared types, joining and splitting,
decimal numbers, products and the induction along runs. Code that updates state in
a loop or an object is a method or a class proved against a function; the protocol of concurrent tasks
is a step relation. `dafny verify dfyconfig.toml` checks everything.

## Where the code differs from what one would expect

- `infrastructure/zk/src/verify-upgrade.ts:140` hands the previous *default account* to the bootloader.
  A bootloader that an upgrade does not list therefore becomes the default account published before.
  `BootloaderIsCarriedExactlyWhen` gives the exact condition for carrying it forward,
  `BootloaderIsLost` a concrete history.
- `infrastructure/zk/src/verify-upgrade.ts:210-212` expects staging in every directory but does not
  check it: a directory without it makes staging start over (`StageStartsOverAfterGap`).
  `StageReportsLastPublishedExactlyWhen` says when staging still reports the last published bytecode,
  `StageLosesBytecode` gives three directories after which it does not.
- The force-deployment check refuses upgrades whose calldata would do what it should. Of all upgrades
  whose calldata sets the code of exactly the changed contracts it accepts exactly those that list the
  same deployments, plain, with no hash twice and with addresses spelled as in the table
  (`ExecutableIsAcceptedExactlyWhen`). `SharedBytecodeIsRefused` and `CapitalAddressIsRefused` are
  upgrades it refuses: `infrastructure/zk/src/verify-upgrade.ts:353` compares addresses with their letter
  case, `infrastructure/zk/src/verify-upgrade.ts:390` without.
- `core/bin/zksync_tee_prover/src/tee_prover.rs:206-209` multiplies the backoff before it pauses, while
  `core/bin/zksync_tee_prover/src/tee_prover.rs:143-145` describes the initial value as the first
  interval. `FirstPauseIsInitialExactlyWhen` says when the first pause is the initial backoff; by default
  it is twice as long (`DefaultFirstPause`). The capped closed form holds for every number of failures
  exactly under `RetryLoop.IsCapped`; with a multiplier below one and a first backoff above the cap, each
  failure shrinks the cap itself.
- A process that dies while it inserts the row of a snapshot can make the next run fail although nothing
  interrupts that one: the insert lands after the next run has seen no row. Whether every run completes
  can be told before it starts: if and only if there is a row, or no insert of one is still in flight
  (`EveryRunGoesOnExactlyWhen`); the failing state does come about (`RunCanLeaveRival`).
- Flattening does not commute with merging for all layers: `CollidingNamesDoNotCommute`,
  `ObjectArraysDoNotCommute` and `DisagreeingTablesDoNotCommute` are examples.
  `ExtendCommutesExactlyWhen` and `MergeCommutesExactlyWhen` give the exact conditions, by the last leaves
  of the merge; `OwnNamesCommuteExactlyWhen` gives one that reads the layers only, for layers without
  conflicting names.
- `core/lib/basic_types/src/basic_fri_types.rs:308-354` compares the round before it is narrowed to eight
  bits, so a round such as 258 becomes round 2 and keeps its circuit
  (`RoundTwoIsCircuitTwoExactlyWhen`, `WideRoundKeepsCircuit`).

## Model

| member | source | states |
|---|---|---|
| `KeyChunks.StartFitsWord` | core/lib/types/src/snapshots.rs:307-330 | every range starts at a 256-bit word and is not empty, so the unchecked multiplication cannot overflow |
| `KeyChunks.ChunksPartitionKeys` | core/lib/types/src/snapshots.rs:307-330 | every 256-bit key lies in exactly one of the ranges, for any positive chunk count |
| `KeyChunks.ChunksAreAdjacentAndEven` | core/lib/types/src/snapshots.rs:307-330 | ranges run from the first to the last key without gaps or overlaps; sizes differ by less than the chunk count |
| `StorageHistory.LatestIsReplayed` | core/lib/dal/src/snapshots_creator_dal.rs:44-108 | the row chosen by the grouped maximum holds the value that replaying all logs up to the block gives its key |
| `StorageHistory.ReplayedHasLatest` | core/lib/dal/src/snapshots_creator_dal.rs:44-108 | every key of the replayed storage has a row that the grouped maximum chooses |
| `StorageHistory.ChunkLogsAreReplayedState` | core/lib/dal/src/snapshots_creator_dal.rs:44-108 | a log is returned for a chunk if and only if its key lies in the range and has a replayed value, which the log holds, and was first written by the batch, with the batch and index of that write in the log |
| `StorageHistory.ChunksHoldStateOnce` | core/lib/dal/src/snapshots_creator_dal.rs:44-108 | over all chunks every such log is returned exactly once, by the chunk of its key, and nothing else is |
| `StorageHistory.QueriesAreStable` | core/lib/dal/src/snapshots_creator_dal.rs:44-108 | what is read for a stored batch does not change while the node appends blocks and batches |
| `StorageHistory.KeysCountIsStable` | core/lib/dal/src/snapshots_creator_dal.rs:15-42 | the distinct key count read for a stored batch does not change while tables grow |
| `StorageHistory.KeysCountIsUnique` | core/lib/dal/src/snapshots_creator_dal.rs:15-42 | the count query has one answer |
| `StorageHistory.KeysCountExists` | core/lib/dal/src/snapshots_creator_dal.rs:15-42 | it has an answer if and only if some key was first written up to the batch |
| `StorageHistory.KeysCountIsNumberOfKeys` | core/lib/dal/src/snapshots_creator_dal.rs:15-42 | where keys are numbered from one without gaps in the order of batches, a number is the answer if and only if it is the positive number of keys first written up to the batch |
| `StorageHistory.FactoryDepsGrowByBlock` | core/lib/dal/src/snapshots_creator_dal.rs:180-206 | the dependencies of the first block are its bytecodes, and one more block adds exactly the bytecodes of that block |
| `ObjectKeys.ChunkNumberIsReadable` | core/lib/object_store/src/objects.rs:97-103 | the zero-padded chunk number in a blob name determines the chunk |
| `ObjectKeys.EncodeKeyIsInjective` | core/lib/object_store/src/objects.rs:67-103 | two blobs share a name only if they are the same blob; logs never collide with factory dependencies |
| `ObjectKeys.FilePathIsInjective` | core/lib/object_store/src/objects.rs:67-103 | the recorded path tells the blob too |
| `ObjectKeys.NamesAreWrittenOut` | core/lib/object_store/src/objects.rs:67-103 | for every batch and chunk the names written out: batch number without leading zeros, chunk number padded to four digits, fixed texts around them |
| `SnapshotSafety.UnrecordedIsExact` | core/bin/snapshots_creator/src/creator.rs:45-60 | a resumed run works on exactly the chunks without a path, in increasing order, none twice |
| `SnapshotSafety.ResumedProgressIsGood` | core/bin/snapshots_creator/src/creator.rs:45-60 | progress rebuilt from a row has the row's version and chunk count and misses no unrecorded chunk |
| `SnapshotSafety.StartedTasksAreGood` | core/bin/snapshots_creator/src/creator.rs:398-413 | when tasks start, no permit or connection is held, there is one task per remaining chunk, and the gauge is their number |
| `SnapshotSafety.InFlightIsGood` | core/bin/snapshots_creator/src/creator.rs:80-233 | whatever request a process has in flight in any good state keeps the store correct whenever it lands |
| `SnapshotSafety.ApplyKeepsStore` | core/lib/dal/src/snapshots_dal.rs:47-108 | a good request keeps every row backed by its blobs and every blob correct |
| `SnapshotSafety.ProcessStepKeepsInv` | core/bin/snapshots_creator/src/creator.rs:80-427 | every step of the process, in any interleaving of tasks, keeps the invariant and only extends durable state |
| `SnapshotSafety.NextKeepsInv` | core/bin/snapshots_creator/src/creator.rs:80-427 | so does every step of the environment: starts, stops, late requests, table growth |
| `SnapshotSafety.RunKeepsInv` | core/bin/snapshots_creator/src/creator.rs:80-427 | every state of every run satisfies the invariant |
| `SnapshotSafety.RunKeepsRow` | core/bin/snapshots_creator/src/creator.rs:45-158 | over a run no row disappears, changes version or chunk count, or loses a recorded path |
| `SnapshotSafety.RecordedChunksAreStored` | core/bin/snapshots_creator/src/creator.rs:80-276 | in every reachable state a row implies tree data of its batch and its factory-dependency blob under the recorded path, and a recorded path names a blob with exactly that chunk's logs under the row's chunk count and version |
| `SnapshotSafety.DependenciesAreStored` | core/bin/snapshots_creator/src/creator.rs:189-233 | in every reachable state the dependency blob of a row holds exactly the bytecodes of all blocks up to the last one of the batch |
| `SnapshotSafety.VersionIsConfigured` | core/bin/snapshots_creator/src/creator.rs:236-245 | a row has version 0 or 1, the one that its creator's config asks for by number |
| `SnapshotSafety.ChunkCountIsLeast` | core/bin/snapshots_creator/src/creator.rs:257-265 | a row has the fewest chunks that meet its creator's minimum and take all keys at the configured chunk size |
| `SnapshotSafety.CompleteSnapshotHoldsState` | core/bin/snapshots_creator/src/creator.rs:80-158 | a log is in a blob of a complete snapshot if and only if the blob is the one of its key's chunk and the log tells the replayed value and the first write of a key written by the batch |
| `SnapshotSafety.StoredLogTellsState` | core/bin/snapshots_creator/src/creator.rs:80-158 | a log in any blob of a complete snapshot has the value that replaying all logs up to the last block of the batch gives its key, and the batch and index of the key's first write |
| `SnapshotSafety.SnapshotRestoresState` | core/bin/snapshots_creator/src/creator.rs:80-158 | reading all blobs back gives the replayed storage: every key with a value that was first written by the batch has exactly one log in exactly one blob, and no other key has any |
| `SnapshotLiveness.ResourceBounds` | core/bin/snapshots_creator/src/creator.rs:90-148 | in every reachable state replica connections never exceed permits, permits never exceed the concurrency, one task at most holds the master connection and none holds both kinds |
| `SnapshotLiveness.PermitGivesReplica` | core/bin/snapshots_creator/src/main.rs:91-100 | with a replica pool as large as the semaphore, a task with a permit always finds a free replica connection |
| `SnapshotLiveness.SomeTaskMoves` | core/bin/snapshots_creator/src/creator.rs:80-158 | while a task is unfinished and the pool is not empty, some task can move |
| `SnapshotLiveness.RunKeepsPool` | core/bin/snapshots_creator/src/main.rs:91-100 | in every state of every run, a running process has a replica pool with connections, because an empty one fails before the run |
| `SnapshotLiveness.NeverStuck` | core/bin/snapshots_creator/src/creator.rs:284-414 | no reachable state is a deadlock: a running process always has a step to take |
| `SnapshotCompletion.WorkAfter` | core/bin/snapshots_creator/src/creator.rs:80-158 | moving a task one stage on lowers the sum of stages left over all tasks by one |
| `SnapshotCompletion.ProcessStepsEnd` | core/bin/snapshots_creator/src/creator.rs:344-414 | every process step lowers the pair of phases left and stages left, so an uninterrupted run ends |
| `SnapshotCompletion.GaugeAccounting` | core/bin/snapshots_creator/src/creator.rs:145-156 | chunks left plus chunks recorded equal all chunks, up to those recorded but not yet counted down; the logged progress never underflows |
| `SnapshotCompletion.FinishMeansComplete` | core/bin/snapshots_creator/src/creator.rs:402-414 | a run that joins its tasks leaves no chunk unrecorded |
| `SnapshotCompletion.GrowthKeepsReady` | core/bin/snapshots_creator/src/creator.rs:236-276 | the node may add blocks and batches at any time without making a run fail that could complete |
| `SnapshotCompletion.LandKeepsReadyExactlyWhen` | core/lib/dal/src/snapshots_dal.rs:47-108 | one late request leaves a run able to complete if and only if it is not the insert of the same row landing while the run is about to insert it |
| `SnapshotCompletion.DoomedRunFails` | core/bin/snapshots_creator/src/creator.rs:381-396 | once such an insert has landed, every step of the run leads to an error |
| `SnapshotCompletion.HarmlessRunCompletes` | core/bin/snapshots_creator/src/creator.rs:344-427 | under every scheduling, with tables growing and any late requests landing except one that does harm, an uninterrupted run can go on or has completed its snapshot |
| `SnapshotCompletion.HarmlessRunStaysOnTrack` | core/bin/snapshots_creator/src/creator.rs:344-427 | no step of such a run, and nothing around it, leaves the states from which the snapshot can be completed |
| `SnapshotCompletion.CompletionIsReachable` | core/bin/snapshots_creator/src/creator.rs:344-427 | from every ready state the process by itself reaches a complete snapshot |
| `SnapshotCompletion.AnySnapshotCanBeCompleted` | core/bin/snapshots_creator/src/main.rs:1-10 | wherever earlier runs stopped, a run asked for the batch can complete its snapshot, whatever its version and chunk size |
| `SnapshotTermination.EveryScheduleEnds` | core/bin/snapshots_creator/src/creator.rs:344-427 | whatever happens around an uninterrupted process, also with harm, the number of its steps is bounded, and after as many it has ended |
| `SnapshotTermination.EveryScheduleCompletes` | core/bin/snapshots_creator/src/creator.rs:344-427 | without harm the snapshot is complete by then |
| `SnapshotTermination.EveryRestartCompletes` | core/bin/snapshots_creator/src/main.rs:1-10 | wherever earlier runs stopped, if there is a row or no insert of one in flight, every uninterrupted run asked for the batch completes its snapshot within that bound and never gets stuck, whatever lands late |
| `LateInsert.EveryRunGoesOnExactlyWhen` | core/bin/snapshots_creator/src/creator.rs:381-396 | for every idle state in which a run can be started, all its uninterrupted runs, with any growth and any late requests, can go on or have completed if and only if there is a row of the batch or no insert of one is in flight |
| `LateInsert.RivalFailsNextRun` | core/bin/snapshots_creator/src/creator.rs:381-396 | otherwise there is an uninterrupted run that fails |
| `LateInsert.RunCanLeaveRival` | core/bin/snapshots_creator/src/creator.rs:381-396 | wherever a snapshot can be started, a process can die and leave its insert in flight without a row |
| `SnapshotCompletion.GenesisSnapshotCanBeCompleted` | core/bin/snapshots_creator/src/main.rs:1-10 | a concrete store and config that meet every assumption of the completion result |
| `SnapshotRefinement.RunKeepsAnswers` | core/lib/dal/src/snapshots_creator_dal.rs:44-108 | from the time a batch is stored, the tables give the same answers about it in every later state |
| `SnapshotRefinement.CompleteRunIsOutcome` | core/bin/snapshots_creator/src/creator.rs:315-342 | a complete snapshot is the outcome of the config under which its row was inserted, by the tables of any state since the batch was stored, however many other configs worked on it |
| `SnapshotRefinement.OutcomeIsUnique` | core/bin/snapshots_creator/src/creator.rs:236-276 | tables, batch and config determine the row and the blobs of a complete snapshot |
| `SnapshotRefinement.InterruptedRunsRefineUninterrupted` | core/bin/snapshots_creator/src/creator.rs:262-342 | for any interrupted run that ends complete and any earlier state without the row, every uninterrupted run started there with the choices of the inserting config leaves the same row and blobs |
| `SnapshotRefinement.UninterruptedRunExists` | core/bin/snapshots_creator/src/creator.rs:262-342 | with tree data at that state, such an uninterrupted run exists, for any positive concurrency |
| `SnapshotRefinement.SoloOutcome` | core/bin/snapshots_creator/src/creator.rs:344-427 | started on a batch without a row, in a store with any other snapshots, an uninterrupted run to the end produces the outcome of its config |
| `SnapshotRefinement.CreatorWasRunning` | core/bin/snapshots_creator/src/creator.rs:381-396 | every row was inserted under the config of some run, also when the insert landed late |
| `SnapshotRefinement.OtherBatchesAreUntouched` | core/bin/snapshots_creator/src/creator.rs:294-342 | runs asked for one batch never touch rows or blobs of another |
| `SnapshotDecisions.PickWithoutRequest` | core/bin/snapshots_creator/src/creator.rs:294-312 | without a request the process goes on with a batch if and only if the next one is the last stored, and fails if and only if nothing is stored after batch zero |
| `SnapshotDecisions.PickRequested` | core/bin/snapshots_creator/src/creator.rs:294-312 | with a request it goes on with that batch only, if and only if it or a later one is stored, and fails if and only if not |
| `SnapshotDecisions.WorkStaysAllowed` | core/bin/snapshots_creator/src/creator.rs:294-312 | in every reachable state a process that asks for a batch works on that batch, one that asks for none works below a stored batch, and the same holds for every row and late insert by the config it comes from |
| `SnapshotDecisions.FoundRowsAreKept` | core/bin/snapshots_creator/src/creator.rs:315-342 | over any run, a process that asks for no batch never changes a row that was there when it looked for one, whatever lands or grows meanwhile |
| `SnapshotDecisions.DecisionDependsOnRow` | core/bin/snapshots_creator/src/creator.rs:315-342 | a snapshot is started if and only if there is no row, resumed on exactly the missing chunks if and only if the row has a gap and its batch was requested, and skipped otherwise |
| `SnapshotDecisions.InitializeExactlyWhen` | core/bin/snapshots_creator/src/creator.rs:236-276 | a new snapshot can be prepared if and only if the batch has tree data, the version is 0 or 1, the chunk size is positive, and some key was written, not more than 2^31 - 1 chunks take |
| `SnapshotDecisions.OutcomeTellsPhase` | core/bin/snapshots_creator/src/creator.rs:284-427 | a process that ends by itself has skipped only when looking at a row, completed only when joining its tasks, and failed everywhere else |
| `SnapshotDecisions.ChangesAreInFlight` | core/bin/snapshots_creator/src/creator.rs:80-427 | every change of durable state is by a request that the process had in flight just before, so that a stop there can leave the same change behind |
| `SnapshotDecisions.ProcessCanStop` | core/bin/snapshots_creator/src/creator.rs:398-414 | a process can stop in any phase, with any part of its requests in flight landing later or not at all |
| `SnapshotDecisions.RequestsHoldResources` | core/bin/snapshots_creator/src/creator.rs:90-148 | permits and connections are taken only while one is free; logs are read with a permit and a replica connection, blobs put with the permit and no connection, paths recorded with the permit and the master connection |
| `SnapshotDecisions.TaskMovesExactlyWhen` | core/bin/snapshots_creator/src/creator.rs:90-148 | a task can move if and only if it is not done and the permit or connection it waits for is free, so tasks run side by side up to the number of permits |
| `UpgradeHistory.LoadChainState` | infrastructure/zk/src/verify-upgrade.ts:128-181 | the loops compute the specified state or its first error; which upgrades load and what the state then holds is stated by `LoadsExactlyWhen`, `FirstRefusedIsReported`, `AccountAndBootloaderAreRecorded` and `ContractsAreRecorded` |
| `UpgradeHistory.CopyEntries` | infrastructure/zk/src/verify-upgrade.ts:145-153 | copying keeps every entry's bytecode and marks none as changed |
| `UpgradeHistory.PublishSetsLast` | infrastructure/zk/src/verify-upgrade.ts:154-171 | after the listed contracts, each has the bytecode listed last and all others keep theirs |
| `UpgradeHistory.StateIsLastPublished` | infrastructure/zk/src/verify-upgrade.ts:136-171 | through any number of upgrades and skipped directories a system contract has its last published bytecode, and so has the default account |
| `UpgradeHistory.NothingPublishedYet` | infrastructure/zk/src/verify-upgrade.ts:128-132 | an environment without a state has published nothing |
| `UpgradeHistory.BootloaderAsLoaded` | infrastructure/zk/src/verify-upgrade.ts:139-141 | the bootloader of a state is the listed one, or else the default account published before |
| `UpgradeHistory.BootloaderIsCarriedExactlyWhen` | infrastructure/zk/src/verify-upgrade.ts:139-141 | the last published bootloader is kept if and only if the upgrade lists one or the default account before was the same |
| `UpgradeHistory.BootloaderIsLost` | infrastructure/zk/src/verify-upgrade.ts:139-141 | a two-upgrade history whose state reports the default account's bytecode as bootloader |
| `UpgradeFold.LoadChainStateHistory` | infrastructure/zk/src/verify-upgrade.ts:183-227 | the loop over directories computes the specified history or fails with it |
| `UpgradeFold.VersionsAreConsecutive` | infrastructure/zk/src/verify-upgrade.ts:194-200 | an accepted history has exactly the versions 12, 13, … with one entry per directory |
| `UpgradeFold.PreviousStatesAreChains` | infrastructure/zk/src/verify-upgrade.ts:202-209 | the mainnet and testnet states carried along are the folds of all their upgrades |
| `UpgradeFold.EntriesAreChains` | infrastructure/zk/src/verify-upgrade.ts:214-223 | each entry holds the fold up to its directory for mainnet and testnet if present there and nothing otherwise, and for staging the fold since its last gap |
| `UpgradeFold.StageStartsOverAfterGap` | infrastructure/zk/src/verify-upgrade.ts:210-212 | the staging state is the fold of the upgrades since its last missing directory only |
| `UpgradeFold.SinceGapIsLongest` | infrastructure/zk/src/verify-upgrade.ts:210-212 | those upgrades are the longest part at the end without a missing directory |
| `UpgradeFold.StageReportsLastPublishedExactlyWhen` | infrastructure/zk/src/verify-upgrade.ts:210-212 | staging reports the last published bytecode of a contract if and only if it was published since the last gap or never before it |
| `UpgradeFold.StageLosesBytecode` | infrastructure/zk/src/verify-upgrade.ts:210-212 | three directories after which staging has lost a published contract |
| `UpgradeFold.CheckBytecodeConsistency` | infrastructure/zk/src/verify-upgrade.ts:274-298 | accepts exactly chains with the same bootloader, default account and code map |
| `UpgradeFold.ConsistentNetworksPublishTheSame` | infrastructure/zk/src/verify-upgrade.ts:302-324 | when a version passes, mainnet and testnet have last published the same bytecode for every system contract |
| `UpgradeLoading.LoadsExactlyWhen` | infrastructure/zk/src/verify-upgrade.ts:98-171 | an upgrade loads if and only if account and bootloader are each listed with one hash or not listed while there is a previous state, and every listed contract has a name of the table, the table's address and one hash |
| `UpgradeLoading.FirstRefusedIsReported` | infrastructure/zk/src/verify-upgrade.ts:154-171 | the first listed contract that is not so decides the error: name, then address, then hash count |
| `UpgradeLoading.ChainLoadsExactlyWhen` | infrastructure/zk/src/verify-upgrade.ts:128-181 | all upgrades of an environment load if and only if each of them does, with a previous state for all but the first |
| `UpgradeLoading.HistoryLoadsExactlyWhen` | infrastructure/zk/src/verify-upgrade.ts:183-227 | the history loads if and only if versions go up by one from 12 and every upgrade loads, for staging with a previous state only if the directory before has it |
| `UpgradeLoading.AccountAndBootloaderAreRecorded` | infrastructure/zk/src/verify-upgrade.ts:98-141 | both entries have the listed hash or else the account before, keep the account before as previous code if listed, and count as changed if and only if a different hash is listed |
| `UpgradeLoading.ContractsAreRecorded` | infrastructure/zk/src/verify-upgrade.ts:143-171 | a contract that is not listed keeps its code, unchanged; a listed one is changed and records the code that its last mention replaces |
| `UpgradeLoading.VersionIsConsistentExactlyWhen` | infrastructure/zk/src/verify-upgrade.ts:302-324 | a version passes if and only if testnet and mainnet, where they are part of its directory, have last published what staging has since its last gap: contracts, account and reported bootloader |
| `ForceDeployments.IndexDeployments` | infrastructure/zk/src/verify-upgrade.ts:328-346 | accepts exactly plain deployments with distinct hashes, and then indexes all of them |
| `ForceDeployments.ConsumeDeployments` | infrastructure/zk/src/verify-upgrade.ts:348-361 | accepts if and only if hash matching is a bijection between deployments and changed contracts with the right addresses |
| `ForceDeployments.CompareDeployments` | infrastructure/zk/src/verify-upgrade.ts:377-405 | accepts exactly a decoded list equal to the announced one up to the case of addresses |
| `ForceDeployments.CheckForceDeployment` | infrastructure/zk/src/verify-upgrade.ts:326-406 | the whole check accepts exactly the states described without its loops |
| `UpgradeExecution.AddressesAreDistinct` | infrastructure/zk/src/verify-upgrade.ts:24-38 | no two system contracts share an address |
| `UpgradeExecution.ExecuteDeploysChanged` | infrastructure/zk/src/verify-upgrade.ts:326-406 | executing deployments for exactly the changed contracts gives each of them its new bytecode, whatever code was there, also when hashes or targets repeat |
| `UpgradeExecution.ExecuteKeepsOthers` | infrastructure/zk/src/verify-upgrade.ts:326-406 | executing such deployments leaves every other address as it was |
| `UpgradeExecution.UpgradeExecutes` | infrastructure/zk/src/verify-upgrade.ts:143-181 | on code that agrees with the previous state, such deployments give code that agrees with the new state, without any condition on hashes |
| `UpgradeExecution.AcceptedSetsChanged` | infrastructure/zk/src/verify-upgrade.ts:326-406 | the transaction of an accepted upgrade decodes to deployments for exactly the changed contracts |
| `UpgradeExecution.AcceptedUpgradeExecutes` | infrastructure/zk/src/verify-upgrade.ts:143-181 | on code that agrees with the previous state, executing what the transaction of an accepted state decodes to gives code that agrees with the new state |
| `UpgradeExecution.AcceptedTransactionIsPlain` | infrastructure/zk/src/verify-upgrade.ts:335-405 | the three places that hold an accepted upgrade's deployments decode alike, and the transaction calls no constructor and sends no value or input |
| `UpgradeExecution.AcceptedHistoryExecutes` | infrastructure/zk/src/verify-upgrade.ts:326-406 | after a whole accepted history the chain runs what its state says, whatever was deployed before |
| `UpgradeExecution.AcceptedHistoryKeepsUserCode` | infrastructure/zk/src/verify-upgrade.ts:326-406 | no accepted history touches an address that is not a system contract's |
| `UpgradeExecution.AcceptedHistoryRunsLastPublished` | infrastructure/zk/src/verify-upgrade.ts:143-181 | end to end, the code at a system contract's address is the one published last |
| `RefusedUpgrades.ExecutableIsAcceptedExactlyWhen` | infrastructure/zk/src/verify-upgrade.ts:326-406 | of the upgrades whose calldata sets the code of exactly the changed contracts, the check accepts exactly those whose listed deployments match the calldata, are plain, spell every address as in the table and repeat no hash |
| `RefusedUpgrades.SharedBytecodeIsRefused` | infrastructure/zk/src/verify-upgrade.ts:331-334 | a first upgrade with any two contracts of one bytecode loads and is refused, although its deployments give what its state says |
| `RefusedUpgrades.CapitalAddressIsRefused` | infrastructure/zk/src/verify-upgrade.ts:353-355 | so is a first upgrade that deploys one contract to its address written with a capital letter |
| `HistoryExecution.LoadedHistoryIsAccepted` | infrastructure/zk/src/verify-upgrade.ts:183-227 | a loaded history whose mainnet and testnet entries all pass the check is an accepted history of both networks |
| `HistoryExecution.AcceptedSetsListed` | infrastructure/zk/src/verify-upgrade.ts:143-181 | an accepted transaction puts the listed bytecode at the address of a contract and leaves a contract that is not listed alone, whatever the previous state was |
| `HistoryExecution.StageRunsLastPublished` | infrastructure/zk/src/verify-upgrade.ts:408-424 | if all staging entries pass, executing the staging transactions leaves the last published bytecode at every system contract, even where the staging state has lost it after a gap |
| `HistoryExecution.StageKeepsUserCode` | infrastructure/zk/src/verify-upgrade.ts:408-424 | and it leaves every other address alone |
| `HistoryExecution.LoadedHistoryRunsLastPublished` | infrastructure/zk/src/verify-upgrade.ts:408-424 | for all three environments of a loaded history that passes, the code at every system contract is the one published last and all other code is untouched |
| `ConfigTree.CollectVariables` | infrastructure/zk/src/config.ts:65-99 | the loop over keys collects the variables of the recursive flattening, whose names and texts `ConfigNames` and `FlattenIsLastLeaf` state |
| `ConfigTree.CollectElements` | infrastructure/zk/src/config.ts:74-80 | an array of objects is collected element by element under its index |
| `ConfigTree.ExtendConforms` | infrastructure/zk/src/config.ts:48-51 | layers that agree on which paths are tables merge into a tree that agrees too |
| `ConfigTree.AtExtend` | infrastructure/zk/src/config.ts:48-51 | at every path a merge has the later layer's leaf, or the earlier one's where there is none |
| `ConfigTree.VariableHasPath` | infrastructure/zk/src/config.ts:65-99 | every variable comes from a leaf, has its text, and is named by its path |
| `ConfigTree.PathHasVariable` | infrastructure/zk/src/config.ts:65-99 | every leaf has a variable named by its path; `NameIsPathInUpperCase` says what that name is |
| `ConfigNames.NameIsPathInUpperCase` | infrastructure/zk/src/config.ts:65-99 | a name is the keys joined with underscores: the same characters but for the case of letters, and none in lower case |
| `ConfigNames.UpperCaseKeysAreKept` | infrastructure/zk/src/config.ts:65-99 | a leaf below keys without lower case letters becomes the variable named by the keys as they are |
| `ConfigNames.NamesHaveNoLowerCase` | infrastructure/zk/src/config.ts:65-99 | no variable of any table, arrays and nested tables included, has a lower case letter in its name |
| `ConfigNames.LetterCaseDoesNotMatter` | infrastructure/zk/src/config.ts:65-99 | tables that differ in the letter case of their keys only have the same variables |
| `ConfigNames.ListIsQuoted` | infrastructure/zk/src/config.ts:81-85 | the text of a plain array begins and ends with a quote, and splitting its inside at commas gives the items if none has a comma |
| `ConfigNames.PrefixIsKept` | infrastructure/zk/src/config.ts:65-99 | a longer prefix goes in front of every name and changes no text |
| `ConfigNames.ElementsAreNumbered` | infrastructure/zk/src/config.ts:74-80 | element number n of an array of objects has exactly its own variables, under the array's name and n in decimal notation from zero; no element hides another |
| `ConfigTree.FlattenIsUnion` | infrastructure/zk/src/config.ts:65-99 | a tree with the last layer's leaf at every path flattens to the right-biased union of the flattened layers |
| `ConfigTree.MergeAllIsLast` | infrastructure/zk/src/config.ts:35-53 | merging any number of layers keeps the last leaf at every path |
| `ConfigTree.FlattenCommutesWithMerge` | infrastructure/zk/src/config.ts:35-99 | flattening the merge of any layers equals the union of the flattened layers, later ones winning |
| `ConfigTree.CollidingNamesDoNotCommute` | infrastructure/zk/src/config.ts:65-99 | two layers with colliding names for which the law fails |
| `ConfigTree.ObjectArraysDoNotCommute` | infrastructure/zk/src/config.ts:74-80 | two layers with arrays of objects for which the law fails |
| `ConfigCommute.FlattenIsLastLeaf` | infrastructure/zk/src/config.ts:65-99 | every variable has the text of the last leaf with its name, arrays of objects included |
| `ConfigCommute.CopyIsTheSame` | infrastructure/zk/src/config.ts:48-51 | extending an empty table by one without repeated keys copies it, nested tables and the order of keys included |
| `ConfigCommute.OtherNamesStand` | infrastructure/zk/src/config.ts:48-51 | in any merge, a name that the upper layer does not set has the last leaf of what the upper layer leaves of the lower one |
| `ConfigCommute.ExtendCommutesExactlyWhen` | infrastructure/zk/src/config.ts:35-99 | for any two layers, flattening commutes with merging if and only if the upper layer's last leaf of every name of its own stays the last one, and what it replaces shows in no other variable |
| `ConfigCommute.ConformingExtendCommutesExactlyWhen` | infrastructure/zk/src/config.ts:35-99 | for layers that agree on which paths are tables only the first condition is left |
| `ConfigCommute.MergeLeaves` | infrastructure/zk/src/config.ts:48-51 | a merge of any two layers has exactly the leaves of the upper layer and those the upper layer leaves of the lower one |
| `ConfigCommute.OwnNamesCommuteExactlyWhen` | infrastructure/zk/src/config.ts:35-99 | for layers that give no name two texts, the law holds if and only if what the upper layer replaces shows in no other variable; both conditions read the layers only |
| `ConfigCommute.MergeCommutesExactlyWhen` | infrastructure/zk/src/config.ts:35-99 | for any number of such layers the law holds if and only if, for every name set above the first layer, the last leaf of the merge has the text of the topmost layer with that name |
| `ConfigCommute.ReplacedValueCommutesExactlyWhen` | infrastructure/zk/src/config.ts:74-80 | a value replaced as a whole, such as an array of objects, commutes if and only if the new value has all variables of the old one |
| `ConfigCommute.DisagreeingTablesDoNotCommute` | infrastructure/zk/src/config.ts:65-99 | a table replaced by a leaf breaks the law |
| `ConfigLoader.Loader.constructor` | infrastructure/zk/src/config.ts:10-10 | a loader starts with an empty stack |
| `ConfigLoader.Loader.LoadConfigFile` | infrastructure/zk/src/config.ts:10-53 | terminates on every file system, computes the specified table or error from the stack found, and leaves the stack as it found it |
| `ConfigLoader.Loader.LoadConfigFolder` | infrastructure/zk/src/config.ts:55-63 | the same for the configuration files of a folder, in listing order |
| `ConfigLoader.FolderPathsFollowListing` | infrastructure/zk/src/config.ts:55-63 | of a listing exactly the files that end in `.env` or `.toml` are loaded, in the order of the listing, by their paths in the folder |
| `ConfigLoader.PushShrinks` | infrastructure/zk/src/config.ts:10-20 | putting a file on the stack leaves fewer paths off it, which bounds the recursion |
| `ImportGraph.WalkLoads` | infrastructure/zk/src/config.ts:10-63 | along every walk of imports from a file that loads, everything loads |
| `ImportGraph.FailureHasCause` | infrastructure/zk/src/config.ts:10-63 | any failing load gives a walk of imports to the path that the error names: one met before, missing, a folder, or not parsable, as the error says |
| `ImportGraph.LoadedWalkIsOpen` | infrastructure/zk/src/config.ts:10-63 | no walk from a file that loads comes back to itself |
| `ImportGraph.LoadFailsExactlyWhen` | infrastructure/zk/src/config.ts:10-63 | on every file system, loading fails if and only if the file reaches a cycle or something that is no file or does not parse; an import that does not exist is accepted |
| `ImportGraph.CycleIsReportedExactlyWhenReachable` | infrastructure/zk/src/config.ts:10-63 | with everything readable, loading fails if and only if a cycle through files or folders is reachable, always with the cycle error; diamonds are accepted |
| `ImportGraph.LoadedFileStands` | infrastructure/zk/src/config.ts:35-53 | a loaded tree has at every path the leaf of the last layer among all files reached |
| `ImportGraph.LoadedVariablesAreUnion` | infrastructure/zk/src/config.ts:35-99 | the variables are the union of all layers: a file wins over its imports, later imports over earlier ones, at any depth |
| `BlobCodec.Decode` | core/lib/basic_types/src/basic_fri_types.rs:69-95 | filling the fixed array in a loop computes the specified value or error; what the value holds is stated by `EncodedIsPayloadAndZeros` |
| `BlobCodec.ChunksAreFull` | core/lib/basic_types/src/basic_fri_types.rs:69-95 | all pieces but the last are full, the last is not empty, and there are just enough |
| `BlobCodec.ChunksOfPadded` | core/lib/basic_types/src/basic_fri_types.rs:69-95 | resized pieces put together are the padded payload, which is cut into the same pieces |
| `BlobCodec.PaddingIsMinimal` | core/lib/basic_types/src/basic_fri_types.rs:69-95 | the padding is the shortest that reaches a whole number of blobs |
| `BlobCodec.DecodeFailsExactlyAboveLimit` | core/lib/basic_types/src/basic_fri_types.rs:69-95 | decoding fails if and only if the payload exceeds 2031616 bytes, and the error is the least number of blobs that hold it |
| `BlobCodec.EncodeAfterDecode` | core/lib/basic_types/src/basic_fri_types.rs:65-95 | encoding a decoded payload gives the padded payload |
| `BlobCodec.EncodedIsPayloadAndZeros` | core/lib/basic_types/src/basic_fri_types.rs:65-95 | encoding a decoded payload gives the payload, then zero bytes only, up to the least multiple of 126976 bytes that holds it |
| `BlobCodec.DecodeOfPadded` | core/lib/basic_types/src/basic_fri_types.rs:69-95 | padding a payload does not change what it decodes to |
| `BlobCodec.DecodeAlikeExactlyWhenPaddedAlike` | core/lib/basic_types/src/basic_fri_types.rs:69-95 | two payloads decode alike if and only if they are equal after padding |
| `BlobCodec.DecodedIsCanonical` | core/lib/basic_types/src/basic_fri_types.rs:59-95 | decoding and the empty constructor build canonical values only |
| `BlobCodec.DecodeAfterEncode` | core/lib/basic_types/src/basic_fri_types.rs:65-95 | decoding an encoded value is the identity if and only if the value is canonical |
| `JobCounts.NewEntryKeepsRow` | core/lib/basic_types/src/basic_fri_types.rs:308-354 | exactly rows with a known status and version make entries; rows of round 2 count for circuit 2, and all numbers that fit are kept |
| `JobCounts.NewEntryWrapsAround` | core/lib/basic_types/src/basic_fri_types.rs:308-354 | numbers that do not fit wrap around: rows that differ by multiples of what their columns hold make the same entry |
| `JobCounts.RoundTwoIsCircuitTwoExactlyWhen` | core/lib/basic_types/src/basic_fri_types.rs:308-354 | an entry of round 2 counts for circuit 2 if and only if the row has round 2 or a circuit that narrows to 2; a row makes such an entry if and only if its round narrows to 2 |
| `JobCounts.WideRoundKeepsCircuit` | core/lib/basic_types/src/basic_fri_types.rs:308-354 | a row of round 258 makes an entry of round 2 for another circuit |
| `JobCounts.CircuitProverStats.constructor` | core/lib/basic_types/src/basic_fri_types.rs:266-297 | inserting one by one gives a zero for every circuit that is always reported |
| `JobCounts.CircuitProverStats.AddCount` | core/lib/basic_types/src/basic_fri_types.rs:251-264 | one key grows by the count as machine words, all other keys stay |
| `JobCounts.AddEntryTo` | core/lib/basic_types/src/basic_fri_types.rs:212-225 | updating the entry's object in place updates the abstract mapping for its version and no other |
| `JobCounts.FromEntries` | core/lib/basic_types/src/basic_fri_types.rs:212-225 | the objects built in place hold the aggregate of the entries |
| `JobCounts.AggregateConserves` | core/lib/basic_types/src/basic_fri_types.rs:212-264 | every version and key holds the sum of the matching entries; versions are those seen, keys the defaults and those seen |
| `JobCounts.DefaultsAreZero` | core/lib/basic_types/src/basic_fri_types.rs:266-297 | the default table has exactly the always-reported keys, all zero |
| `JobCounts.SumIsOrderFree` | core/lib/basic_types/src/basic_fri_types.rs:212-225 | the sum of matching entries does not depend on their order |
| `JobCounts.AggregateIsOrderFree` | core/lib/basic_types/src/basic_fri_types.rs:212-225 | any permutation of the entries gives the same result |
| `PackedVersion.ShrDivides` | core/lib/basic_types/src/protocol_version.rs:299-314 | shifting the four limbs right by 32 divides the number they stand for |
| `PackedVersion.ShlMultiplies` | core/lib/basic_types/src/protocol_version.rs:299-314 | shifting the four limbs left by 32 multiplies it, as long as no bit is lost at the top |
| `PackedVersion.PackIsArithmetic` | core/lib/basic_types/src/protocol_version.rs:311-314 | the packed word stands for minor times two to the 32 plus patch, below two to the 48 |
| `PackedVersion.UnpackIsArithmetic` | core/lib/basic_types/src/protocol_version.rs:299-309 | unpacking any word takes the low 48 bits of its number apart and succeeds exactly on known versions |
| `PackedVersion.UnpackAfterPack` | core/lib/basic_types/src/protocol_version.rs:299-314 | unpack after pack is the identity on every version |
| `PackedVersion.PackAfterUnpack` | core/lib/basic_types/src/protocol_version.rs:299-314 | pack after a successful unpack is the input modulo two to the 48 |
| `PackedVersion.PackIsMonotone` | core/lib/basic_types/src/protocol_version.rs:311-314 | packed words are ordered as the versions are, both ways |
| `PackedVersion.PatchSurvivesExactlyWhenItFits` | core/lib/basic_types/src/protocol_version.rs:86-91 | packing a minor version with a machine-word patch unpacks to the same version if and only if the patch fits 32 bits |
| `PackedVersion.PackSemverAgrees` | infrastructure/protocol-upgrade/src/utils.ts:66-76 | the script packs every version to the node's number, which a double holds exactly |
| `Strings.JoinAfterSplit` | core/lib/basic_types/src/protocol_version.rs:339-370 | joining with a separator undoes splitting at it |
| `VersionText.ParseAfterPrint` | core/lib/basic_types/src/protocol_version.rs:317-370 | parsing the printed form returns every version |
| `VersionText.ParsesExactlyWhen` | core/lib/basic_types/src/protocol_version.rs:339-370 | a text is read as a version if and only if it is three numbers with dots between, each digits after at most one plus sign: zero, at most 25, and at most 32 bits |
| `VersionText.MajorIsRefusedExactlyWhen` | core/lib/basic_types/src/protocol_version.rs:339-370 | the error for the major version is given if and only if the first of three parts is a 16-bit number other than zero |
| `VersionText.FormatIsRefusedExactlyWhen` | core/lib/basic_types/src/protocol_version.rs:339-370 | the format error is given if and only if there are not three parts, or the minor version is a 16-bit number above 25 |
| `VersionText.PrintAfterParseIsStable` | core/lib/basic_types/src/protocol_version.rs:317-370 | for every accepted text, printing and parsing again gives the same version, also with leading zeros or a plus sign |
| `VersionText.PrintIsIdentityExactlyOnCanonical` | core/lib/basic_types/src/protocol_version.rs:317-370 | printing returns an accepted text unchanged if and only if its three parts are canonical numbers |
| `VersionText.ParseIntAgrees` | infrastructure/protocol-upgrade/src/utils.ts:78-81 | what the node reads as a number the script reads as the same number |
| `VersionText.ParseIntReadsPrefix` | infrastructure/protocol-upgrade/src/utils.ts:78-81 | the script skips space, takes a sign and reads as many digits as there are |
| `VersionText.ParseIntReadsHex` | infrastructure/protocol-upgrade/src/utils.ts:78-81 | after a hexadecimal prefix it reads base sixteen in either letter case |
| `VersionText.MajorIsRefusedByBoth` | infrastructure/protocol-upgrade/src/utils.ts:69-81 | a text whose major version the node refuses cannot be packed by the script either |
| `VersionText.ScriptsAgreeWithNode` | infrastructure/protocol-upgrade/src/utils.ts:66-81 | on every text that the node accepts, the script reads and packs the same version |
| `RetryLoop.StreakCountsRow` | core/bin/zksync_tee_prover/src/tee_prover.rs:183-212 | the streak is exactly the number of retriable failures in a row at the end of the trace |
| `RetryLoop.CounterTellsGivingUp` | core/bin/zksync_tee_prover/src/tee_prover.rs:199-204 | the loop gives up at a turn exactly on an error that is not retriable or on failure number max_retries + 1 in a row |
| `RetryLoop.FailedVerificationEnds` | core/bin/zksync_tee_prover/src/tee_prover.rs:114-134 | a job that does not verify ends the loop whatever came before; after a verified job it ends if and only if submitting fails for good or too often in a row |
| `RetryLoop.JobRequestErrorEnds` | core/bin/zksync_tee_prover/src/tee_prover.rs:114-134 | an error of the job request ends the loop if and only if it is not retriable or the retries are used up |
| `RetryLoop.IdleTurnResets` | core/bin/zksync_tee_prover/src/tee_prover.rs:129-132 | a turn without a pending job never gives up, resets the counter and pauses for the initial backoff |
| `RetryLoop.ProvedTurnResets` | core/bin/zksync_tee_prover/src/tee_prover.rs:114-134 | a turn that submits a proof never gives up, resets the counter and does not pause |
| `RetryLoop.TeeProver.constructor` | core/bin/zksync_tee_prover/src/tee_prover.rs:174-175 | the loop starts with counter one and the initial backoff |
| `RetryLoop.TeeProver.TakeTurn` | core/bin/zksync_tee_prover/src/tee_prover.rs:183-217 | one turn keeps the counter and the backoff those of the failures in a row, resets both on success, and pauses unless a proof was submitted |
| `RetryLoop.TeeProver.Run` | core/bin/zksync_tee_prover/src/tee_prover.rs:174-218 | over every trace the loop ends exactly at the first stop signal or giving-up turn, and otherwise has the counter, backoff and pauses of the trace |
| `RetryLoop.BackoffIsExponentialExactlyWhen` | core/bin/zksync_tee_prover/src/tee_prover.rs:206-209 | the backoff is the capped exponential for every number of failures if and only if the multiplier is at least one, the first backoff is within the cap, or the cap is zero |
| `RetryLoop.CappedIsExponential` | core/bin/zksync_tee_prover/src/tee_prover.rs:206-209 | under that condition the closed form holds after any number of failures |
| `RetryLoop.CapShrinks` | core/bin/zksync_tee_prover/src/tee_prover.rs:206-209 | without it the second backoff is already below the closed form |
| `RetryLoop.FirstPauseIsInitialExactlyWhen` | core/bin/zksync_tee_prover/src/tee_prover.rs:206-217 | the pause after a first failure is the multiplied and capped backoff, and is the initial one if and only if that is zero, the multiplier is one within the cap, or the cap is the initial backoff |
| `RetryLoop.DefaultFirstPause` | core/bin/zksync_tee_prover/src/tee_prover.rs:150-159 | with the default configuration the first retry waits two seconds |
| `IntrinsicPrice.PricesCover` | core/bin/system-constants-generator/src/intrinsic_costs.rs:153-211 | the computed prices cover the overhead of every single transaction |
| `IntrinsicPrice.PricesBoundEveryBatch` | core/bin/system-constants-generator/src/intrinsic_costs.rs:153-211 | for every batch size, consumption is at most the bootloader's share plus what users paid plus the intrinsic price of each transaction |
| `IntrinsicPrice.PricesAreLeast` | core/bin/system-constants-generator/src/intrinsic_costs.rs:153-211 | a price covers every transaction if and only if it is at least the computed one |
| `IntrinsicPrice.BootloaderShareIsLeast` | core/bin/system-constants-generator/src/intrinsic_costs.rs:171-211 | a share of the bootloader pays, with users and intrinsic prices, for batches of every size if and only if it is at least the computed one |
| `IntrinsicPrice.OverheadsFailExactlyWhen` | core/bin/system-constants-generator/src/intrinsic_costs.rs:188-199 | the sanity check passes if and only if the second and the third transaction are covered by the same prices of gas and of pubdata; gas is complained about first |

## Left out

- Chunk counts from 2^31 on: `core/lib/dal/src/snapshots_dal.rs` casts them to 32 bits; the model lets initialisation fail instead.
- Several creators at once: as `core/bin/snapshots_creator/src/main.rs` says, one process at a time; requests of stopped processes may still arrive.
- Changes of the bucket between runs: file paths use one storage prefix.
- Deleting snapshots, pruning and reverting blocks: the tables of the model only grow, by blocks, batches and tree data (`NodeAppendsBatch`, `NodeAddsTreeData`).
- Byte formats of blobs (protobuf, gzip) and key preimages of version 0: a blob is a version tag and a set of logs.
- The tables are assumed well formed: logs in execution order, 256-bit keys, enumeration from one (`core/lib/dal/src/storage_logs_dedup_dal.rs:88-91`).
- The replica is the same database as the master in the model: a replica that lags behind is not modelled.
- How long a request waits for a connection: waiting too long is an interruption like any other.
- Fairness and wake-ups of the semaphore and the pools: that a step is enabled and how many are needed is proved, not that a scheduler makes them.
- Metrics other than the chunks-left gauge, tracing and the event listeners of tests.
- ABI decoding of calldata: an arbitrary decoder is a parameter; execution of a forced deployment sets the code at its address.
- `printSummary`, change summaries and the timestamps of upgrade details.
- The merge library of the config loader: written out as recursive replacement of leaves and arrays and merging of tables; dates, buffers and nested arrays are not modelled.
- TOML and dotenv parsing and path normalisation: files are given parsed, paths are compared as strings; upper and lower case are ASCII only; object keys keep the order they are given in.
- The kinds of integer parsing errors of a version text: all are one error.
- Rounding of the 32-bit float multiplier: backoffs are reals.
- Registration of the attestation, proof generation and signatures of the TEE prover: a step has an arbitrary outcome.
- VM execution and the assertions of the constants generator outside the intrinsic prices: measurements are an arbitrary monotone function.
- Node builders, command lines, contract verification, generated bindings, enum tables and shell scripts: they wire libraries together or list constants, and keep no state of their own.
