/** What interrupted runs leave behind: the outcome of one uninterrupted run, and nothing outside
    the requested batch. */
module SnapshotRefinement {
  import opened Wrappers
  import opened KeyChunks
  import opened StorageHistory
  import opened ObjectKeys
  import opened SnapshotProtocol
  import opened SnapshotSafety
  import opened SnapshotCompletion
  import opened Runs

  // ---------------------------------------------------------------------------------------------
  // What is read for a batch stays the same over a run
  // ---------------------------------------------------------------------------------------------

  /** Two databases give the same answers about a batch. */
  ghost predicate SameAbout(db: Db, other: Db, batch: nat, block: nat) {
    && EndsAt(db, batch, block) && EndsAt(other, batch, block)
    && (forall range :: ChunkLogs(other, block, batch, range) == ChunkLogs(db, block, batch, range))
    && FactoryDepsUpTo(other, block) == FactoryDepsUpTo(db, block)
    && (forall count: nat :: IsKeysCount(db, batch, count) <==> IsKeysCount(other, batch, count))
  }

  lemma GrowthKeepsAnswers(db: Db, next: Db, batch: nat, block: nat)
    requires Grows(db, next) && EndsAt(db, batch, block)
    ensures SameAbout(db, next, batch, block)
  {
    QueriesAreStable(db, next, batch, block);
    forall count: nat ensures IsKeysCount(db, batch, count) <==> IsKeysCount(next, batch, count) {
      KeysCountIsStable(db, next, batch, count);
    }
  }

  lemma SameAboutIsTransitive(db1: Db, db2: Db, db3: Db, batch: nat, block: nat)
    requires SameAbout(db1, db2, batch, block) && SameAbout(db2, db3, batch, block)
    ensures SameAbout(db1, db3, batch, block)
  {
  }

  ghost predicate StillAnswers(s: State, db: Db, batch: nat, block: nat) {
    Inv(s) && SameAbout(db, s.store.db, batch, block)
  }

  lemma StepKeepsAnswers(s: State, s': State, db: Db, batch: nat, block: nat)
    ensures StillAnswers(s, db, batch, block) && Next(s, s') ==> StillAnswers(s', db, batch, block)
  {
    if StillAnswers(s, db, batch, block) && Next(s, s') {
      NextKeepsInv(s, s');
      GrowthKeepsAnswers(s.store.db, s'.store.db, batch, block);
      SameAboutIsTransitive(db, s.store.db, s'.store.db, batch, block);
    }
  }

  /** From the time a batch is stored, the tables give the same answers about it. */
  lemma RunKeepsAnswers(run: seq<State>, j: nat, k: nat, batch: nat, block: nat)
    requires IsRun(run) && Inv(run[0]) && j <= k < |run| && EndsAt(run[j].store.db, batch, block)
    ensures SameAbout(run[j].store.db, run[k].store.db, batch, block)
  {
    RunKeepsInv(run, j);
    RunHasSteps(run);
    var db := run[j].store.db;
    forall s, s' ensures StillAnswers(s, db, batch, block) && Next(s, s') ==> StillAnswers(s', db, batch, block) {
      StepKeepsAnswers(s, s', db, batch, block);
    }
    assert StillAnswers(run[j], db, batch, block);
    HoldsAlong(run, j, k, s => StillAnswers(s, db, batch, block), (s, s') => Next(s, s'));
    assert StillAnswers(run[k], db, batch, block);
  }

  // ---------------------------------------------------------------------------------------------
  // The outcome
  // ---------------------------------------------------------------------------------------------

  /** The finished row of a snapshot. */
  function FinishedRow(batch: nat, version: Version, chunkCount: nat): Row {
    Row(version, FilePath(BUCKET, FactoryDeps(batch)),
        seq(chunkCount, i requires 0 <= i => FilePath(BUCKET, StorageLogs(batch, i))))
  }

  /** The durable outcome that a config has for a batch: the row it chooses with every path, and
      under each name the content read from the database. */
  ghost predicate IsOutcome(db: Db, batch: nat, block: nat, config: Config, store: Store) {
    exists version, chunkCount: nat :: HasOutcome(db, batch, block, config, store, version, chunkCount)
  }

  ghost predicate HasOutcome(db: Db, batch: nat, block: nat, config: Config, store: Store,
                             version: Version, chunkCount: nat) {
    && Chooses(db, batch, config, version, chunkCount) && chunkCount <= U64_MAX
    && batch in store.rows && store.rows[batch] == FinishedRow(batch, version, chunkCount)
    && Holds(store, FactoryDeps(batch), DepsContent(FactoryDepsUpTo(db, block)))
    && forall i :: 0 <= i < chunkCount ==> Holds(store, StorageLogs(batch, i),
         LogsContent(version, ChunkLogs(db, block, batch, UniformHashedKeysChunk(i, chunkCount))))
  }

  lemma CompleteRowIsFinished(store: Store, batch: nat)
    requires StoreInv(store) && batch in store.rows && IsComplete(store.rows[batch])
    ensures store.rows[batch] == FinishedRow(batch, store.rows[batch].version, |store.rows[batch].paths|)
    ensures forall i: nat :: i < |store.rows[batch].paths| ==> HasBlob(store, StorageLogs(batch, i))
  {
    assert RowIsGood(store, batch);
    var row := store.rows[batch];
    forall i: nat | i < |row.paths|
      ensures row.paths[i] == FilePath(BUCKET, StorageLogs(batch, i)) && HasBlob(store, StorageLogs(batch, i))
    {
      assert PathIsBacked(store, batch, i, row.paths[i]);
    }
    assert row.paths == FinishedRow(batch, row.version, |row.paths|).paths;
  }

  lemma CompleteStoreIsOutcome(store: Store, db: Db, batch: nat, block: nat)
    requires StoreInv(store) && batch in store.rows && IsComplete(store.rows[batch])
    requires SameAbout(db, store.db, batch, block)
    ensures batch in store.creators
    ensures HasOutcome(db, batch, block, store.creators[batch], store,
      store.rows[batch].version, |store.rows[batch].paths|)
  {
    CompleteRowIsFinished(store, batch);
    assert RowIsGood(store, batch);
    var row := store.rows[batch];
    assert IsExpected(store, FactoryDeps(batch), store.blobs[EncodeKey(FactoryDeps(batch))]);
    forall i: nat | i < |row.paths|
      ensures Holds(store, StorageLogs(batch, i),
        LogsContent(row.version, ChunkLogs(db, block, batch, UniformHashedKeysChunk(i, |row.paths|))))
    {
      assert IsExpected(store, StorageLogs(batch, i), store.blobs[EncodeKey(StorageLogs(batch, i))]);
    }
  }

  /** However often runs are interrupted and whatever configs they use, a complete snapshot is
      the outcome of the config under which its row was inserted, by the tables of any state since
      the batch was stored. */
  lemma CompleteRunIsOutcome(run: seq<State>, j: nat, k: nat, batch: nat, block: nat)
    requires IsRun(run) && Init(run[0]) && j <= k < |run| && EndsAt(run[j].store.db, batch, block)
    requires batch in run[k].store.rows && IsComplete(run[k].store.rows[batch])
    ensures batch in run[k].store.creators
    ensures IsOutcome(run[j].store.db, batch, block, run[k].store.creators[batch], run[k].store)
  {
    InitIsGood(run[0]);
    RunKeepsInv(run, k);
    RunKeepsAnswers(run, j, k, batch, block);
    CompleteStoreIsOutcome(run[k].store, run[j].store.db, batch, block);
  }

  /** The same row, and the same blobs under the names the row leads to. */
  ghost predicate SameSnapshot(store1: Store, store2: Store, batch: nat) {
    && batch in store1.rows && batch in store2.rows && store1.rows[batch] == store2.rows[batch]
    && SameBlob(store1, store2, FactoryDeps(batch))
    && forall i: nat :: i < |store1.rows[batch].paths| ==> SameBlob(store1, store2, StorageLogs(batch, i))
  }

  predicate SameBlob(store1: Store, store2: Store, key: BlobKey) {
    HasBlob(store1, key) && HasBlob(store2, key) && store1.blobs[EncodeKey(key)] == store2.blobs[EncodeKey(key)]
  }

  lemma OutcomeIsUnique(db: Db, batch: nat, block: nat, config: Config, store1: Store, store2: Store)
    requires IsOutcome(db, batch, block, config, store1) && IsOutcome(db, batch, block, config, store2)
    ensures SameSnapshot(store1, store2, batch)
  {
  }

  // ---------------------------------------------------------------------------------------------
  // Comparison with one uninterrupted run
  // ---------------------------------------------------------------------------------------------

  /** The row of the batch can only come from the config that is running. */
  ghost predicate CreatedBy(s: State, batch: nat, config: Config) {
    && (s.process.Running? ==> s.process.config == config)
    && (batch in s.store.creators ==> s.store.creators[batch] == config)
  }

  lemma ProcessKeepsCreator(s: State, s': State, batch: nat, config: Config)
    ensures CreatedBy(s, batch, config) && ProcessStep(s, s') ==> CreatedBy(s', batch, config)
  {
  }

  lemma SoloStepKeepsCreator(s: State, s': State, batch: nat, config: Config)
    ensures CreatedBy(s, batch, config) && SoloStep(s, s', batch) ==> CreatedBy(s', batch, config)
  {
    ProcessKeepsCreator(s, s', batch, config);
  }

  lemma SoloRunHasOneCreator(run: seq<State>, k: nat, batch: nat, config: Config)
    requires IsSoloRun(run, batch) && CreatedBy(run[0], batch, config) && k < |run|
    ensures CreatedBy(run[k], batch, config)
  {
    forall i | 0 <= i < k ensures SoloStep(run[i], run[i + 1], batch) {
      assert SoloStepAt(run, i, batch);
    }
    forall s, s' ensures CreatedBy(s, batch, config) && SoloStep(s, s', batch) ==> CreatedBy(s', batch, config) {
      SoloStepKeepsCreator(s, s', batch, config);
    }
    HoldsAlong(run, 0, k, s => CreatedBy(s, batch, config), (s, s') => SoloStep(s, s', batch));
  }

  lemma SoloRunIsRun(run: seq<State>, batch: nat)
    requires IsSoloRun(run, batch)
    ensures IsRun(run)
  {
    forall k | 0 <= k < |run| - 1 ensures StepAt(run, k) {
      assert SoloStepAt(run, k, batch);
      StepsAreAlone(run[k], run[k + 1], batch);
      AloneStepIsStep(run[k], run[k + 1]);
    }
  }

  /** Where a process starts on a batch without a row, whatever else the store holds, an
      uninterrupted run to the end produces the outcome of its config. */
  lemma SoloOutcome(solo: seq<State>, batch: nat, block: nat, config: Config)
    requires IsSoloRun(solo, batch) && Inv(solo[0]) && EndsAt(solo[0].store.db, batch, block)
    requires solo[0].process == Running(config, ReadSealed(false)) && batch !in solo[0].store.rows
    requires IsFinished(solo[|solo| - 1], batch)
    ensures IsOutcome(solo[0].store.db, batch, block, config, solo[|solo| - 1].store)
  {
    var last := |solo| - 1;
    SoloRunIsRun(solo, batch);
    RunKeepsInv(solo, last);
    RunKeepsAnswers(solo, 0, last, batch, block);
    SoloRunHasOneCreator(solo, last, batch, config);
    CompleteStoreIsOutcome(solo[last].store, solo[0].store.db, batch, block);
  }

  /** Configs that choose alike: the concurrency and the way a batch is asked for do not matter. */
  predicate ChoosesAlike(c1: Config, c2: Config) {
    c1.version == c2.version && c1.chunkSize == c2.chunkSize && c1.minChunks == c2.minChunks
  }

  lemma AlikeHaveOneOutcome(db: Db, batch: nat, block: nat, c1: Config, c2: Config, store: Store)
    requires ChoosesAlike(c1, c2) && IsOutcome(db, batch, block, c1, store)
    ensures IsOutcome(db, batch, block, c2, store)
  {
    var version, chunkCount: nat :| HasOutcome(db, batch, block, c1, store, version, chunkCount);
    assert HasOutcome(db, batch, block, c2, store, version, chunkCount);
  }

  /** Crash refinement: take any run, with any interruptions and changes of config, that ends with
      a complete snapshot of a batch. Go back to any state since the batch was stored in which
      there was no row of it, and let one process start there with the choices of the config that
      inserted the row. Every way in which that process runs to its end without interruption
      leaves the same row and the same blobs. */
  lemma InterruptedRunsRefineUninterrupted(run: seq<State>, j: nat, k: nat, batch: nat, config: Config, solo: seq<State>)
    requires IsRun(run) && Init(run[0]) && j <= k < |run|
    requires Ended(run[j].store.db, batch) && batch !in run[j].store.rows
    requires batch in run[k].store.rows && IsComplete(run[k].store.rows[batch])
    requires batch in run[k].store.creators && ChoosesAlike(run[k].store.creators[batch], config)
    requires CompletesFrom(StartedAt(run[j], config), batch, solo)
    ensures SameSnapshot(run[k].store, solo[|solo| - 1].store, batch)
  {
    InitIsGood(run[0]);
    RunKeepsInv(run, j);
    var db := run[j].store.db;
    var block := db.batches[batch].lastBlock.value;
    CompleteRunIsOutcome(run, j, k, batch, block);
    AlikeHaveOneOutcome(db, batch, block, run[k].store.creators[batch], config, run[k].store);
    SoloOutcome(solo, batch, block, config);
    OutcomeIsUnique(db, batch, block, config, run[k].store, solo[|solo| - 1].store);
  }

  lemma OutcomeCanBeStarted(db: Db, batch: nat, block: nat, config: Config, store: Store)
    requires EndsAt(db, batch, block) && db.batches[batch].hasTreeData && IsOutcome(db, batch, block, config, store)
    requires batch in store.rows && |store.rows[batch].paths| <= I32_MAX
    ensures CanInitialize(db, batch, config)
  {
  }

  /** And there is such a process: with tree data it can run to its end by itself. */
  lemma UninterruptedRunExists(run: seq<State>, j: nat, k: nat, batch: nat, config: Config) returns (solo: seq<State>)
    requires IsRun(run) && Init(run[0]) && j <= k < |run|
    requires Ended(run[j].store.db, batch) && batch !in run[j].store.rows && run[j].store.db.batches[batch].hasTreeData
    requires batch in run[k].store.rows && IsComplete(run[k].store.rows[batch])
    requires batch in run[k].store.creators && ChoosesAlike(run[k].store.creators[batch], config)
    requires config.l1Batch == Some(batch) && 0 < config.concurrency
    ensures CompletesFrom(StartedAt(run[j], config), batch, solo)
    ensures SameSnapshot(run[k].store, solo[|solo| - 1].store, batch)
  {
    InitIsGood(run[0]);
    RunKeepsInv(run, j);
    RecordedChunksAreStored(run, k, batch);
    var db := run[j].store.db;
    var block := db.batches[batch].lastBlock.value;
    CompleteRunIsOutcome(run, j, k, batch, block);
    AlikeHaveOneOutcome(db, batch, block, run[k].store.creators[batch], config, run[k].store);
    OutcomeCanBeStarted(db, batch, block, config, run[k].store);
    StartedIsReady(run[j], batch, config);
    CompletionIsReachable(StartedAt(run[j], config), batch);
    solo :| CompletesFrom(StartedAt(run[j], config), batch, solo);
    InterruptedRunsRefineUninterrupted(run, j, k, batch, config, solo);
  }

  // ---------------------------------------------------------------------------------------------
  // Where the creator of a row comes from
  // ---------------------------------------------------------------------------------------------

  ghost predicate WasRunning(run: seq<State>, k: nat, config: Config) {
    exists j :: 0 <= j <= k && j < |run| && run[j].process.Running? && run[j].process.config == config
  }

  /** Every insert that was made or is still in flight comes from a config that was running. */
  ghost predicate InsertsWereRunning(run: seq<State>, k: nat)
    requires k < |run|
  {
    && (forall b :: b in run[k].store.creators ==> WasRunning(run, k, run[k].store.creators[b]))
    && (forall write :: write in run[k].late && write.InsertRow? ==> WasRunning(run, k, write.config))
  }

  /** Creators and late inserts come from the running config or a late insert. */
  ghost predicate InsertsFromRunning(s: State, s': State) {
    && (forall b :: b in s'.store.creators ==>
          || (b in s.store.creators && s.store.creators[b] == s'.store.creators[b])
          || (s.process.Running? && s.process.config == s'.store.creators[b])
          || (exists write :: write in s.late && write.InsertRow? && write.config == s'.store.creators[b]))
    && (forall write :: write in s'.late && write.InsertRow? ==>
          write in s.late || (s.process.Running? && s.process.config == write.config))
  }

  lemma ProcessInsertsFromRunning(s: State, s': State)
    ensures ProcessStep(s, s') ==> InsertsFromRunning(s, s')
  {
  }

  lemma StepInsertsFromRunning(s: State, s': State)
    ensures Next(s, s') ==> InsertsFromRunning(s, s')
  {
    ProcessInsertsFromRunning(s, s');
  }

  /** All inserts, made or in flight, come from the given configs. */
  ghost predicate InsertsFrom(s: State, configs: set<Config>) {
    && (forall b :: b in s.store.creators ==> s.store.creators[b] in configs)
    && (forall write :: write in s.late && write.InsertRow? ==> write.config in configs)
  }

  predicate RunsUnder(s: State, configs: set<Config>) {
    s.process.Running? ==> s.process.config in configs
  }

  lemma StepKeepsInserts(s: State, s': State, configs: set<Config>)
    ensures InsertsFrom(s, configs) && Next(s, s') && RunsUnder(s, configs) ==> InsertsFrom(s', configs)
  {
    StepInsertsFromRunning(s, s');
  }

  /** A row was inserted under the config of one of the runs, and keeps that creator. */
  lemma CreatorWasRunning(run: seq<State>, k: nat)
    requires IsRun(run) && Init(run[0]) && k < |run|
    ensures InsertsWereRunning(run, k)
  {
    RunHasSteps(run);
    var configs := set j | 0 <= j <= k && run[j].process.Running? :: run[j].process.config;
    forall s, s' ensures InsertsFrom(s, configs) && Next(s, s') && RunsUnder(s, configs) ==> InsertsFrom(s', configs) {
      StepKeepsInserts(s, s', configs);
    }
    assert InsertsFrom(run[0], configs);
    HoldsAlong(run, 0, k, s => InsertsFrom(s, configs), (s, s') => Next(s, s') && RunsUnder(s, configs));
    assert InsertsFrom(run[k], configs);
  }

  // ---------------------------------------------------------------------------------------------
  // Other batches
  // ---------------------------------------------------------------------------------------------

  function WriteBatch(write: Write): nat {
    match write
    case PutBlob(key, _) => key.batch
    case InsertRow(batch, _, _) => batch
    case SetPath(batch, _, _) => batch
  }

  predicate PhaseTargets(phase: Phase, batch: nat) {
    match phase
    case ReadSealed(_) => true
    case ReadRow(b) => b == batch
    case Initialize(b, _) => b == batch
    case FindBlock(progress, _) => progress.batch == batch
    case LoadDeps(progress, _, _) => progress.batch == batch
    case StoreDeps(progress, _, _) => progress.batch == batch
    case Insert(progress, _, _) => progress.batch == batch
    case Chunks(progress, _, _, _) => progress.batch == batch
  }

  ghost predicate Targets(s: State, batch: nat) {
    && (forall write :: write in s.late ==> WriteBatch(write) == batch)
    && (s.process.Running? ==> s.process.config.l1Batch == Some(batch) && PhaseTargets(s.process.phase, batch))
  }

  predicate SameRowAt(store: Store, next: Store, other: nat) {
    && (other in store.rows <==> other in next.rows)
    && (other in store.rows ==> next.rows[other] == store.rows[other])
  }

  predicate SameBlobAt(store: Store, next: Store, key: BlobKey) {
    && (HasBlob(store, key) <==> HasBlob(next, key))
    && (HasBlob(store, key) ==> next.blobs[EncodeKey(key)] == store.blobs[EncodeKey(key)])
  }

  /** Rows and blobs of all other batches are what they were. */
  ghost predicate SameElsewhere(store: Store, next: Store, batch: nat) {
    && (forall other :: other != batch ==> SameRowAt(store, next, other))
    && (forall key: BlobKey :: key.batch != batch ==> SameBlobAt(store, next, key))
  }

  lemma ApplyStaysInBatch(store: Store, write: Write, batch: nat)
    requires WriteBatch(write) == batch
    ensures SameElsewhere(store, Apply(store, write), batch)
  {
    var next := Apply(store, write);
    forall key: BlobKey | key.batch != batch ensures SameBlobAt(store, next, key) {
      if write.PutBlob? && EncodeKey(key) == EncodeKey(write.key) {
        EncodeKeyIsInjective(key, write.key);
      }
    }
  }

  lemma TaskStepStaysInBatch(s: State, s': State, chunkId: nat, batch: nat)
    requires Targets(s, batch) && TaskStep(s, s', chunkId)
    ensures Targets(s', batch) && SameElsewhere(s.store, s'.store, batch)
  {
    var Chunks(progress, block, tasks, left) := s.process.phase;
    var write := TaskWrite(progress, chunkId, tasks[chunkId]);
    if write.Some? {
      ApplyStaysInBatch(s.store, write.value, batch);
    }
  }

  lemma MainStepStaysInBatch(s: State, s': State, batch: nat)
    requires Targets(s, batch) && MainStep(s, s')
    ensures Targets(s', batch) && SameElsewhere(s.store, s'.store, batch)
  {
    if PutDeps(s, s') {
      ApplyStaysInBatch(s.store, DepsWrite(s.process.phase.progress, s.process.phase.deps), batch);
    } else if AddSnapshot(s, s') && s'.process.Running? {
      ApplyStaysInBatch(s.store, RowWrite(s.process.config, s.process.phase.progress), batch);
    }
  }

  lemma StepStaysInBatch(s: State, s': State, batch: nat)
    requires Targets(s, batch) && Next(s, s')
    requires s'.process.Running? ==> s'.process.config.l1Batch == Some(batch)
    ensures Targets(s', batch) && SameElsewhere(s.store, s'.store, batch)
  {
    if MainStep(s, s') {
      MainStepStaysInBatch(s, s', batch);
    } else if ProcessStep(s, s') {
      var chunkId: nat :| TaskStep(s, s', chunkId);
      TaskStepStaysInBatch(s, s', chunkId, batch);
    } else if Land(s, s') {
      var write :| LandOf(s, s', write);
      ApplyStaysInBatch(s.store, write, batch);
    }
  }

  /** Runs that are all asked for one batch never touch the rows or blobs of another. */
  lemma {:induction false} OtherBatchesAreUntouched(run: seq<State>, k: nat, batch: nat)
    requires IsRun(run) && Targets(run[0], batch) && k < |run|
    requires forall j :: 0 <= j < |run| && run[j].process.Running? ==> run[j].process.config.l1Batch == Some(batch)
    ensures Targets(run[k], batch) && SameElsewhere(run[0].store, run[k].store, batch)
  {
    if k > 0 {
      OtherBatchesAreUntouched(run, k - 1, batch);
      assert StepAt(run, k - 1);
      StepStaysInBatch(run[k - 1], run[k], batch);
      SameElsewhereIsTransitive(run[0].store, run[k - 1].store, run[k].store, batch);
    }
  }

  lemma SameElsewhereIsTransitive(store1: Store, store2: Store, store3: Store, batch: nat)
    requires SameElsewhere(store1, store2, batch) && SameElsewhere(store2, store3, batch)
    ensures SameElsewhere(store1, store3, batch)
  {
    forall other | other != batch ensures SameRowAt(store1, store3, other) {
      assert SameRowAt(store1, store2, other) && SameRowAt(store2, store3, other);
    }
    forall key: BlobKey | key.batch != batch ensures SameBlobAt(store1, store3, key) {
      assert SameBlobAt(store1, store2, key) && SameBlobAt(store2, store3, key);
    }
  }
}
