/** Which batch a process works on, when it resumes, starts or skips a snapshot, and what it holds
    while it makes a request. */
module SnapshotDecisions {
  import opened Wrappers
  import opened StorageHistory
  import opened ObjectKeys
  import opened SnapshotProtocol
  import opened SnapshotSafety
  import opened SnapshotLiveness
  import opened SnapshotRefinement
  import opened Runs

  // ---------------------------------------------------------------------------------------------
  // The batch
  // ---------------------------------------------------------------------------------------------

  /** The process at the time it has read the tables to pick a batch. */
  predicate IsPicking(s: State) {
    s.process.Running? && s.process.phase == ReadSealed(true)
  }

  function WithPhase(s: State, phase: Phase): State
    requires s.process.Running?
  {
    s.(process := Running(s.process.config, phase))
  }

  function WithOutcome(s: State, outcome: Outcome): State {
    s.(process := Idle(outcome))
  }

  lemma OnlyPickingSteps(s: State, s': State)
    requires IsPicking(s)
    ensures ProcessStep(s, s') <==> PickBatch(s, s')
  {
  }

  /** Without a request the process goes on with a batch exactly when the next one is the last that
      is stored, and fails exactly when nothing is stored after batch zero. */
  lemma PickWithoutRequest(s: State, batch: nat)
    requires IsPicking(s) && s.process.config.l1Batch.None?
    ensures
      var batches := s.store.db.batches;
      && (ProcessStep(s, WithPhase(s, ReadRow(batch))) <==>
            batch + 1 in batches && forall b :: b in batches ==> b <= batch + 1)
      && (ProcessStep(s, WithOutcome(s, Failed)) <==> forall b :: b in batches ==> b == 0)
    ensures forall s' :: ProcessStep(s, s') ==> s' == WithOutcome(s, Failed) || IsPickOf(s, s')
  {
    var db := s.store.db;
    OnlyPickingSteps(s, WithPhase(s, ReadRow(batch)));
    OnlyPickingSteps(s, WithOutcome(s, Failed));
    if batch + 1 in db.batches && forall b :: b in db.batches ==> b <= batch + 1 {
      assert IsSealedBatch(db, batch + 1) && PickBelow(s, WithPhase(s, ReadRow(batch)), batch + 1);
    }
    if forall b :: b in db.batches ==> b == 0 {
      if db.batches != map[] {
        var b :| b in db.batches;
        assert IsSealedBatch(db, 0) && PickBelow(s, WithOutcome(s, Failed), 0);
      }
    }
    forall s' | ProcessStep(s, s') ensures s' == WithOutcome(s, Failed) || IsPickOf(s, s') {
      PickStep(s, s');
    }
  }

  /** The process has moved on to look at the row of some batch, and changed nothing. */
  predicate IsPickOf(s: State, s': State)
    requires s.process.Running?
  {
    s'.process.Running? && s'.process.phase.ReadRow? && s' == WithPhase(s, ReadRow(s'.process.phase.batch))
  }

  lemma PickStep(s: State, s': State)
    requires IsPicking(s) && ProcessStep(s, s')
    ensures s' == WithOutcome(s, Failed) || IsPickOf(s, s')
  {
    OnlyPickingSteps(s, s');
  }

  /** With a request it goes on with that batch and no other, exactly when the batch or a later one
      is stored, and fails exactly otherwise. */
  lemma PickRequested(s: State, requested: nat, batch: nat)
    requires IsPicking(s) && s.process.config.l1Batch == Some(requested)
    ensures
      var batches := s.store.db.batches;
      && (ProcessStep(s, WithPhase(s, ReadRow(batch))) <==> batch == requested && exists b :: b in batches && requested <= b)
      && (ProcessStep(s, WithOutcome(s, Failed)) <==> forall b :: b in batches ==> b < requested)
    ensures forall s' :: ProcessStep(s, s') ==> s' == WithOutcome(s, Failed) || IsPickOf(s, s')
  {
    var db := s.store.db;
    OnlyPickingSteps(s, WithPhase(s, ReadRow(batch)));
    OnlyPickingSteps(s, WithOutcome(s, Failed));
    if db.batches.Keys != {} {
      var sealed := LastBatchExists(db.batches.Keys);
      assert IsSealedBatch(db, sealed);
      if requested <= sealed {
        assert PickBelow(s, WithPhase(s, ReadRow(requested)), sealed);
      } else {
        assert PickBelow(s, WithOutcome(s, Failed), sealed);
      }
    } else {
      assert db.batches == map[];
    }
    forall s' | ProcessStep(s, s') ensures s' == WithOutcome(s, Failed) || IsPickOf(s, s') {
      PickStep(s, s');
    }
  }

  // ---------------------------------------------------------------------------------------------
  // The batch over a whole run
  // ---------------------------------------------------------------------------------------------

  /** The batch that a phase is about, once there is one. */
  function WorksOn(phase: Phase): Option<nat> {
    match phase
    case ReadSealed(_) => None
    case ReadRow(batch) => Some(batch)
    case Initialize(batch, _) => Some(batch)
    case FindBlock(progress, _) => Some(progress.batch)
    case LoadDeps(progress, _, _) => Some(progress.batch)
    case StoreDeps(progress, _, _) => Some(progress.batch)
    case Insert(progress, _, _) => Some(progress.batch)
    case Chunks(progress, _, _, _) => Some(progress.batch)
  }

  /** A batch that a config may work on: the one it asks for, or one with another stored above it. */
  predicate MayWorkOn(db: Db, config: Config, batch: nat) {
    match config.l1Batch
    case Some(requested) => batch == requested
    case None => batch + 1 in db.batches
  }

  /** Processes, rows and late inserts are about batches that their configs may work on. */
  ghost predicate WorkIsAllowed(s: State) {
    && (s.process.Running? && WorksOn(s.process.phase).Some? ==>
          MayWorkOn(s.store.db, s.process.config, WorksOn(s.process.phase).value))
    && (forall b :: b in s.store.creators ==> MayWorkOn(s.store.db, s.store.creators[b], b))
    && (forall write :: write in s.late && write.InsertRow? ==> MayWorkOn(s.store.db, write.config, write.batch))
  }

  lemma ReadingIsAllowed(s: State, s': State)
    ensures WorkIsAllowed(s) && (Connect(s, s') || PickBatch(s, s') || Decide(s, s') || Finish(s, s')) ==> WorkIsAllowed(s')
  {
  }

  lemma PreparingIsAllowed(s: State, s': State)
    ensures WorkIsAllowed(s) && (Prepare(s, s') || ResolveBlock(s, s') || ReadDeps(s, s')) ==> WorkIsAllowed(s')
  {
  }

  lemma WritingIsAllowed(s: State, s': State)
    ensures WorkIsAllowed(s) && (PutDeps(s, s') || AddSnapshot(s, s')) ==> WorkIsAllowed(s')
  {
  }

  lemma MainStepIsAllowed(s: State, s': State)
    ensures WorkIsAllowed(s) && MainStep(s, s') ==> WorkIsAllowed(s')
  {
    ReadingIsAllowed(s, s');
    PreparingIsAllowed(s, s');
    WritingIsAllowed(s, s');
  }

  lemma TaskStepIsAllowed(s: State, s': State, chunkId: nat)
    ensures WorkIsAllowed(s) && TaskStep(s, s', chunkId) ==> WorkIsAllowed(s')
  {
  }

  lemma StepIsAllowed(s: State, s': State)
    ensures WorkIsAllowed(s) && Next(s, s') ==> WorkIsAllowed(s')
  {
    MainStepIsAllowed(s, s');
    if WorkIsAllowed(s) && ProcessStep(s, s') && !MainStep(s, s') {
      var chunkId: nat :| TaskStep(s, s', chunkId);
      TaskStepIsAllowed(s, s', chunkId);
    }
  }

  /** In every reachable state a process that asks for a batch works on that batch only, a process
      that asks for none works below a stored batch, and so do the rows they insert. */
  lemma WorkStaysAllowed(run: seq<State>, k: nat)
    requires IsRun(run) && Init(run[0]) && k < |run|
    ensures WorkIsAllowed(run[k])
  {
    RunHasSteps(run);
    forall s, s' ensures WorkIsAllowed(s) && Next(s, s') ==> WorkIsAllowed(s') {
      StepIsAllowed(s, s');
    }
    assert WorkIsAllowed(run[0]);
    HoldsAlong(run, 0, k, s => WorkIsAllowed(s), (s, s') => Next(s, s'));
  }

  // ---------------------------------------------------------------------------------------------
  // Rows that a process finds
  // ---------------------------------------------------------------------------------------------

  /** Any step but the start of another process. */
  ghost predicate SameProcessStep(s: State, s': State) {
    ProcessStep(s, s') || Interrupt(s, s') || Land(s, s') || GrowTables(s, s')
  }

  /** A process without a request that looked at a batch when the given rows were there: it has gone
      further than looking only if the batch had no row. */
  ghost predicate LookedAt(s: State, batch: nat, rows: set<nat>) {
    && rows <= s.store.rows.Keys
    && (s.process.Running? ==>
          && s.process.config.l1Batch.None? && WorksOn(s.process.phase) == Some(batch)
          && (batch in rows ==> s.process.phase.ReadRow?))
  }

  /** The step leaves the rows and blobs of other batches alone, loses no row, and stays with its
      batch. */
  ghost predicate StaysInBatch(s: State, s': State, batch: nat)
    requires s.process.Running?
  {
    && SameElsewhere(s.store, s'.store, batch)
    && s.store.rows.Keys <= s'.store.rows.Keys
    && (s'.process.Running? ==> s'.process.config == s.process.config && WorksOn(s'.process.phase) == Some(batch))
  }

  lemma MainStaysInBatch(s: State, s': State, batch: nat)
    requires s.process.Running? && WorksOn(s.process.phase) == Some(batch) && MainStep(s, s')
    ensures StaysInBatch(s, s', batch)
  {
    if PutDeps(s, s') {
      ApplyStaysInBatch(s.store, DepsWrite(s.process.phase.progress, s.process.phase.deps), batch);
    } else if AddSnapshot(s, s') && s'.process.Running? {
      ApplyStaysInBatch(s.store, RowWrite(s.process.config, s.process.phase.progress), batch);
    }
  }

  lemma TaskStaysInBatch(s: State, s': State, chunkId: nat, batch: nat)
    requires s.process.Running? && WorksOn(s.process.phase) == Some(batch) && TaskStep(s, s', chunkId)
    ensures StaysInBatch(s, s', batch)
  {
    var write := TaskWrite(s.process.phase.progress, chunkId, s.process.phase.tasks[chunkId]);
    if write.Some? {
      ApplyStaysInBatch(s.store, write.value, batch);
    }
  }

  lemma ProcessStaysInBatch(s: State, s': State, batch: nat)
    requires s.process.Running? && WorksOn(s.process.phase) == Some(batch) && ProcessStep(s, s')
    ensures StaysInBatch(s, s', batch)
  {
    if MainStep(s, s') {
      MainStaysInBatch(s, s', batch);
    } else {
      var chunkId: nat :| TaskStep(s, s', chunkId);
      TaskStaysInBatch(s, s', chunkId, batch);
    }
  }

  lemma LookingStepSkips(s: State, s': State)
    requires s.process.Running? && s.process.phase.ReadRow? && s.process.config.l1Batch.None?
    requires s.process.phase.batch in s.store.rows && ProcessStep(s, s')
    ensures s' == WithOutcome(s, Skipped)
  {
  }

  lemma StepKeepsLook(s: State, s': State, batch: nat, rows: set<nat>)
    ensures LookedAt(s, batch, rows) && SameProcessStep(s, s') ==> LookedAt(s', batch, rows)
  {
    if LookedAt(s, batch, rows) && SameProcessStep(s, s') {
      if s.process.Running? && ProcessStep(s, s') {
        ProcessStaysInBatch(s, s', batch);
        if batch in rows {
          LookingStepSkips(s, s');
        }
      }
    }
  }

  /** A process that asks for no batch never changes a row that was there when it looked for one:
      from the time it looks until another process starts, whatever lands and however the tables
      grow meanwhile, each of its own steps leaves all those rows alone. */
  lemma FoundRowsAreKept(run: seq<State>, j: nat, k: nat, other: nat)
    requires IsRun(run) && j <= k < |run| - 1
    requires run[j].process.Running? && run[j].process.phase.ReadRow? && run[j].process.config.l1Batch.None?
    requires forall i :: j <= i < k ==> !Start(run[i], run[i + 1])
    requires ProcessStep(run[k], run[k + 1]) && other in run[j].store.rows
    ensures other in run[k].store.rows && other in run[k + 1].store.rows
    ensures run[k + 1].store.rows[other] == run[k].store.rows[other]
  {
    var batch, rows := run[j].process.phase.batch, run[j].store.rows.Keys;
    forall i | j <= i < k ensures SameProcessStep(run[i], run[i + 1]) {
      assert StepAt(run, i);
    }
    forall s, s' ensures LookedAt(s, batch, rows) && SameProcessStep(s, s') ==> LookedAt(s', batch, rows) {
      StepKeepsLook(s, s', batch, rows);
    }
    assert LookedAt(run[j], batch, rows);
    HoldsAlong(run, j, k, s => LookedAt(s, batch, rows), (s, s') => SameProcessStep(s, s'));
    LookedStepKeepsRow(run[k], run[k + 1], batch, rows, other);
  }

  lemma LookedStepKeepsRow(s: State, s': State, batch: nat, rows: set<nat>, other: nat)
    requires LookedAt(s, batch, rows) && ProcessStep(s, s') && other in rows
    ensures other in s.store.rows && other in s'.store.rows && s'.store.rows[other] == s.store.rows[other]
  {
    assert other in s.store.rows.Keys;
    ProcessStaysInBatch(s, s', batch);
    if batch in rows {
      LookingStepSkips(s, s');
    } else {
      assert SameRowAt(s.store, s'.store, other);
    }
  }

  // ---------------------------------------------------------------------------------------------
  // Resuming, starting and skipping
  // ---------------------------------------------------------------------------------------------

  /** Work on the chunks of a row that have no path yet, in order. */
  ghost predicate ResumesRow(progress: Progress, batch: nat, row: Row) {
    && progress.version == row.version && progress.batch == batch && !progress.isNew
    && progress.chunkCount == |row.paths|
    && (forall id :: id in progress.remaining <==> 0 <= id < |row.paths| && row.paths[id] == "")
    && (forall i, j :: 0 <= i < j < |progress.remaining| ==> progress.remaining[i] < progress.remaining[j])
  }

  /** What a process does with the batch it looks at: without a row it goes on to start a snapshot,
      a row with all paths or without a request for the batch is skipped, and a requested row with
      a path missing is resumed. */
  lemma DecisionDependsOnRow(s: State, s': State)
    requires s.process.Running? && s.process.phase.ReadRow? && ProcessStep(s, s')
    ensures
      var batch, rows := s.process.phase.batch, s.store.rows;
      var hasGap := batch in rows && exists i :: 0 <= i < |rows[batch].paths| && rows[batch].paths[i] == "";
      && s'.store == s.store && s'.late == s.late
      && (s'.process == Running(s.process.config, Initialize(batch, false)) <==> batch !in rows)
      && (s'.process == Idle(Skipped) <==> batch in rows && (!hasGap || s.process.config.l1Batch.None?))
      && (s'.process.Running? && s'.process.phase.FindBlock? <==> hasGap && s.process.config.l1Batch.Some?)
      && (s'.process.Running? && s'.process.phase.FindBlock? ==>
            s'.process.config == s.process.config && ResumesRow(s'.process.phase.progress, batch, rows[batch]))
  {
    assert Decide(s, s');
    if s.process.phase.batch in s.store.rows {
      UnrecordedIsExact(s.store.rows[s.process.phase.batch].paths, 0);
    }
  }

  /** A new snapshot can be prepared exactly when the batch has tree data, the version is known, the
      chunk size is not zero, and some key was written by the batch, not too many for as many chunks
      as an `INTEGER` counts. */
  lemma InitializeExactlyWhen(db: Db, batch: nat, config: Config)
    ensures CanInitialize(db, batch, config) <==>
      && batch in db.batches && db.batches[batch].hasTreeData
      && (config.version == 0 || config.version == 1)
      && 0 < config.chunkSize
      && exists keysCount :: IsKeysCount(db, batch, keysCount) && Suffices(2147483647, keysCount, config)
  {
    if config.chunkSize > 0 {
      forall keysCount: nat ensures ChunkCount(keysCount, config) <= I32_MAX <==> Suffices(I32_MAX, keysCount, config) {
        DivCeilIsLeast(keysCount, config.chunkSize, I32_MAX);
      }
      if keysCount: nat :| IsKeysCount(db, batch, keysCount) && Suffices(I32_MAX, keysCount, config) {
        if config.version == 0 {
          assert Chooses(db, batch, config, Version0, ChunkCount(keysCount, config));
        } else if config.version == 1 {
          assert Chooses(db, batch, config, Version1, ChunkCount(keysCount, config));
        }
      }
    }
  }

  /** A process that ends by itself has skipped if it was looking at a row, has completed if it was
      joining its tasks, and has failed everywhere else. */
  lemma OutcomeTellsPhase(s: State, s': State)
    requires ProcessStep(s, s') && s'.process.Idle?
    ensures s.process.Running? && s'.process.outcome ==
      if s.process.phase.ReadRow? then Skipped
      else if s.process.phase.Chunks? then Completed(s.process.phase.progress.batch)
      else Failed
  {
  }

  // ---------------------------------------------------------------------------------------------
  // Requests
  // ---------------------------------------------------------------------------------------------

  /** Whatever a process changes, it changes by a request that it had in flight: stopped just before,
      it could have left the same change behind. */
  lemma ChangesAreInFlight(s: State, s': State)
    requires ProcessStep(s, s')
    ensures s'.store == s.store || exists write :: write in InFlight(s.process) && s'.store == Apply(s.store, write)
  {
    if MainStep(s, s') {
      if PutDeps(s, s') {
        assert DepsWrite(s.process.phase.progress, s.process.phase.deps) in InFlight(s.process);
      } else if AddSnapshot(s, s') && s'.process.Running? {
        assert RowWrite(s.process.config, s.process.phase.progress) in InFlight(s.process);
      }
    } else {
      var chunkId: nat :| TaskStep(s, s', chunkId);
      var write := TaskWrite(s.process.phase.progress, chunkId, s.process.phase.tasks[chunkId]);
      if write.Some? {
        assert write.value in InFlight(s.process);
      }
    }
  }

  /** A process can stop at any point and leave any part of its requests in flight behind. */
  lemma ProcessCanStop(s: State, left: set<Write>)
    requires s.process.Running? && left <= InFlight(s.process)
    ensures Next(s, s.(process := Idle(Failed), late := s.late + left))
  {
    assert Interrupt(s, s.(process := Idle(Failed), late := s.late + left));
  }

  /** A task gets a permit, a replica connection or the master connection only while one is free. It
      reads its logs while it holds a permit and a replica connection, puts its blob with the permit
      but without any connection, and records its path with the permit and the master connection. */
  lemma RequestsHoldResources(s: State, s': State, chunkId: nat)
    requires TaskStep(s, s', chunkId)
    ensures
      var before, after := s.process.phase.tasks, s'.process.phase.tasks;
      && (after[chunkId].HasPermit? ==> |PermitHolders(before)| < s.process.config.concurrency)
      && (after[chunkId].HasReplica? && !before[chunkId].HasReplica? ==>
            |ReplicaHolders(before)| < s.process.config.concurrency)
      && (after[chunkId].HasMaster? ==> |MasterHolders(before)| < 1)
      && (after[chunkId].Loaded? ==> chunkId in PermitHolders(before) && chunkId in ReplicaHolders(before))
      && (s'.store.blobs != s.store.blobs ==>
            chunkId in PermitHolders(before) && chunkId !in ReplicaHolders(before) && chunkId !in MasterHolders(before))
      && (s'.store.rows != s.store.rows ==> chunkId in PermitHolders(before) && chunkId in MasterHolders(before))
      && (after[chunkId].Done? ==> chunkId !in PermitHolders(after) && chunkId !in MasterHolders(after))
  {
  }

  /** What a task waits for in its stage is free: a permit, a replica connection, or the master
      connection. */
  predicate IsFree(config: Config, tasks: map<nat, Stage>, stage: Stage) {
    && (stage.Waiting? ==> |PermitHolders(tasks)| < config.concurrency)
    && (stage.HasPermit? ==> |ReplicaHolders(tasks)| < config.concurrency)
    && (stage.Stored? ==> |MasterHolders(tasks)| < 1)
  }

  /** A task can move exactly when it is not done and what it waits for is free, whatever the other
      tasks do: as many of them run side by side as there are permits. */
  lemma TaskMovesExactlyWhen(s: State, chunkId: nat)
    requires s.process.Running? && s.process.phase.Chunks? && chunkId in s.process.phase.tasks
    ensures
      var tasks := s.process.phase.tasks;
      (exists s' :: TaskStep(s, s', chunkId)) <==> !tasks[chunkId].Done? && IsFree(s.process.config, tasks, tasks[chunkId])
  {
    var Chunks(progress, block, tasks, left) := s.process.phase;
    if CanMove(s.process.config, tasks, tasks[chunkId]) {
      var next := NextStage(s.store.db, progress, block, chunkId, tasks[chunkId]);
      var s' := s.(
        store := StoreAfter(s.store, progress, chunkId, tasks[chunkId]),
        process := Running(s.process.config, Chunks(progress, block, tasks[chunkId := next],
          if next.Done? then left - 1 else left)));
      assert TaskStep(s, s', chunkId);
    }
  }
}
