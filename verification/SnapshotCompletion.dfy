/** Progress of the snapshot creator: a measure that every step of the process lowers, the gauge
    of chunks left, and completion of uninterrupted runs. */
module SnapshotCompletion {
  import opened Wrappers
  import opened StorageHistory
  import opened SnapshotProtocol
  import opened SnapshotSafety
  import opened SnapshotLiveness
  import opened Runs

  // ---------------------------------------------------------------------------------------------
  // The measure
  // ---------------------------------------------------------------------------------------------

  function StagesLeft(stage: Stage): nat {
    match stage
    case Waiting => 7
    case HasPermit => 6
    case HasReplica => 5
    case Loaded(_) => 4
    case Stored => 3
    case HasMaster => 2
    case Recorded => 1
    case Done => 0
  }

  function AtLeast(tasks: map<nat, Stage>, n: nat): set<nat> {
    set i | i in tasks && n <= StagesLeft(tasks[i])
  }

  /** The sum of the stages left over all tasks. */
  function WorkFrom(tasks: map<nat, Stage>, n: nat): nat
    decreases 8 - n
  {
    if n >= 8 then 0 else |AtLeast(tasks, n)| + WorkFrom(tasks, n + 1)
  }

  function Work(tasks: map<nat, Stage>): nat {
    WorkFrom(tasks, 1)
  }

  /** How many phases the main sequence has in front of it. */
  function PhasesLeft(process: Process): nat {
    match process
    case Idle(_) => 0
    case Running(_, phase) =>
      match phase
      case ReadSealed(connected) => if connected then 12 else 13
      case ReadRow(_) => 11
      case Initialize(_, connected) => if connected then 9 else 10
      case FindBlock(_, connected) => if connected then 7 else 8
      case LoadDeps(_, _, connected) => if connected then 5 else 6
      case StoreDeps(_, _, _) => 4
      case Insert(_, _, connected) => if connected then 2 else 3
      case Chunks(_, _, _, _) => 1
  }

  function TaskWork(process: Process): nat {
    match process
    case Running(_, Chunks(_, _, tasks, _)) => Work(tasks)
    case _ => 0
  }

  lemma {:induction false} WorkAfter(tasks: map<nat, Stage>, i: nat, stage: Stage, n: nat)
    requires i in tasks && StagesLeft(tasks[i]) == StagesLeft(stage) + 1
    ensures WorkFrom(tasks[i := stage], n) == WorkFrom(tasks, n) - (if n <= StagesLeft(tasks[i]) then 1 else 0)
    decreases 8 - n
  {
    if n < 8 {
      WorkAfter(tasks, i, stage, n + 1);
      AtLeastAfter(tasks, i, stage, n);
    }
  }

  lemma AtLeastAfter(tasks: map<nat, Stage>, i: nat, stage: Stage, n: nat)
    requires i in tasks && StagesLeft(tasks[i]) == StagesLeft(stage) + 1
    ensures |AtLeast(tasks[i := stage], n)| == |AtLeast(tasks, n)| - (if n == StagesLeft(tasks[i]) then 1 else 0)
  {
    if n == StagesLeft(tasks[i]) {
      assert AtLeast(tasks[i := stage], n) == AtLeast(tasks, n) - {i};
    } else {
      assert AtLeast(tasks[i := stage], n) == AtLeast(tasks, n);
    }
  }

  lemma TaskStepLowersWork(s: State, s': State, chunkId: nat)
    requires TaskStep(s, s', chunkId)
    requires chunkId < s.process.phase.progress.chunkCount <= I32_MAX
    ensures PhasesLeft(s'.process) == PhasesLeft(s.process) && TaskWork(s'.process) < TaskWork(s.process)
  {
    var Chunks(progress, block, tasks, left) := s.process.phase;
    WorkAfter(tasks, chunkId, NextStage(s.store.db, progress, block, chunkId, tasks[chunkId]), 1);
  }

  lemma MainStepLowersPhases(s: State, s': State)
    requires MainStep(s, s')
    ensures PhasesLeft(s'.process) < PhasesLeft(s.process)
  {
  }

  /** Every step of the process lowers the pair of phases left and stages left; what the
      environment does leaves the process where it is. So a run that is not interrupted ends. */
  lemma ProcessStepsEnd(s: State, s': State)
    requires Inv(s) && ProcessStep(s, s')
    ensures PhasesLeft(s'.process) < PhasesLeft(s.process) ||
      (PhasesLeft(s'.process) == PhasesLeft(s.process) && TaskWork(s'.process) < TaskWork(s.process))
  {
    if MainStep(s, s') {
      MainStepLowersPhases(s, s');
    } else {
      var chunkId: nat :| TaskStep(s, s', chunkId);
      var progress := s.process.phase.progress;
      assert TaskIsGood(s.store, progress, chunkId, s.process.phase.tasks[chunkId]);
      assert RowIsGood(s.store, progress.batch);
      TaskStepLowersWork(s, s', chunkId);
    }
  }

  // ---------------------------------------------------------------------------------------------
  // The gauge of chunks left
  // ---------------------------------------------------------------------------------------------

  function Below(n: nat): (ids: set<nat>)
    ensures |ids| == n
    ensures forall i: nat :: i in ids <==> i < n
  {
    if n == 0 then {} else Below(n - 1) + {n - 1}
  }

  function RecordedIds(row: Row): set<nat> {
    set i | i in Below(|row.paths|) && row.paths[i] != ""
  }

  /** The tasks whose chunk is recorded although the gauge still counts them: those between
      recording and decrementing, and those whose chunk a request of an earlier process recorded
      in the meantime. */
  function CountedTwice(row: Row, tasks: map<nat, Stage>): set<nat> {
    Unfinished(tasks) * RecordedIds(row)
  }

  /** The chunks left and the chunks recorded add up to all chunks, up to the ones counted twice;
      the progress shown in the log never underflows. */
  lemma GaugeAccounting(run: seq<State>, k: nat)
    requires IsRun(run) && Init(run[0]) && k < |run|
    requires run[k].process.Running? && run[k].process.phase.Chunks?
    ensures
      var Chunks(progress, block, tasks, left) := run[k].process.phase;
      && progress.batch in run[k].store.rows
      && var row := run[k].store.rows[progress.batch];
         && left + |RecordedIds(row)| == |row.paths| + |CountedTwice(row, tasks)|
         && 0 <= left <= progress.chunkCount == |row.paths|
  {
    InitIsGood(run[0]);
    RunKeepsInv(run, k);
    var Chunks(progress, block, tasks, left) := run[k].process.phase;
    GaugeInState(run[k].store, run[k].process.config, progress, tasks, left);
  }

  lemma GaugeInState(store: Store, config: Config, progress: Progress, tasks: map<nat, Stage>, left: int)
    requires MatchesRow(store, progress) && TasksAreGood(store, config, progress, tasks, left)
    ensures
      var row := store.rows[progress.batch];
      && left + |RecordedIds(row)| == |row.paths| + |CountedTwice(row, tasks)|
      && 0 <= left <= progress.chunkCount == |row.paths|
  {
    var row := store.rows[progress.batch];
    forall i | i in tasks ensures i < |row.paths| && (row.paths[i] == "" ==> i in Unfinished(tasks)) {
      assert TaskIsGood(store, progress, i, tasks[i]);
    }
    AccountsFor(row, tasks);
  }

  lemma AccountsFor(row: Row, tasks: map<nat, Stage>)
    requires forall i :: i in tasks ==> i < |row.paths|
    requires forall i :: 0 <= i < |row.paths| && row.paths[i] == "" ==> i in Unfinished(tasks)
    ensures |Unfinished(tasks)| + |RecordedIds(row)| == |row.paths| + |CountedTwice(row, tasks)|
    ensures |Unfinished(tasks)| <= |row.paths|
  {
    var all := Below(|row.paths|);
    SubsetSize(Unfinished(tasks), all);
    assert all == Unfinished(tasks) + RecordedIds(row);
  }

  // ---------------------------------------------------------------------------------------------
  // Completion
  // ---------------------------------------------------------------------------------------------

  /** A run that joins its tasks leaves no chunk unrecorded. */
  lemma FinishMeansComplete(s: State, s': State)
    requires Inv(s) && Finish(s, s')
    ensures
      var batch := s.process.phase.progress.batch;
      batch in s'.store.rows && IsComplete(s'.store.rows[batch])
  {
    var Chunks(progress, block, tasks, left) := s.process.phase;
    forall i | i in tasks ensures i < progress.chunkCount && s.store.rows[progress.batch].paths[i] != "" {
      assert TaskIsGood(s.store, progress, i, tasks[i]);
    }
  }

  /** Nothing the process reads can make it fail: the batch is stored with its blocks, the config
      asks for it and has some concurrency, and if there is no snapshot of the batch yet, one can
      be started. Neither the version nor the chunk size matters for a snapshot that is there. */
  ghost predicate Ready(s: State, batch: nat) {
    && s.process.Running?
    && Ended(s.store.db, batch)
    && 0 < s.process.config.concurrency
    && s.process.config.l1Batch == Some(batch)
    && var missing := batch !in s.store.rows;
       var startable := CanInitialize(s.store.db, batch, s.process.config);
       match s.process.phase
       case ReadSealed(_) => missing ==> startable
       case ReadRow(b) => b == batch && (missing ==> startable)
       case Initialize(b, _) => b == batch && missing && startable
       case FindBlock(progress, _) => progress.batch == batch && (progress.isNew ==> missing)
       case LoadDeps(progress, _, _) => progress.batch == batch && missing
       case StoreDeps(progress, _, _) => progress.batch == batch && missing
       case Insert(progress, _, _) => progress.batch == batch && missing
       case Chunks(progress, _, _, _) => progress.batch == batch
  }

  /** The process ended without an error, and the snapshot is complete. */
  ghost predicate IsFinished(s: State, batch: nat) {
    s.process in {Idle(Completed(batch)), Idle(Skipped)} && batch in s.store.rows && IsComplete(s.store.rows[batch])
  }

  lemma ReadyTaskStep(s: State, s': State, chunkId: nat, batch: nat)
    requires Ready(s, batch) && TaskStep(s, s', chunkId)
    ensures Ready(s', batch)
  {
  }

  lemma ReadyMainStep(s: State, s': State, batch: nat)
    requires Ready(s, batch) && MainStep(s, s') && !Finish(s, s')
    ensures Ready(s', batch) || IsFinished(s', batch)
  {
    if PickBatch(s, s') {
      assert s.store.db.batches != map[];
    }
  }

  lemma ReadyStep(s: State, s': State, batch: nat)
    requires Inv(s) && Ready(s, batch) && ProcessStep(s, s')
    ensures Ready(s', batch) || IsFinished(s', batch)
  {
    if Finish(s, s') {
      FinishMeansComplete(s, s');
    } else if MainStep(s, s') {
      ReadyMainStep(s, s', batch);
    } else {
      var chunkId: nat :| TaskStep(s, s', chunkId);
      ReadyTaskStep(s, s', chunkId, batch);
    }
  }

  // ---------------------------------------------------------------------------------------------
  // What happens around a process that is not interrupted
  // ---------------------------------------------------------------------------------------------

  lemma CanInitializeIsStable(db: Db, next: Db, batch: nat, config: Config)
    requires Grows(db, next) && CanInitialize(db, batch, config)
    ensures CanInitialize(next, batch, config)
  {
    var version, chunkCount: nat :| Chooses(db, batch, config, version, chunkCount) && chunkCount <= I32_MAX;
    ChoosesIsStable(db, next, batch, config, version, chunkCount);
    assert BatchGrows(db.batches[batch], next.batches[batch]);
  }

  /** The node may go on producing blocks. */
  lemma GrowthKeepsReady(s: State, s': State, batch: nat)
    requires Ready(s, batch) && GrowTables(s, s')
    ensures Ready(s', batch)
  {
    var config := s.process.config;
    if CanInitialize(s.store.db, batch, config) {
      CanInitializeIsStable(s.store.db, s'.store.db, batch, config);
    }
    assert BatchGrows(s.store.db.batches[batch], s'.store.db.batches[batch]);
  }

  /** The insert of the row by an earlier process. */
  predicate IsRival(write: Write, batch: nat) {
    write.InsertRow? && write.batch == batch
  }

  /** The process has seen that there is no row of the batch and is going to insert one. */
  predicate IsCommitted(phase: Phase, batch: nat) {
    match phase
    case Initialize(b, _) => b == batch
    case FindBlock(progress, _) => progress.isNew && progress.batch == batch
    case LoadDeps(progress, _, _) => progress.batch == batch
    case StoreDeps(progress, _, _) => progress.batch == batch
    case Insert(progress, _, _) => progress.batch == batch
    case _ => false
  }

  /** The insert lands while the process is on its way to insert the row itself. */
  predicate IsHarm(s: State, write: Write, batch: nat) {
    && IsRival(write, batch) && batch !in s.store.rows
    && s.process.Running? && IsCommitted(s.process.phase, batch)
  }

  /** Late requests of earlier processes do no harm, except for this one. */
  lemma LandKeepsReadyExactlyWhen(s: State, s': State, write: Write, batch: nat)
    requires Ready(s, batch) && LandOf(s, s', write)
    ensures Ready(s', batch) <==> !IsHarm(s, write, batch)
  {
  }

  /** After that the run can only fail. */
  ghost predicate IsDoomed(s: State, batch: nat) {
    s.process.Running? && IsCommitted(s.process.phase, batch) && batch in s.store.rows
  }

  lemma DoomedRunFails(s: State, s': State, batch: nat)
    requires IsDoomed(s, batch) && ProcessStep(s, s')
    ensures IsDoomed(s', batch) || s'.process == Idle(Failed)
  {
  }

  /** A step of the process, or something that happens around it: growing tables and late
      requests. */
  ghost predicate AloneStep(s: State, s': State) {
    ProcessStep(s, s') || GrowTables(s, s') || Land(s, s')
  }

  /** The same without the late request that does harm. */
  ghost predicate HarmlessStep(s: State, s': State, batch: nat) {
    || ProcessStep(s, s')
    || GrowTables(s, s')
    || exists write :: LandOf(s, s', write) && !IsHarm(s, write, batch)
  }

  /** The same without any late insert of the row. */
  ghost predicate SoloStep(s: State, s': State, batch: nat) {
    || ProcessStep(s, s')
    || GrowTables(s, s')
    || exists write :: LandOf(s, s', write) && !IsRival(write, batch)
  }

  ghost predicate AloneStepAt(run: seq<State>, k: int)
    requires 0 <= k < |run| - 1
  {
    AloneStep(run[k], run[k + 1])
  }

  ghost predicate HarmlessStepAt(run: seq<State>, k: int, batch: nat)
    requires 0 <= k < |run| - 1
  {
    HarmlessStep(run[k], run[k + 1], batch)
  }

  ghost predicate SoloStepAt(run: seq<State>, k: int, batch: nat)
    requires 0 <= k < |run| - 1
  {
    SoloStep(run[k], run[k + 1], batch)
  }

  /** One process that is not interrupted, with its tasks in any order, and anything around it. */
  ghost predicate IsAloneRun(run: seq<State>) {
    run != [] && forall k {:trigger AloneStepAt(run, k)} :: 0 <= k < |run| - 1 ==> AloneStepAt(run, k)
  }

  ghost predicate IsHarmlessRun(run: seq<State>, batch: nat) {
    run != [] && forall k {:trigger HarmlessStepAt(run, k, batch)} :: 0 <= k < |run| - 1 ==> HarmlessStepAt(run, k, batch)
  }

  ghost predicate IsSoloRun(run: seq<State>, batch: nat) {
    run != [] && forall k {:trigger SoloStepAt(run, k, batch)} :: 0 <= k < |run| - 1 ==> SoloStepAt(run, k, batch)
  }

  lemma AloneStepIsStep(s: State, s': State)
    ensures AloneStep(s, s') ==> Next(s, s')
  {
  }

  lemma StepsAreAlone(s: State, s': State, batch: nat)
    ensures HarmlessStep(s, s', batch) || SoloStep(s, s', batch) ==> AloneStep(s, s')
  {
  }

  lemma ReadyCanStep(s: State, batch: nat)
    requires Inv(s) && Ready(s, batch)
    ensures CanStep(s)
  {
    RunningCanStep(s);
  }

  lemma ReadyProceeds(s: State, s': State, batch: nat)
    requires Inv(s) && Ready(s, batch) && HarmlessStep(s, s', batch)
    ensures Ready(s', batch) || IsFinished(s', batch)
  {
    if ProcessStep(s, s') {
      ReadyStep(s, s', batch);
    } else if GrowTables(s, s') {
      GrowthKeepsReady(s, s', batch);
    } else {
      var write :| LandOf(s, s', write) && !IsHarm(s, write, batch);
      LandKeepsReadyExactlyWhen(s, s', write, batch);
    }
  }

  lemma IdleHasNoStep(s: State, s': State)
    requires s.process.Idle?
    ensures !ProcessStep(s, s')
  {
  }

  /** What happens around the process does not move it. */
  lemma SurroundingsKeepWork(s: State, s': State)
    requires AloneStep(s, s') && !ProcessStep(s, s')
    ensures s'.process == s.process
  {
  }

  lemma CompleteStays(row: Row, next: Row)
    requires RowExtends(row, next) && IsComplete(row)
    ensures IsComplete(next)
  {
  }

  lemma FinishedStays(s: State, s': State, batch: nat)
    requires Inv(s) && IsFinished(s, batch) && AloneStep(s, s')
    ensures IsFinished(s', batch)
  {
    IdleHasNoStep(s, s');
    SurroundingsKeepWork(s, s');
    AloneStepIsStep(s, s');
    assert HasExtended(s, batch, s.store.rows[batch]);
    NextKeepsRow(s, s', batch, s.store.rows[batch]);
    CompleteStays(s.store.rows[batch], s'.store.rows[batch]);
  }

  /** The snapshot can still be completed, or it is. */
  ghost predicate IsOnTrack(s: State, batch: nat) {
    Inv(s) && (Ready(s, batch) || IsFinished(s, batch))
  }

  lemma HarmlessStepKeepsTrack(s: State, s': State, batch: nat)
    ensures IsOnTrack(s, batch) && HarmlessStep(s, s', batch) ==> IsOnTrack(s', batch)
  {
    if IsOnTrack(s, batch) && HarmlessStep(s, s', batch) {
      StepsAreAlone(s, s', batch);
      AloneStepIsStep(s, s');
      NextKeepsInv(s, s');
      if Ready(s, batch) {
        ReadyProceeds(s, s', batch);
      } else {
        FinishedStays(s, s', batch);
      }
    }
  }

  /** No step of a run that is not interrupted leaves the states from which the snapshot can be
      completed, unless a late request does harm. */
  lemma HarmlessRunStaysOnTrack(run: seq<State>, k: nat, batch: nat)
    requires IsHarmlessRun(run, batch) && k < |run|
    ensures IsOnTrack(run[0], batch) ==> IsOnTrack(run[k], batch)
  {
    if IsOnTrack(run[0], batch) {
      forall i | 0 <= i < k ensures HarmlessStep(run[i], run[i + 1], batch) {
        assert HarmlessStepAt(run, i, batch);
      }
      forall s, s' ensures IsOnTrack(s, batch) && HarmlessStep(s, s', batch) ==> IsOnTrack(s', batch) {
        HarmlessStepKeepsTrack(s, s', batch);
      }
      HoldsAlong(run, 0, k, s => IsOnTrack(s, batch), (s, s') => HarmlessStep(s, s', batch));
    }
  }

  /** The process can go on, or it has completed the snapshot. */
  ghost predicate GoesOn(s: State, batch: nat) {
    CanStep(s) || IsFinished(s, batch)
  }

  lemma OnTrackGoesOn(s: State, batch: nat)
    ensures IsOnTrack(s, batch) ==> GoesOn(s, batch)
  {
    if IsOnTrack(s, batch) && Ready(s, batch) {
      ReadyCanStep(s, batch);
    }
  }

  /** However its tasks are scheduled, whatever blocks the node adds and whichever requests arrive
      late without harm, a run that is ready and not interrupted either can go on or has completed
      the snapshot. */
  lemma HarmlessRunCompletes(run: seq<State>, batch: nat)
    requires IsHarmlessRun(run, batch) && IsOnTrack(run[0], batch)
    ensures GoesOn(run[|run| - 1], batch)
  {
    HarmlessRunStaysOnTrack(run, |run| - 1, batch);
    OnTrackGoesOn(run[|run| - 1], batch);
  }

  lemma ReadyHasStep(s: State, batch: nat) returns (s': State)
    requires Inv(s) && Ready(s, batch)
    ensures ProcessStep(s, s') && Inv(s')
    ensures Ready(s', batch) || IsFinished(s', batch)
    ensures PhasesLeft(s'.process) < PhasesLeft(s.process) ||
      (PhasesLeft(s'.process) == PhasesLeft(s.process) && TaskWork(s'.process) < TaskWork(s.process))
  {
    ReadyCanStep(s, batch);
    s' :| ProcessStep(s, s');
    HarmlessStepKeepsTrack(s, s', batch);
    ProcessStepsEnd(s, s');
  }

  ghost predicate CompletesFrom(s: State, batch: nat, run: seq<State>) {
    IsSoloRun(run, batch) && run[0] == s && IsFinished(run[|run| - 1], batch)
  }

  ghost predicate CanComplete(s: State, batch: nat) {
    exists run :: CompletesFrom(s, batch, run)
  }

  lemma FinishedCompletes(s: State, batch: nat)
    requires IsFinished(s, batch)
    ensures CanComplete(s, batch)
  {
    assert CompletesFrom(s, batch, [s]);
  }

  lemma StepThenCompletes(s: State, s': State, batch: nat)
    ensures ProcessStep(s, s') && CanComplete(s', batch) ==> CanComplete(s, batch)
  {
    if ProcessStep(s, s') && CanComplete(s', batch) {
      var rest :| CompletesFrom(s', batch, rest);
      var run := [s] + rest;
      forall k | 0 <= k < |run| - 1 ensures SoloStepAt(run, k, batch) {
        if k > 0 {
          assert SoloStepAt(rest, k - 1, batch);
        }
      }
      assert CompletesFrom(s, batch, run);
    }
  }

  /** From every ready state the process can complete the snapshot by itself. */
  lemma {:induction false} CompletionIsReachable(s: State, batch: nat)
    ensures Inv(s) && Ready(s, batch) ==> CanComplete(s, batch)
    decreases PhasesLeft(s.process), TaskWork(s.process)
  {
    if Inv(s) && Ready(s, batch) {
      var s' := ReadyHasStep(s, batch);
      CompletionIsReachable(s', batch);
      if IsFinished(s', batch) {
        FinishedCompletes(s', batch);
      }
      StepThenCompletes(s, s', batch);
    }
  }

  function StartedAt(s: State, config: Config): State {
    s.(process := Running(config, ReadSealed(false)))
  }

  lemma StartIsStep(s: State, config: Config)
    requires s.process.Idle? && 0 < config.concurrency
    ensures Next(s, StartedAt(s, config))
  {
    assert StartedAt(s, config) == s.(process := Started(config));
  }

  lemma StartedIsReady(s: State, batch: nat, config: Config)
    requires Inv(s)
    requires config.l1Batch == Some(batch) && 0 < config.concurrency
    requires batch !in s.store.rows ==> Ended(s.store.db, batch) && CanInitialize(s.store.db, batch, config)
    ensures
      var started := s.(process := Running(config, ReadSealed(false)));
      Inv(started) && Ready(started, batch)
  {
    if batch in s.store.rows {
      assert RowIsGood(s.store, batch);
    }
  }

  /** Fault tolerance: wherever earlier runs were interrupted, a run that asks for the batch can
      complete its snapshot, whatever version and chunk size it is configured with; without a
      snapshot of the batch, one that can be started can also be completed. */
  lemma AnySnapshotCanBeCompleted(run: seq<State>, k: nat, batch: nat, config: Config)
    requires IsRun(run) && Init(run[0]) && k < |run| && run[k].process.Idle?
    requires config.l1Batch == Some(batch) && 0 < config.concurrency
    requires batch !in run[k].store.rows ==>
      Ended(run[k].store.db, batch) && CanInitialize(run[k].store.db, batch, config)
    ensures CanComplete(run[k].(process := Running(config, ReadSealed(false))), batch)
  {
    InitIsGood(run[0]);
    RunKeepsInv(run, k);
    StartedIsReady(run[k], batch, config);
    CompletionIsReachable(run[k].(process := Running(config, ReadSealed(false))), batch);
  }

  /** An example that meets all of this: the genesis batch, with one key, in ten chunks. */
  lemma GenesisSnapshotCanBeCompleted()
    ensures
      var db := Db([LogRow(7, 0, 0, 1)], map[7 := InitialWrite(0, 1)], map[0 := BatchInfo(Some(0), true)], {});
      var config := Config(1, Some(0), 1_000_000, 25, 10);
      CanComplete(State(Store(db, map[], map[], map[]), {}, Running(config, ReadSealed(false))), 0)
  {
    var db := Db([LogRow(7, 0, 0, 1)], map[7 := InitialWrite(0, 1)], map[0 := BatchInfo(Some(0), true)], {});
    var config := Config(1, Some(0), 1_000_000, 25, 10);
    var start := State(Store(db, map[], map[], map[]), {}, Idle(NeverRun));
    assert IsKeysCount(db, 0, 1) by {
      assert WrittenBy(db, 7, 0) && IsLastWrite(db, 7, 0);
    }
    assert Chooses(db, 0, config, Version1, ChunkCount(1, config));
    AnySnapshotCanBeCompleted([start], 0, 0, config);
  }
}
