/** A bound on the steps of a process that is not interrupted, whatever happens around it, and exactly
    when all its runs complete the snapshot. */
module SnapshotTermination {
  import opened Arithmetic
  import opened Wrappers
  import opened SnapshotProtocol
  import opened SnapshotSafety
  import opened SnapshotLiveness
  import opened SnapshotCompletion
  import opened Runs

  const MOST_WORK: nat := 7 * I32_MAX

  /** The steps a process may still take. */
  function Weight(process: Process): nat {
    PhasesLeft(process) * (MOST_WORK + 1) + TaskWork(process)
  }

  lemma {:induction false} WorkPerTask(tasks: map<nat, Stage>, n: nat)
    requires n <= 8
    ensures WorkFrom(tasks, n) <= (8 - n) * |tasks.Keys|
    decreases 8 - n
  {
    if n < 8 {
      WorkPerTask(tasks, n + 1);
      SubsetSize(AtLeast(tasks, n), tasks.Keys);
      OneMore(8 - n - 1, |tasks.Keys|);
    }
  }

  lemma TasksAreChunks(store: Store, config: Config, progress: Progress, tasks: map<nat, Stage>, left: int)
    requires MatchesRow(store, progress) && TasksAreGood(store, config, progress, tasks, left)
    ensures |tasks.Keys| <= progress.chunkCount
  {
    forall i | i in tasks ensures i in Below(progress.chunkCount) {
      assert TaskIsGood(store, progress, i, tasks[i]);
    }
    SubsetSize(tasks.Keys, Below(progress.chunkCount));
  }

  lemma WorkIsBounded(s: State)
    ensures Inv(s) ==> TaskWork(s.process) <= MOST_WORK
  {
    if Inv(s) && s.process.Running? && s.process.phase.Chunks? {
      var Chunks(progress, block, tasks, left) := s.process.phase;
      assert RowIsGood(s.store, progress.batch);
      TasksAreChunks(s.store, s.process.config, progress, tasks, left);
      WorkPerTask(tasks, 1);
    }
  }

  lemma LexicographicDrop(phases: nat, phases': nat, work: nat, work': nat)
    requires work' <= MOST_WORK
    requires phases' < phases || (phases' == phases && work' < work)
    ensures phases' * (MOST_WORK + 1) + work' < phases * (MOST_WORK + 1) + work
  {
  }

  lemma ProcessStepLowersWeight(s: State, s': State)
    ensures Inv(s) && ProcessStep(s, s') ==> Weight(s'.process) < Weight(s.process)
  {
    if Inv(s) && ProcessStep(s, s') {
      ProcessStepKeepsInv(s, s');
      ProcessStepsEnd(s, s');
      WorkIsBounded(s');
      LexicographicDrop(PhasesLeft(s.process), PhasesLeft(s'.process), TaskWork(s.process), TaskWork(s'.process));
    }
  }

  /** How many steps of a run are the process's own. */
  ghost function ProcessSteps(run: seq<State>): nat {
    Count(run, (s, s') => ProcessStep(s, s'))
  }

  lemma AloneStepKeepsInv(s: State, s': State)
    ensures Inv(s) && AloneStep(s, s') ==>
      Inv(s') && Weight(s'.process) + (if ProcessStep(s, s') then 1 else 0) <= Weight(s.process)
  {
    if Inv(s) && AloneStep(s, s') {
      AloneStepIsStep(s, s');
      NextKeepsInv(s, s');
      ProcessStepLowersWeight(s, s');
      if !ProcessStep(s, s') {
        SurroundingsKeepWork(s, s');
      }
    }
  }

  lemma WeightIsBounded(s: State)
    ensures Inv(s) ==> Weight(s.process) <= 14 * (MOST_WORK + 1)
  {
    WorkIsBounded(s);
  }

  lemma StepsAreBounded(run: seq<State>)
    requires IsAloneRun(run)
    ensures Inv(run[0]) ==> ProcessSteps(run) + Weight(run[|run| - 1].process) <= Weight(run[0].process)
  {
    if Inv(run[0]) {
      forall i | 0 <= i < |run| - 1 ensures AloneStep(run[i], run[i + 1]) {
        assert AloneStepAt(run, i);
      }
      forall s, s' ensures Inv(s) && AloneStep(s, s') ==>
        Inv(s') && Weight(s'.process) + (if ProcessStep(s, s') then 1 else 0) <= Weight(s.process)
      {
        AloneStepKeepsInv(s, s');
      }
      WeightBoundsCount(run, s => Inv(s), (s, s') => AloneStep(s, s'),
                        (s, s') => ProcessStep(s, s'), (s: State) => Weight(s.process));
    }
  }

  lemma NoWeightIsIdle(process: Process)
    ensures Weight(process) == 0 ==> process.Idle?
  {
  }

  /** Whatever happens around a process that is not interrupted, the number of its steps is bounded,
      and when as many are made as the bound says it has ended. */
  lemma EveryScheduleEnds(run: seq<State>)
    requires IsAloneRun(run)
    ensures Inv(run[0]) ==> ProcessSteps(run) <= Weight(run[0].process) <= 14 * (MOST_WORK + 1)
    ensures Inv(run[0]) && ProcessSteps(run) == Weight(run[0].process) ==> run[|run| - 1].process.Idle?
  {
    StepsAreBounded(run);
    WeightIsBounded(run[0]);
    NoWeightIsIdle(run[|run| - 1].process);
  }

  lemma HarmlessStepLowersWeight(s: State, s': State, batch: nat)
    ensures IsOnTrack(s, batch) && HarmlessStep(s, s', batch) ==>
      IsOnTrack(s', batch) && Weight(s'.process) + (if ProcessStep(s, s') then 1 else 0) <= Weight(s.process)
  {
    HarmlessStepKeepsTrack(s, s', batch);
    StepsAreAlone(s, s', batch);
    AloneStepKeepsInv(s, s');
  }

  lemma NoWeightIsFinished(s: State, batch: nat)
    ensures IsOnTrack(s, batch) && Weight(s.process) == 0 ==> IsFinished(s, batch)
  {
  }

  /** Every uninterrupted run completes the snapshot, under any schedule of its tasks, any growth of
      the tables and any late requests that do no harm: the steps of the process are bounded, and
      when as many are made as the bound says, the snapshot is complete. */
  lemma EveryScheduleCompletes(run: seq<State>, batch: nat)
    requires IsHarmlessRun(run, batch) && IsOnTrack(run[0], batch)
    ensures ProcessSteps(run) <= Weight(run[0].process) <= 14 * (MOST_WORK + 1)
    ensures ProcessSteps(run) == Weight(run[0].process) ==> IsFinished(run[|run| - 1], batch)
  {
    forall i | 0 <= i < |run| - 1 ensures HarmlessStep(run[i], run[i + 1], batch) {
      assert HarmlessStepAt(run, i, batch);
    }
    forall s, s' ensures IsOnTrack(s, batch) && HarmlessStep(s, s', batch) ==>
      IsOnTrack(s', batch) && Weight(s'.process) + (if ProcessStep(s, s') then 1 else 0) <= Weight(s.process)
    {
      HarmlessStepLowersWeight(s, s', batch);
    }
    WeightBoundsCount(run, s => IsOnTrack(s, batch), (s, s') => HarmlessStep(s, s', batch),
                      (s, s') => ProcessStep(s, s'), (s: State) => Weight(s.process));
    WeightIsBounded(run[0]);
    NoWeightIsFinished(run[|run| - 1], batch);
  }

  // ---------------------------------------------------------------------------------------------
  // What a caller can know before a run
  // ---------------------------------------------------------------------------------------------

  predicate HasRival(late: set<Write>, batch: nat) {
    exists write :: write in late && IsRival(write, batch)
  }

  /** There is a row, or no insert of one is still to land. */
  predicate IsClear(s: State, batch: nat) {
    batch in s.store.rows || !HasRival(s.late, batch)
  }

  lemma ProcessKeepsLate(s: State, s': State)
    ensures ProcessStep(s, s') ==> s'.late == s.late
  {
  }

  lemma AloneStepKeepsClear(s: State, s': State, batch: nat)
    ensures Inv(s) && IsClear(s, batch) && AloneStep(s, s') ==> IsClear(s', batch) && HarmlessStep(s, s', batch)
  {
    if Inv(s) && IsClear(s, batch) && AloneStep(s, s') {
      ProcessKeepsLate(s, s');
      assert s'.late <= s.late;
      if batch in s.store.rows {
        AloneStepIsStep(s, s');
        assert HasExtended(s, batch, s.store.rows[batch]);
        NextKeepsRow(s, s', batch, s.store.rows[batch]);
      }
    }
  }

  ghost predicate IsSafe(s: State, batch: nat) {
    IsOnTrack(s, batch) && IsClear(s, batch)
  }

  lemma AloneStepKeepsSafe(s: State, s': State, batch: nat)
    ensures IsSafe(s, batch) && AloneStep(s, s') ==> IsSafe(s', batch) && HarmlessStep(s, s', batch)
  {
    AloneStepKeepsClear(s, s', batch);
    HarmlessStepKeepsTrack(s, s', batch);
  }

  lemma SafeAlong(run: seq<State>, k: nat, batch: nat)
    requires IsAloneRun(run) && k < |run|
    ensures IsSafe(run[0], batch) ==> IsSafe(run[k], batch)
  {
    if IsSafe(run[0], batch) {
      forall i | 0 <= i < k ensures AloneStep(run[i], run[i + 1]) {
        assert AloneStepAt(run, i);
      }
      forall s, s' ensures IsSafe(s, batch) && AloneStep(s, s') ==> IsSafe(s', batch) {
        AloneStepKeepsSafe(s, s', batch);
      }
      HoldsAlong(run, 0, k, s => IsSafe(s, batch), (s, s') => AloneStep(s, s'));
    }
  }

  lemma SafeRunIsHarmless(run: seq<State>, batch: nat)
    requires IsAloneRun(run)
    ensures IsSafe(run[0], batch) ==> IsHarmlessRun(run, batch)
  {
    if IsSafe(run[0], batch) {
      forall k | 0 <= k < |run| - 1 ensures HarmlessStepAt(run, k, batch) {
        SafeAlong(run, k, batch);
        assert AloneStepAt(run, k);
        AloneStepKeepsSafe(run[k], run[k + 1], batch);
      }
    }
  }

  lemma SafeRunCompletes(run: seq<State>, batch: nat)
    requires IsAloneRun(run) && IsSafe(run[0], batch)
    ensures GoesOn(run[|run| - 1], batch)
    ensures ProcessSteps(run) <= Weight(run[0].process) <= 14 * (MOST_WORK + 1)
    ensures ProcessSteps(run) == Weight(run[0].process) ==> IsFinished(run[|run| - 1], batch)
  {
    SafeRunIsHarmless(run, batch);
    HarmlessRunCompletes(run, batch);
    EveryScheduleCompletes(run, batch);
  }

  /** A run can be started that asks for the batch: there is a row, or one can be made. */
  ghost predicate IsStartable(s: State, batch: nat, config: Config) {
    && config.l1Batch == Some(batch) && 0 < config.concurrency
    && (batch !in s.store.rows ==> Ended(s.store.db, batch) && CanInitialize(s.store.db, batch, config))
  }

  /** Fault tolerance: wherever earlier runs were interrupted, every uninterrupted run that asks for
      the batch and finds a row, or no insert of one still in flight, completes the snapshot
      within its bound of steps, whatever happens around it. */
  lemma EveryRestartCompletes(run: seq<State>, k: nat, batch: nat, config: Config, alone: seq<State>)
    requires IsRun(run) && Init(run[0]) && k < |run| && run[k].process.Idle?
    requires IsStartable(run[k], batch, config) && IsClear(run[k], batch)
    requires IsAloneRun(alone) && alone[0] == StartedAt(run[k], config)
    ensures GoesOn(alone[|alone| - 1], batch)
    ensures ProcessSteps(alone) <= Weight(alone[0].process) <= 14 * (MOST_WORK + 1)
    ensures ProcessSteps(alone) == Weight(alone[0].process) ==> IsFinished(alone[|alone| - 1], batch)
  {
    InitIsGood(run[0]);
    RunKeepsInv(run, k);
    StartedIsReady(run[k], batch, config);
    SafeRunCompletes(alone, batch);
  }
}
