/** The one late request that an uninterrupted run may not survive: the insert of the row by a
    process that died while it made the request. */
module LateInsert {
  import opened SnapshotProtocol
  import opened SnapshotSafety
  import opened SnapshotCompletion
  import opened SnapshotTermination

  /** A run of a process alone that ends with its insert of the row in flight. */
  ghost predicate LeadsToInsert(s: State, batch: nat, run: seq<State>) {
    && IsAloneRun(run) && run[0] == s
    && var last := run[|run| - 1];
       && Inv(last) && Ready(last, batch) && batch !in last.store.rows
       && last.late == s.late && last.store.db == s.store.db
       && last.process.phase.Insert? && last.process.phase.connected
  }

  ghost predicate CanLeadToInsert(s: State, batch: nat) {
    s.process.Running? && exists run :: LeadsToInsert(s, batch, run)
  }

  lemma PrependAlone(s: State, rest: seq<State>)
    requires IsAloneRun(rest) && AloneStep(s, rest[0])
    ensures IsAloneRun([s] + rest)
  {
    var run := [s] + rest;
    forall k | 0 <= k < |run| - 1 ensures AloneStepAt(run, k) {
      if k > 0 {
        assert AloneStepAt(rest, k - 1);
      }
    }
  }

  lemma StepThenInsert(s: State, s': State, batch: nat)
    requires s.process.Running? && ProcessStep(s, s') && CanLeadToInsert(s', batch)
    requires s'.late == s.late && s'.store.db == s.store.db
    ensures CanLeadToInsert(s, batch)
  {
    var rest :| LeadsToInsert(s', batch, rest);
    PrependAlone(s, rest);
    var run := [s] + rest;
    assert run[|run| - 1] == rest[|rest| - 1];
    assert LeadsToInsert(s, batch, run);
  }

  lemma StepBeforeInsert(s: State, s': State, batch: nat)
    requires Ready(s, batch) && batch !in s.store.rows && ProcessStep(s, s')
    requires !s.process.phase.Chunks? && !(s.process.phase.Insert? && s.process.phase.connected)
    requires s.process.phase.FindBlock? ==> s.process.phase.progress.isNew
    ensures s'.late == s.late && s'.store.db == s.store.db && batch !in s'.store.rows
    ensures s'.process.Running? ==> !s'.process.phase.Chunks?
  {
  }

  lemma {:induction false} ReachesInsert(s: State, batch: nat)
    requires Inv(s) && Ready(s, batch) && batch !in s.store.rows && !s.process.phase.Chunks?
    ensures CanLeadToInsert(s, batch)
    decreases PhasesLeft(s.process), TaskWork(s.process)
  {
    if s.process.phase.Insert? && s.process.phase.connected {
      assert LeadsToInsert(s, batch, [s]);
    } else {
      var s' := ReadyHasStep(s, batch);
      StepBeforeInsert(s, s', batch);
      ReachesInsert(s', batch);
      StepThenInsert(s, s', batch);
    }
  }

  lemma RunsConcatenate(run1: seq<State>, run2: seq<State>)
    requires IsRun(run1) && IsRun(run2) && Next(run1[|run1| - 1], run2[0])
    ensures IsRun(run1 + run2)
  {
    var run := run1 + run2;
    forall k | 0 <= k < |run| - 1 ensures StepAt(run, k) {
      if k < |run1| - 1 {
        assert StepAt(run1, k);
      } else if k >= |run1| {
        assert StepAt(run2, k - |run1|);
      }
    }
  }

  lemma AloneRunIsRun(run: seq<State>)
    requires IsAloneRun(run)
    ensures IsRun(run)
  {
    forall k | 0 <= k < |run| - 1 ensures StepAt(run, k) {
      assert AloneStepAt(run, k);
      AloneStepIsStep(run[k], run[k + 1]);
    }
  }

  /** A process that starts on a batch without a row gets to the insert. */
  lemma StartReachesInsert(s: State, batch: nat, config: Config) returns (run: seq<State>)
    requires Inv(s) && s.process.Idle? && batch !in s.store.rows && IsStartable(s, batch, config)
    ensures LeadsToInsert(StartedAt(s, config), batch, run)
  {
    StartedIsReady(s, batch, config);
    ReachesInsert(StartedAt(s, config), batch);
    run :| LeadsToInsert(StartedAt(s, config), batch, run);
  }

  /** The process dies with the insert of the row in flight. */
  lemma StopsWithInsertInFlight(s: State, s': State, batch: nat) returns (rival: Write)
    requires Inv(s) && Ready(s, batch) && s.process.phase.Insert? && s.process.phase.connected
    requires s' == s.(process := Idle(Failed), late := s.late + InFlight(s.process))
    ensures Next(s, s') && Inv(s') && rival in s'.late && IsRival(rival, batch)
  {
    assert Interrupt(s, s');
    NextKeepsInv(s, s');
    rival := RowWrite(s.process.config, s.process.phase.progress);
    assert rival in InFlight(s.process);
  }

  lemma RivalLandsFirst(s: State, landed: State, failed: State, rival: Write, batch: nat)
    requires Ready(s, batch) && batch !in s.store.rows && s.process.phase.Insert? && s.process.phase.connected
    requires rival in s.late && IsRival(rival, batch)
    requires landed == s.(store := Apply(s.store, rival), late := s.late - {rival})
    requires failed == landed.(process := Idle(Failed))
    ensures AloneStep(s, landed) && ProcessStep(landed, failed)
  {
    assert AddSnapshot(landed, failed);
    assert MainStep(landed, failed);
    assert LandOf(s, landed, rival);
    assert Land(s, landed);
  }

  lemma ExtendAlone(run: seq<State>, s: State)
    requires IsAloneRun(run) && AloneStep(run[|run| - 1], s)
    ensures IsAloneRun(run + [s])
  {
    var next := run + [s];
    forall k | 0 <= k < |next| - 1 ensures AloneStepAt(next, k) {
      if k < |run| - 1 {
        assert AloneStepAt(run, k);
      }
    }
  }

  lemma RaceFails(s: State, batch: nat, race: seq<State>, rival: Write) returns (run: seq<State>)
    requires LeadsToInsert(s, batch, race) && rival in s.late && IsRival(rival, batch)
    ensures IsAloneRun(run) && run[0] == s && run[|run| - 1].process == Idle(Failed)
  {
    var before := race[|race| - 1];
    var landed := before.(store := Apply(before.store, rival), late := before.late - {rival});
    var failed := landed.(process := Idle(Failed));
    RivalLandsFirst(before, landed, failed, rival, batch);
    ExtendAlone(race, landed);
    assert (race + [landed])[|race|] == landed;
    ExtendAlone(race + [landed], failed);
    run := race + [landed] + [failed];
  }

  /** If the insert of a dead process is still in flight and there is no row, the next run can fail
      although nothing interrupts it: it sees no row, and then the insert lands. */
  lemma RivalFailsNextRun(s: State, batch: nat, config: Config) returns (run: seq<State>)
    requires Inv(s) && s.process.Idle? && IsStartable(s, batch, config) && !IsClear(s, batch)
    ensures IsAloneRun(run) && run[0] == StartedAt(s, config) && run[|run| - 1].process == Idle(Failed)
  {
    var rival :| rival in s.late && IsRival(rival, batch);
    var race := StartReachesInsert(s, batch, config);
    run := RaceFails(StartedAt(s, config), batch, race, rival);
  }

  lemma FailedDoesNotGoOn(s: State, batch: nat)
    requires s.process == Idle(Failed)
    ensures !GoesOn(s, batch)
  {
    forall s' ensures !ProcessStep(s, s') {
      IdleHasNoStep(s, s');
    }
  }

  /** Every run that a process started here can have, if it is not interrupted, goes on or has
      completed the snapshot. */
  ghost predicate EveryRunGoesOn(s: State, batch: nat, config: Config) {
    forall run :: IsAloneRun(run) && run[0] == StartedAt(s, config) ==> GoesOn(run[|run| - 1], batch)
  }

  lemma ClearRunsGoOn(s: State, batch: nat, config: Config, run: seq<State>)
    requires Inv(s) && s.process.Idle? && IsStartable(s, batch, config) && IsClear(s, batch)
    requires IsAloneRun(run) && run[0] == StartedAt(s, config)
    ensures GoesOn(run[|run| - 1], batch)
  {
    StartedIsReady(s, batch, config);
    SafeRunCompletes(run, batch);
  }

  /** Whether the next run is sure to complete can be told before it starts: with any schedule, any
      growth of the tables and any late requests it does, if and only if there is a row of the
      batch or no insert of one is still in flight. */
  lemma EveryRunGoesOnExactlyWhen(s: State, batch: nat, config: Config)
    requires Inv(s) && s.process.Idle? && IsStartable(s, batch, config)
    ensures EveryRunGoesOn(s, batch, config) <==> IsClear(s, batch)
  {
    if IsClear(s, batch) {
      forall run | IsAloneRun(run) && run[0] == StartedAt(s, config) ensures GoesOn(run[|run| - 1], batch) {
        ClearRunsGoOn(s, batch, config, run);
      }
    } else {
      var run := RivalFailsNextRun(s, batch, config);
      FailedDoesNotGoOn(run[|run| - 1], batch);
    }
  }

  /** Such a state does come about: wherever a snapshot can be started, a process can die while it
      inserts the row. */
  lemma RunCanLeaveRival(s: State, batch: nat, config: Config) returns (run: seq<State>)
    requires Inv(s) && s.process.Idle? && batch !in s.store.rows && IsStartable(s, batch, config)
    ensures IsRun(run) && run[0] == s
    ensures
      var last := run[|run| - 1];
      Inv(last) && last.process.Idle? && IsStartable(last, batch, config) && !IsClear(last, batch)
  {
    var first := StartReachesInsert(s, batch, config);
    var last := first[|first| - 1];
    var stopped := last.(process := Idle(Failed), late := last.late + InFlight(last.process));
    var rival := StopsWithInsertInFlight(last, stopped, batch);
    StartIsStep(s, config);
    AloneRunIsRun(first);
    RunsConcatenate([s], first);
    RunsConcatenate([s] + first, [stopped]);
    run := [s] + first + [stopped];
  }
}
