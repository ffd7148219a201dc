/** Permits and connections of the snapshot creator, and that it is never stuck. */
module SnapshotLiveness {
  import opened Wrappers
  import opened StorageHistory
  import opened SnapshotProtocol
  import opened SnapshotSafety
  import opened Runs

  // ---------------------------------------------------------------------------------------------
  // Resources
  // ---------------------------------------------------------------------------------------------

  lemma SubsetSize(a: set<nat>, b: set<nat>)
    requires a <= b
    ensures |a| <= |b|
  {
    assert b == a + (b - a);
  }

  /** In every reachable state the replica connections in use are at most the permits in use,
      those are at most the configured concurrency, at most one task holds the master connection,
      and no task holds both kinds. */
  lemma ResourceBounds(run: seq<State>, k: nat)
    requires IsRun(run) && Init(run[0]) && k < |run|
    requires run[k].process.Running? && run[k].process.phase.Chunks?
    ensures
      var tasks := run[k].process.phase.tasks;
      && |ReplicaHolders(tasks)| <= |PermitHolders(tasks)| <= run[k].process.config.concurrency
      && |MasterHolders(tasks)| <= 1
      && ReplicaHolders(tasks) !! MasterHolders(tasks)
  {
    InitIsGood(run[0]);
    RunKeepsInv(run, k);
    var tasks := run[k].process.phase.tasks;
    SubsetSize(ReplicaHolders(tasks), PermitHolders(tasks));
  }

  /** A task that got its permit never waits for a replica connection: the pool is as large as
      the semaphore, and the task itself holds a permit without a connection. */
  lemma PermitGivesReplica(tasks: map<nat, Stage>, chunkId: nat, permits: nat)
    requires chunkId in tasks && tasks[chunkId].HasPermit? && |PermitHolders(tasks)| <= permits
    ensures |ReplicaHolders(tasks)| < permits
  {
    SubsetSize(ReplicaHolders(tasks) + {chunkId}, PermitHolders(tasks));
  }

  // ---------------------------------------------------------------------------------------------
  // Deadlock
  // ---------------------------------------------------------------------------------------------

  /** The replica pool of a running process is not empty. */
  predicate HasPool(process: Process) {
    process.Running? ==> 0 < process.config.concurrency
  }

  lemma ProcessKeepsPool(s: State, s': State)
    ensures HasPool(s.process) && ProcessStep(s, s') ==> HasPool(s'.process)
  {
  }

  lemma NextKeepsPool(s: State, s': State)
    ensures HasPool(s.process) && Next(s, s') ==> HasPool(s'.process)
  {
    ProcessKeepsPool(s, s');
  }

  lemma RunKeepsPool(run: seq<State>, k: nat)
    requires IsRun(run) && HasPool(run[0].process) && k < |run|
    ensures HasPool(run[k].process)
  {
    RunHasSteps(run);
    forall s: State, s': State ensures HasPool(s.process) && Next(s, s') ==> HasPool(s'.process) {
      NextKeepsPool(s, s');
    }
    HoldsAlong(run, 0, k, (s: State) => HasPool(s.process), (s, s') => Next(s, s'));
  }

  ghost predicate CanStep(s: State) {
    exists s' :: ProcessStep(s, s')
  }

  lemma SomeTaskMoves(config: Config, tasks: map<nat, Stage>) returns (chunkId: nat)
    requires Unfinished(tasks) != {} && 0 < config.concurrency
    requires |PermitHolders(tasks)| <= config.concurrency && |MasterHolders(tasks)| <= 1
    ensures chunkId in tasks && CanMove(config, tasks, tasks[chunkId])
  {
    if MasterHolders(tasks) != {} {
      chunkId :| chunkId in MasterHolders(tasks);
    } else if PermitHolders(tasks) != {} {
      chunkId :| chunkId in PermitHolders(tasks);
      if tasks[chunkId].HasPermit? {
        PermitGivesReplica(tasks, chunkId, config.concurrency);
      }
    } else {
      chunkId :| chunkId in Unfinished(tasks);
      assert chunkId !in PermitHolders(tasks);
    }
  }

  lemma TaskCanStep(s: State, chunkId: nat)
    requires s.process.Running? && s.process.phase.Chunks? && chunkId in s.process.phase.tasks
    requires CanMove(s.process.config, s.process.phase.tasks, s.process.phase.tasks[chunkId])
    ensures CanStep(s)
  {
    var Chunks(progress, block, tasks, left) := s.process.phase;
    var next := NextStage(s.store.db, progress, block, chunkId, tasks[chunkId]);
    var s' := s.(
      store := StoreAfter(s.store, progress, chunkId, tasks[chunkId]),
      process := Running(s.process.config, Chunks(progress, block, tasks[chunkId := next],
        if next.Done? then left - 1 else left)));
    assert TaskStep(s, s', chunkId);
    assert ProcessStep(s, s');
  }

  lemma ChunksCanStep(s: State)
    requires Inv(s) && s.process.Running? && s.process.phase.Chunks? && HasPool(s.process)
    ensures CanStep(s)
  {
    var tasks := s.process.phase.tasks;
    if Unfinished(tasks) == {} {
      assert forall i :: i in tasks ==> i !in Unfinished(tasks);
      var s' := s.(process := Idle(Completed(s.process.phase.progress.batch)));
      assert Finish(s, s');
      assert ProcessStep(s, s');
    } else {
      var chunkId := SomeTaskMoves(s.process.config, tasks);
      TaskCanStep(s, chunkId);
    }
  }

  lemma {:induction false} LastBatchExists(batches: set<nat>) returns (last: nat)
    requires batches != {}
    ensures last in batches && forall b :: b in batches ==> b <= last
    decreases |batches|
  {
    var some :| some in batches;
    if batches == {some} {
      last := some;
    } else {
      var rest := LastBatchExists(batches - {some});
      last := if some < rest then rest else some;
      assert forall b :: b in batches ==> b == some || b in batches - {some};
    }
  }

  lemma PickCanStep(s: State)
    requires s.process.Running? && s.process.phase == ReadSealed(true)
    ensures CanStep(s)
  {
    var batches := s.store.db.batches;
    var s';
    if batches == map[] {
      s' := s.(process := Idle(Failed));
    } else {
      assert batches.Keys != {};
      var sealed := LastBatchExists(batches.Keys);
      assert IsSealedBatch(s.store.db, sealed);
      var l1Batch := s.process.config.l1Batch;
      s' := if l1Batch.Some? then
        (if l1Batch.value <= sealed then s.(process := s.process.(phase := ReadRow(l1Batch.value)))
         else s.(process := Idle(Failed)))
      else
        (if sealed != 0 then s.(process := s.process.(phase := ReadRow(sealed - 1)))
         else s.(process := Idle(Failed)));
      assert PickBelow(s, s', sealed);
    }
    assert PickBatch(s, s');
    assert ProcessStep(s, s');
  }

  lemma PrepareCanStep(s: State)
    requires s.process.Running? && s.process.phase.Initialize? && s.process.phase.connected
    ensures CanStep(s)
  {
    var batch, config := s.process.phase.batch, s.process.config;
    var s';
    if CanInitialize(s.store.db, batch, config) {
      var version, chunkCount: nat :| Chooses(s.store.db, batch, config, version, chunkCount) && chunkCount <= I32_MAX;
      s' := s.(process := s.process.(phase := FindBlock(NewProgress(version, batch, chunkCount), false)));
      assert Move(s, s', FindBlock(NewProgress(version, batch, chunkCount), false));
    } else {
      s' := s.(process := Idle(Failed));
    }
    assert Prepare(s, s');
    assert ProcessStep(s, s');
  }

  predicate WantsConnection(phase: Phase) {
    match phase
    case ReadSealed(connected) => !connected
    case Initialize(_, connected) => !connected
    case FindBlock(_, connected) => !connected
    case LoadDeps(_, _, connected) => !connected
    case Insert(_, _, connected) => !connected
    case _ => false
  }

  function Connected(phase: Phase): Phase {
    match phase
    case ReadSealed(_) => ReadSealed(true)
    case Initialize(batch, _) => Initialize(batch, true)
    case FindBlock(progress, _) => FindBlock(progress, true)
    case LoadDeps(progress, block, _) => LoadDeps(progress, block, true)
    case Insert(progress, block, _) => Insert(progress, block, true)
    case _ => phase
  }

  lemma ConnectCanStep(s: State)
    requires s.process.Running? && HasPool(s.process) && WantsConnection(s.process.phase)
    ensures CanStep(s)
  {
    var s' := s.(process := s.process.(phase := Connected(s.process.phase)));
    assert Connect(s, s');
    assert ProcessStep(s, s');
  }

  lemma RequestCanStep(s: State)
    requires s.process.Running? && !WantsConnection(s.process.phase)
    requires !s.process.phase.ReadSealed? && !s.process.phase.Initialize? && !s.process.phase.Chunks?
    ensures CanStep(s)
  {
    var failed := s.(process := Idle(Failed));
    var s': State;
    match s.process.phase {
      case ReadRow(batch) =>
        s' := if batch !in s.store.rows then s.(process := s.process.(phase := Initialize(batch, false)))
          else if IsComplete(s.store.rows[batch]) || s.process.config.l1Batch.None? then s.(process := Idle(Skipped))
          else s.(process := s.process.(phase := FindBlock(FromExisting(batch, s.store.rows[batch]), false)));
        assert Decide(s, s');
      case FindBlock(progress, _) =>
        if Ended(s.store.db, progress.batch) {
          var block := s.store.db.batches[progress.batch].lastBlock.value;
          s' := s.(process := s.process.(phase :=
            if progress.isNew then LoadDeps(progress, block, false) else StartChunks(progress, block)));
        } else {
          s' := failed;
        }
        assert ResolveBlock(s, s');
      case LoadDeps(progress, block, _) =>
        s' := s.(process := s.process.(phase := StoreDeps(progress, block, FactoryDepsUpTo(s.store.db, block))));
        assert ReadDeps(s, s');
      case StoreDeps(progress, block, deps) =>
        s' := s.(store := Apply(s.store, DepsWrite(progress, deps)),
                 process := s.process.(phase := Insert(progress, block, false)));
        assert PutDeps(s, s');
      case Insert(progress, block, _) =>
        s' := if progress.batch in s.store.rows then failed
          else s.(store := Apply(s.store, RowWrite(s.process.config, progress)),
                  process := s.process.(phase := StartChunks(progress, block)));
        assert AddSnapshot(s, s');
    }
    assert ProcessStep(s, s');
  }

  lemma RunningCanStep(s: State)
    requires Inv(s) && s.process.Running? && HasPool(s.process)
    ensures CanStep(s)
  {
    match s.process.phase
    case ReadSealed(connected) => if connected { PickCanStep(s); } else { ConnectCanStep(s); }
    case ReadRow(_) => RequestCanStep(s);
    case Initialize(_, connected) => if connected { PrepareCanStep(s); } else { ConnectCanStep(s); }
    case FindBlock(_, connected) => if connected { RequestCanStep(s); } else { ConnectCanStep(s); }
    case LoadDeps(_, _, connected) => if connected { RequestCanStep(s); } else { ConnectCanStep(s); }
    case StoreDeps(_, _, _) => RequestCanStep(s);
    case Insert(_, _, connected) => if connected { RequestCanStep(s); } else { ConnectCanStep(s); }
    case Chunks(_, _, _, _) => ChunksCanStep(s);
  }

  /** No reachable state is a deadlock: whatever runs there were and wherever they stopped, a
      process that is running has a step to take. */
  lemma NeverStuck(run: seq<State>, k: nat)
    requires IsRun(run) && Init(run[0]) && k < |run| && run[k].process.Running?
    ensures CanStep(run[k])
  {
    InitIsGood(run[0]);
    RunKeepsInv(run, k);
    RunKeepsPool(run, k);
    RunningCanStep(run[k]);
  }
}
