/** What every step of the snapshot creator keeps, and what follows for a complete snapshot. */
module SnapshotSafety {
  import opened Arithmetic
  import opened Wrappers
  import opened KeyChunks
  import opened StorageHistory
  import opened ObjectKeys
  import opened SnapshotProtocol
  import opened Runs

  // ---------------------------------------------------------------------------------------------
  // The invariant
  // ---------------------------------------------------------------------------------------------

  predicate Ended(db: Db, batch: nat) {
    batch in db.batches && db.batches[batch].lastBlock.Some?
  }

  ghost function ExpectedDeps(db: Db, batch: nat): Content
    requires Ended(db, batch)
  {
    DepsContent(FactoryDepsUpTo(db, db.batches[batch].lastBlock.value))
  }

  ghost function ExpectedLogs(db: Db, batch: nat, version: Version, chunkId: nat, chunkCount: nat): Content
    requires Ended(db, batch) && chunkId < chunkCount <= I32_MAX
  {
    LogsContent(version, ChunkLogs(db, db.batches[batch].lastBlock.value, batch,
      UniformHashedKeysChunk(chunkId, chunkCount)))
  }

  /** Content that may be stored under a key: for logs, the chunk that the row of the batch asks
      for, in the row's version and under the row's chunk count. */
  ghost predicate IsExpected(store: Store, key: BlobKey, content: Content) {
    && Ended(store.db, key.batch)
    && match key
       case FactoryDeps(batch) => content == ExpectedDeps(store.db, batch)
       case StorageLogs(batch, chunkId) =>
         && batch in store.rows
         && chunkId < |store.rows[batch].paths| <= I32_MAX
         && content == ExpectedLogs(store.db, batch, store.rows[batch].version, chunkId, |store.rows[batch].paths|)
  }

  predicate HasBlob(store: Store, key: BlobKey) {
    EncodeKey(key) in store.blobs
  }

  ghost predicate BlobsAreExpected(store: Store) {
    forall key :: HasBlob(store, key) ==> IsExpected(store, key, store.blobs[EncodeKey(key)])
  }

  ghost predicate ShapeIsChosen(store: Store, batch: nat, config: Config, row: Row) {
    && Ended(store.db, batch) && store.db.batches[batch].hasTreeData
    && Chooses(store.db, batch, config, row.version, |row.paths|)
    && |row.paths| <= I32_MAX
    && row.depsPath == FilePath(BUCKET, FactoryDeps(batch))
    && HasBlob(store, FactoryDeps(batch))
  }

  predicate PathIsBacked(store: Store, batch: nat, chunkId: nat, path: string) {
    path == FilePath(BUCKET, StorageLogs(batch, chunkId)) && HasBlob(store, StorageLogs(batch, chunkId))
  }

  ghost predicate RowIsGood(store: Store, batch: nat)
    requires batch in store.rows
  {
    var row := store.rows[batch];
    && batch in store.creators
    && ShapeIsChosen(store, batch, store.creators[batch], row)
    && forall i :: 0 <= i < |row.paths| && row.paths[i] != "" ==> PathIsBacked(store, batch, i, row.paths[i])
  }

  ghost predicate RowsAreGood(store: Store) {
    forall batch :: batch in store.rows ==> RowIsGood(store, batch)
  }

  ghost predicate StoreInv(store: Store) {
    && WellFormed(store.db)
    && BlobsAreExpected(store)
    && store.creators.Keys == store.rows.Keys
    && RowsAreGood(store)
  }

  /** A request that keeps the invariant whenever it arrives. */
  ghost predicate WriteIsGood(store: Store, write: Write) {
    match write
    case PutBlob(key, content) => IsExpected(store, key, content)
    case InsertRow(batch, row, config) =>
      ShapeIsChosen(store, batch, config, row) && forall i :: 0 <= i < |row.paths| ==> row.paths[i] == ""
    case SetPath(batch, chunkId, path) =>
      batch in store.rows && chunkId < |store.rows[batch].paths| && PathIsBacked(store, batch, chunkId, path)
  }

  ghost predicate MatchesRow(store: Store, progress: Progress) {
    && progress.batch in store.rows
    && store.rows[progress.batch].version == progress.version
    && |store.rows[progress.batch].paths| == progress.chunkCount
  }

  /** Distinct chunk ids that include every chunk not recorded yet. */
  ghost predicate CoversUnrecorded(store: Store, progress: Progress)
    requires MatchesRow(store, progress)
  {
    && NoRepeats(progress.remaining)
    && (forall id :: id in progress.remaining ==> id < progress.chunkCount)
    && forall i :: 0 <= i < progress.chunkCount && store.rows[progress.batch].paths[i] == "" ==> i in progress.remaining
  }

  predicate NoRepeats(ids: seq<nat>) {
    forall i, j :: 0 <= i < j < |ids| ==> ids[i] != ids[j]
  }

  ghost predicate ProgressIsGood(store: Store, config: Config, progress: Progress) {
    if progress.isNew then
      && Chooses(store.db, progress.batch, config, progress.version, progress.chunkCount)
      && progress.chunkCount <= I32_MAX
      && progress.batch in store.db.batches && store.db.batches[progress.batch].hasTreeData
      && progress == NewProgress(progress.version, progress.batch, progress.chunkCount)
    else
      MatchesRow(store, progress) && CoversUnrecorded(store, progress)
  }

  /** A task has the logs of its chunk once they are loaded, its blob is there once it is stored,
      and its path is there once it is recorded. */
  ghost predicate TaskIsGood(store: Store, progress: Progress, chunkId: nat, stage: Stage)
    requires MatchesRow(store, progress)
  {
    && chunkId < progress.chunkCount
    && (stage.Loaded? ==> WriteIsGood(store, LogsWrite(progress, chunkId, stage.logs)))
    && (stage.Stored? || stage.HasMaster? ==> HasBlob(store, StorageLogs(progress.batch, chunkId)))
    && (stage.Recorded? || stage.Done? ==> store.rows[progress.batch].paths[chunkId] != "")
  }

  function Unfinished(tasks: map<nat, Stage>): set<nat> {
    set i | i in tasks && !tasks[i].Done?
  }

  ghost predicate TasksAreGood(store: Store, config: Config, progress: Progress, tasks: map<nat, Stage>, left: int)
    requires MatchesRow(store, progress)
  {
    && (forall i :: i in tasks ==> TaskIsGood(store, progress, i, tasks[i]))
    && (forall i :: 0 <= i < progress.chunkCount && store.rows[progress.batch].paths[i] == "" ==> i in tasks)
    && |PermitHolders(tasks)| <= config.concurrency
    && |MasterHolders(tasks)| <= 1
    && left == |Unfinished(tasks)|
  }

  ghost predicate ProcessIsGood(store: Store, process: Process) {
    match process
    case Idle(_) => true
    case Running(config, phase) =>
      match phase
      case ReadSealed(_) => true
      case ReadRow(_) => true
      case Initialize(_, _) => true
      case FindBlock(progress, _) => ProgressIsGood(store, config, progress)
      case LoadDeps(progress, block, _) =>
        progress.isNew && ProgressIsGood(store, config, progress) && EndsAt(store.db, progress.batch, block)
      case StoreDeps(progress, block, deps) =>
        progress.isNew && ProgressIsGood(store, config, progress) && EndsAt(store.db, progress.batch, block)
        && deps == FactoryDepsUpTo(store.db, block)
      case Insert(progress, block, _) =>
        progress.isNew && ProgressIsGood(store, config, progress) && EndsAt(store.db, progress.batch, block)
        && HasBlob(store, FactoryDeps(progress.batch))
      case Chunks(progress, block, tasks, left) =>
        MatchesRow(store, progress) && EndsAt(store.db, progress.batch, block)
        && TasksAreGood(store, config, progress, tasks, left)
  }

  ghost predicate Inv(s: State) {
    && StoreInv(s.store)
    && (forall write :: write in s.late ==> WriteIsGood(s.store, write))
    && ProcessIsGood(s.store, s.process)
  }

  // ---------------------------------------------------------------------------------------------
  // Durable state only grows
  // ---------------------------------------------------------------------------------------------

  predicate RowExtends(row: Row, next: Row) {
    && next.version == row.version && next.depsPath == row.depsPath && |next.paths| == |row.paths|
    && forall i :: 0 <= i < |row.paths| && row.paths[i] != "" ==> next.paths[i] == row.paths[i]
  }

  /** No row is lost, reshaped or given to another creator, no recorded path is cleared, no blob
      is lost or overwritten with something else. */
  ghost predicate Extends(store: Store, next: Store) {
    && Grows(store.db, next.db)
    && (forall b :: b in store.rows ==> b in next.rows && RowExtends(store.rows[b], next.rows[b]))
    && (forall b :: b in store.creators ==> b in next.creators && next.creators[b] == store.creators[b])
    && (forall name :: name in store.blobs ==> name in next.blobs && next.blobs[name] == store.blobs[name])
  }

  lemma ExtendsIsReflexive(store: Store)
    requires WellFormed(store.db)
    ensures Extends(store, store)
  {
  }

  lemma ChoosesIsStable(db: Db, next: Db, batch: nat, config: Config, version: Version, chunkCount: nat)
    requires Grows(db, next) && batch in db.batches
    ensures Chooses(db, batch, config, version, chunkCount) <==> Chooses(next, batch, config, version, chunkCount)
  {
    forall count: nat ensures IsKeysCount(db, batch, count) <==> IsKeysCount(next, batch, count) {
      KeysCountIsStable(db, next, batch, count);
    }
  }

  lemma IsExpectedIsStable(store: Store, next: Store, key: BlobKey, content: Content)
    requires Extends(store, next) && IsExpected(store, key, content)
    ensures IsExpected(next, key, content)
  {
    QueriesAreStable(store.db, next.db, key.batch, store.db.batches[key.batch].lastBlock.value);
  }

  lemma ShapeIsStable(store: Store, next: Store, batch: nat, config: Config, row: Row)
    requires Extends(store, next) && ShapeIsChosen(store, batch, config, row)
    ensures ShapeIsChosen(next, batch, config, row)
  {
    ChoosesIsStable(store.db, next.db, batch, config, row.version, |row.paths|);
  }

  lemma WriteIsStable(store: Store, next: Store, write: Write)
    requires Extends(store, next) && WriteIsGood(store, write)
    ensures WriteIsGood(next, write)
  {
    match write
    case PutBlob(key, content) => IsExpectedIsStable(store, next, key, content);
    case InsertRow(batch, row, config) => ShapeIsStable(store, next, batch, config, row);
    case SetPath(_, _, _) =>
  }

  lemma ProgressIsStable(store: Store, next: Store, config: Config, progress: Progress)
    requires Extends(store, next) && ProgressIsGood(store, config, progress)
    ensures ProgressIsGood(next, config, progress)
  {
    if progress.isNew {
      ChoosesIsStable(store.db, next.db, progress.batch, config, progress.version, progress.chunkCount);
    }
  }

  lemma TasksAreStable(store: Store, next: Store, config: Config, progress: Progress, tasks: map<nat, Stage>, left: int)
    requires Extends(store, next) && MatchesRow(store, progress) && TasksAreGood(store, config, progress, tasks, left)
    ensures MatchesRow(next, progress) && TasksAreGood(next, config, progress, tasks, left)
  {
    forall i | i in tasks ensures TaskIsGood(next, progress, i, tasks[i]) {
      if tasks[i].Loaded? {
        WriteIsStable(store, next, LogsWrite(progress, i, tasks[i].logs));
      }
    }
  }

  lemma ProcessIsStable(store: Store, next: Store, process: Process)
    requires Extends(store, next) && ProcessIsGood(store, process)
    ensures ProcessIsGood(next, process)
  {
    if process.Running? {
      match process.phase
      case ReadSealed(_) =>
      case ReadRow(_) =>
      case Initialize(_, _) =>
      case FindBlock(progress, _) => ProgressIsStable(store, next, process.config, progress);
      case LoadDeps(progress, block, _) => ProgressIsStable(store, next, process.config, progress);
      case StoreDeps(progress, block, deps) =>
        ProgressIsStable(store, next, process.config, progress);
        QueriesAreStable(store.db, next.db, progress.batch, block);
      case Insert(progress, block, _) => ProgressIsStable(store, next, process.config, progress);
      case Chunks(progress, block, tasks, left) => TasksAreStable(store, next, process.config, progress, tasks, left);
    }
  }

  // ---------------------------------------------------------------------------------------------
  // Requests keep the durable invariant
  // ---------------------------------------------------------------------------------------------

  lemma PutExtends(store: Store, key: BlobKey, content: Content)
    requires WellFormed(store.db) && BlobsAreExpected(store) && IsExpected(store, key, content)
    ensures Extends(store, Apply(store, PutBlob(key, content)))
  {
    GrowsIsReflexive(store.db);
    if HasBlob(store, key) {
      assert IsExpected(store, key, store.blobs[EncodeKey(key)]);
    }
  }

  lemma InsertExtends(store: Store, batch: nat, row: Row, config: Config)
    requires WellFormed(store.db) && store.creators.Keys == store.rows.Keys
    ensures Extends(store, Apply(store, InsertRow(batch, row, config)))
  {
    GrowsIsReflexive(store.db);
  }

  lemma SetPathExtends(store: Store, batch: nat, chunkId: nat, path: string)
    requires WellFormed(store.db) && batch in store.rows && chunkId < |store.rows[batch].paths|
    requires store.rows[batch].paths[chunkId] in {"", path}
    ensures Extends(store, Apply(store, SetPath(batch, chunkId, path)))
  {
    GrowsIsReflexive(store.db);
    var next := Apply(store, SetPath(batch, chunkId, path));
    assert RowExtends(store.rows[batch], next.rows[batch]);
    assert forall b :: b in store.rows && b != batch ==> next.rows[b] == store.rows[b];
  }

  lemma ApplyExtends(store: Store, write: Write)
    requires StoreInv(store) && WriteIsGood(store, write)
    ensures Extends(store, Apply(store, write))
  {
    match write
    case PutBlob(key, content) => PutExtends(store, key, content);
    case InsertRow(batch, row, config) => InsertExtends(store, batch, row, config);
    case SetPath(batch, chunkId, path) =>
      assert RowIsGood(store, batch);
      if store.rows[batch].paths[chunkId] != "" {
        assert PathIsBacked(store, batch, chunkId, store.rows[batch].paths[chunkId]);
      }
      SetPathExtends(store, batch, chunkId, path);
  }

  lemma ApplyKeepsBlobs(store: Store, write: Write)
    requires StoreInv(store) && WriteIsGood(store, write)
    ensures BlobsAreExpected(Apply(store, write))
  {
    var next := Apply(store, write);
    ApplyExtends(store, write);
    forall key | HasBlob(next, key) ensures IsExpected(next, key, next.blobs[EncodeKey(key)]) {
      if write.PutBlob? && EncodeKey(key) == EncodeKey(write.key) {
        EncodeKeyIsInjective(key, write.key);
        IsExpectedIsStable(store, next, key, write.content);
      } else {
        assert HasBlob(store, key);
        IsExpectedIsStable(store, next, key, store.blobs[EncodeKey(key)]);
      }
    }
  }

  lemma PathsStayBacked(store: Store, next: Store, batch: nat, write: Write)
    requires Extends(store, next) && next == Apply(store, write) && WriteIsGood(store, write)
    requires batch in store.rows && RowIsGood(store, batch)
    ensures forall i :: 0 <= i < |next.rows[batch].paths| && next.rows[batch].paths[i] != "" ==>
      PathIsBacked(next, batch, i, next.rows[batch].paths[i])
  {
    forall i | 0 <= i < |next.rows[batch].paths| && next.rows[batch].paths[i] != ""
      ensures PathIsBacked(next, batch, i, next.rows[batch].paths[i])
    {
      if write.SetPath? && write.batch == batch && write.chunkId == i {
        assert PathIsBacked(store, batch, i, write.path);
      } else {
        assert PathIsBacked(store, batch, i, store.rows[batch].paths[i]);
      }
    }
  }

  lemma ApplyKeepsRow(store: Store, write: Write, batch: nat)
    requires StoreInv(store) && WriteIsGood(store, write) && batch in Apply(store, write).rows
    ensures RowIsGood(Apply(store, write), batch)
  {
    var next := Apply(store, write);
    ApplyExtends(store, write);
    if batch in store.rows {
      assert RowIsGood(store, batch);
      ShapeIsStable(store, next, batch, store.creators[batch], store.rows[batch]);
      PathsStayBacked(store, next, batch, write);
    } else {
      ShapeIsStable(store, next, batch, write.config, write.row);
    }
  }

  lemma ApplyKeepsTables(store: Store, write: Write)
    requires store.creators.Keys == store.rows.Keys
    ensures Apply(store, write).db == store.db
    ensures Apply(store, write).creators.Keys == Apply(store, write).rows.Keys
  {
  }

  lemma ApplyKeepsRows(store: Store, write: Write)
    requires StoreInv(store) && WriteIsGood(store, write)
    ensures RowsAreGood(Apply(store, write))
  {
    forall batch | batch in Apply(store, write).rows ensures RowIsGood(Apply(store, write), batch) {
      ApplyKeepsRow(store, write, batch);
    }
  }

  lemma ApplyKeepsStore(store: Store, write: Write)
    requires StoreInv(store) && WriteIsGood(store, write)
    ensures StoreInv(Apply(store, write)) && Extends(store, Apply(store, write))
  {
    ApplyExtends(store, write);
    ApplyKeepsBlobs(store, write);
    ApplyKeepsTables(store, write);
    ApplyKeepsRows(store, write);
  }

  lemma GrowExtends(store: Store, db: Db)
    requires Grows(store.db, db)
    ensures Extends(store, store.(db := db))
  {
  }

  lemma GrowKeepsRow(store: Store, next: Store, batch: nat)
    requires Extends(store, next) && next == store.(db := next.db)
    requires batch in store.rows && RowIsGood(store, batch)
    ensures RowIsGood(next, batch)
  {
    ShapeIsStable(store, next, batch, store.creators[batch], store.rows[batch]);
    forall i | 0 <= i < |next.rows[batch].paths| && next.rows[batch].paths[i] != ""
      ensures PathIsBacked(next, batch, i, next.rows[batch].paths[i])
    {
      assert PathIsBacked(store, batch, i, store.rows[batch].paths[i]);
    }
  }

  lemma GrowKeepsStore(store: Store, db: Db)
    requires StoreInv(store) && Grows(store.db, db)
    ensures StoreInv(store.(db := db)) && Extends(store, store.(db := db))
  {
    var next := store.(db := db);
    GrowExtends(store, db);
    forall key | HasBlob(next, key) ensures IsExpected(next, key, next.blobs[EncodeKey(key)]) {
      assert HasBlob(store, key);
      IsExpectedIsStable(store, next, key, store.blobs[EncodeKey(key)]);
    }
    forall batch | batch in next.rows ensures RowIsGood(next, batch) {
      GrowKeepsRow(store, next, batch);
    }
  }

  // ---------------------------------------------------------------------------------------------
  // Steps keep the invariant
  // ---------------------------------------------------------------------------------------------

  /** A resumed run works on exactly the chunks whose path is empty, in increasing order. */
  lemma {:induction false} UnrecordedIsExact(paths: seq<string>, from: nat)
    requires from <= |paths|
    ensures forall id :: id in Unrecorded(paths, from) <==> from <= id < |paths| && paths[id] == ""
    ensures forall i, j :: 0 <= i < j < |Unrecorded(paths, from)| ==> Unrecorded(paths, from)[i] < Unrecorded(paths, from)[j]
    decreases |paths| - from
  {
    if from < |paths| {
      UnrecordedIsExact(paths, from + 1);
      var rest := Unrecorded(paths, from + 1);
      forall j | 0 <= j < |rest| ensures from < rest[j] {
        assert rest[j] in rest;
      }
      assert Unrecorded(paths, from) == (if paths[from] == "" then [from] else []) + rest;
    }
  }

  lemma ResumedProgressIsGood(store: Store, config: Config, batch: nat)
    requires batch in store.rows
    ensures ProgressIsGood(store, config, FromExisting(batch, store.rows[batch]))
  {
    UnrecordedIsExact(store.rows[batch].paths, 0);
  }

  lemma SizeOfDistinct(ids: seq<nat>)
    requires NoRepeats(ids)
    ensures |ToSet(ids)| == |ids|
  {
    if ids != [] {
      var n := |ids| - 1;
      SizeOfDistinct(ids[..n]);
      assert ToSet(ids) == ToSet(ids[..n]) + {ids[n]};
    }
  }

  /** When the tasks start, none holds anything and all of them are left. */
  lemma StartedTasksAreGood(store: Store, config: Config, progress: Progress)
    requires MatchesRow(store, progress) && CoversUnrecorded(store, progress)
    ensures TasksAreGood(store, config, progress, StartChunks(progress, 0).tasks, |progress.remaining|)
  {
    var tasks := StartChunks(progress, 0).tasks;
    assert PermitHolders(tasks) == {} && MasterHolders(tasks) == {};
    assert Unfinished(tasks) == ToSet(progress.remaining);
    SizeOfDistinct(progress.remaining);
  }

  /** How the holders change when one task changes stage. */
  lemma HoldersAfter(tasks: map<nat, Stage>, i: nat, stage: Stage)
    requires i in tasks
    ensures PermitHolders(tasks[i := stage]) ==
      if HoldsPermit(stage) then PermitHolders(tasks) + {i} else PermitHolders(tasks) - {i}
    ensures ReplicaHolders(tasks[i := stage]) ==
      if HoldsReplica(stage) then ReplicaHolders(tasks) + {i} else ReplicaHolders(tasks) - {i}
    ensures MasterHolders(tasks[i := stage]) ==
      if HoldsMaster(stage) then MasterHolders(tasks) + {i} else MasterHolders(tasks) - {i}
    ensures Unfinished(tasks[i := stage]) ==
      if stage.Done? then Unfinished(tasks) - {i} else Unfinished(tasks) + {i}
  {
  }

  /** The part of a task step that concerns counting. */
  lemma CountsAfter(tasks: map<nat, Stage>, i: nat, stage: Stage, permits: nat)
    requires i in tasks && !tasks[i].Done?
    requires |PermitHolders(tasks)| <= permits && |MasterHolders(tasks)| <= 1
    requires HoldsPermit(stage) && !HoldsPermit(tasks[i]) ==> |PermitHolders(tasks)| < permits
    requires HoldsMaster(stage) && !HoldsMaster(tasks[i]) ==> |MasterHolders(tasks)| < 1
    ensures |PermitHolders(tasks[i := stage])| <= permits && |MasterHolders(tasks[i := stage])| <= 1
    ensures |Unfinished(tasks[i := stage])| == |Unfinished(tasks)| - (if stage.Done? then 1 else 0)
  {
    HoldersAfter(tasks, i, stage);
    OneMoreOrLess(PermitHolders(tasks), i);
    OneMoreOrLess(MasterHolders(tasks), i);
    OneMoreOrLess(Unfinished(tasks), i);
  }

  lemma OneMoreOrLess(ids: set<nat>, i: nat)
    ensures |ids + {i}| == |ids| + (if i in ids then 0 else 1)
    ensures |ids - {i}| == |ids| - (if i in ids then 1 else 0)
  {
    if i in ids {
      assert ids + {i} == ids;
    } else {
      assert ids - {i} == ids;
    }
  }

  /** Moving one task keeps the tasks good if its new stage is justified. */
  lemma StageKeepsTasks(store: Store, next: Store, config: Config, progress: Progress,
                        tasks: map<nat, Stage>, left: int, i: nat, stage: Stage)
    requires Extends(store, next) && MatchesRow(store, progress) && MatchesRow(next, progress)
    requires TasksAreGood(store, config, progress, tasks, left)
    requires i in tasks && !tasks[i].Done? && TaskIsGood(next, progress, i, stage)
    requires HoldsPermit(stage) && !HoldsPermit(tasks[i]) ==> |PermitHolders(tasks)| < config.concurrency
    requires HoldsMaster(stage) && !HoldsMaster(tasks[i]) ==> |MasterHolders(tasks)| < 1
    ensures TasksAreGood(next, config, progress, tasks[i := stage], if stage.Done? then left - 1 else left)
  {
    TasksAreStable(store, next, config, progress, tasks, left);
    CountsAfter(tasks, i, stage, config.concurrency);
  }

  lemma ReadingStepsKeepProcess(s: State, s': State)
    requires Inv(s)
    requires Connect(s, s') || PickBatch(s, s') || Decide(s, s') || Finish(s, s') || ReadDeps(s, s')
    ensures s'.store == s.store && s'.late == s.late && ProcessIsGood(s'.store, s'.process)
  {
    if Decide(s, s') && s.process.phase.batch in s.store.rows {
      ResumedProgressIsGood(s.store, s.process.config, s.process.phase.batch);
    }
  }

  lemma PrepareKeepsProcess(s: State, s': State)
    requires Inv(s) && Prepare(s, s')
    ensures s'.store == s.store && s'.late == s.late && ProcessIsGood(s'.store, s'.process)
  {
  }

  lemma NewRowMatches(store: Store, progress: Progress)
    requires progress == NewProgress(progress.version, progress.batch, progress.chunkCount)
    requires progress.batch in store.rows && store.rows[progress.batch] == EmptyRow(progress)
    ensures MatchesRow(store, progress) && CoversUnrecorded(store, progress)
  {
    forall i | 0 <= i < progress.chunkCount ensures i in progress.remaining {
      assert progress.remaining[i] == i;
    }
  }

  lemma ResolveKeepsProcess(s: State, s': State)
    requires Inv(s) && ResolveBlock(s, s')
    ensures s'.store == s.store && s'.late == s.late && ProcessIsGood(s'.store, s'.process)
  {
    var progress := s.process.phase.progress;
    if s'.process.Running? && !progress.isNew {
      StartedTasksAreGood(s.store, s.process.config, progress);
    }
  }

  lemma PutDepsKeeps(s: State, s': State)
    requires Inv(s) && PutDeps(s, s')
    ensures s'.late == s.late && StoreInv(s'.store) && Extends(s.store, s'.store) && ProcessIsGood(s'.store, s'.process)
  {
    var phase := s.process.phase;
    ApplyKeepsStore(s.store, DepsWrite(phase.progress, phase.deps));
    ProgressIsStable(s.store, s'.store, s.process.config, phase.progress);
  }

  lemma AddSnapshotKeeps(s: State, s': State)
    requires Inv(s) && AddSnapshot(s, s')
    ensures s'.late == s.late && StoreInv(s'.store) && Extends(s.store, s'.store) && ProcessIsGood(s'.store, s'.process)
  {
    var phase := s.process.phase;
    if s'.process.Idle? {
      ExtendsIsReflexive(s.store);
    } else {
      ApplyKeepsStore(s.store, RowWrite(s.process.config, phase.progress));
      NewRowMatches(s'.store, phase.progress);
      StartedTasksAreGood(s'.store, s.process.config, phase.progress);
    }
  }

  /** Loading reads the content that the row asks for. */
  lemma LoadedIsExpected(store: Store, progress: Progress, block: nat, chunkId: nat)
    requires MatchesRow(store, progress) && EndsAt(store.db, progress.batch, block)
    requires chunkId < progress.chunkCount <= I32_MAX
    ensures
      var stage := NextStage(store.db, progress, block, chunkId, HasReplica);
      stage.Loaded? && WriteIsGood(store, LogsWrite(progress, chunkId, stage.logs))
  {
  }

  lemma RecordingSetsPath(store: Store, progress: Progress, chunkId: nat)
    requires MatchesRow(store, progress) && chunkId < progress.chunkCount
    ensures
      var next := Apply(store, PathWrite(progress, chunkId));
      MatchesRow(next, progress) && next.rows[progress.batch].paths[chunkId] != ""
  {
  }

  /** The request behind a task step, if the step makes one. */
  function TaskWrite(progress: Progress, chunkId: nat, stage: Stage): Option<Write> {
    match stage
    case Loaded(logs) => Some(LogsWrite(progress, chunkId, logs))
    case HasMaster => Some(PathWrite(progress, chunkId))
    case _ => None
  }

  lemma TaskWriteIsGood(store: Store, progress: Progress, chunkId: nat, stage: Stage)
    requires MatchesRow(store, progress) && TaskIsGood(store, progress, chunkId, stage)
    ensures
      var write := TaskWrite(progress, chunkId, stage);
      && StoreAfter(store, progress, chunkId, stage) == (if write.Some? then Apply(store, write.value) else store)
      && (write.Some? ==> WriteIsGood(store, write.value))
  {
  }

  lemma StageAfterIsGood(store: Store, progress: Progress, block: nat, chunkId: nat, stage: Stage)
    requires MatchesRow(store, progress) && TaskIsGood(store, progress, chunkId, stage)
    requires EndsAt(store.db, progress.batch, block) && progress.chunkCount <= I32_MAX
    ensures MatchesRow(StoreAfter(store, progress, chunkId, stage), progress)
    ensures TaskIsGood(StoreAfter(store, progress, chunkId, stage), progress, chunkId,
      NextStage(store.db, progress, block, chunkId, stage))
  {
    if stage.HasReplica? {
      LoadedIsExpected(store, progress, block, chunkId);
    } else if stage.HasMaster? {
      RecordingSetsPath(store, progress, chunkId);
    }
  }

  lemma TaskStepKeepsStore(store: Store, progress: Progress, chunkId: nat, stage: Stage, next: Store)
    requires StoreInv(store) && MatchesRow(store, progress) && TaskIsGood(store, progress, chunkId, stage)
    requires next == StoreAfter(store, progress, chunkId, stage)
    ensures StoreInv(next) && Extends(store, next)
  {
    TaskWriteIsGood(store, progress, chunkId, stage);
    var write := TaskWrite(progress, chunkId, stage);
    if write.Some? {
      ApplyKeepsStore(store, write.value);
    } else {
      ExtendsIsReflexive(store);
    }
  }

  lemma TaskStepKeepsProcess(store: Store, config: Config, progress: Progress, block: nat, tasks: map<nat, Stage>,
                             left: int, chunkId: nat, next: Store)
    requires MatchesRow(store, progress) && EndsAt(store.db, progress.batch, block) && progress.chunkCount <= I32_MAX
    requires TasksAreGood(store, config, progress, tasks, left)
    requires chunkId in tasks && CanMove(config, tasks, tasks[chunkId])
    requires next == StoreAfter(store, progress, chunkId, tasks[chunkId]) && Extends(store, next)
    ensures MatchesRow(next, progress) && EndsAt(next.db, progress.batch, block)
    ensures
      var stage := NextStage(store.db, progress, block, chunkId, tasks[chunkId]);
      TasksAreGood(next, config, progress, tasks[chunkId := stage], if stage.Done? then left - 1 else left)
  {
    var stage := NextStage(store.db, progress, block, chunkId, tasks[chunkId]);
    assert TaskIsGood(store, progress, chunkId, tasks[chunkId]);
    StageAfterIsGood(store, progress, block, chunkId, tasks[chunkId]);
    StageKeepsTasks(store, next, config, progress, tasks, left, chunkId, stage);
  }

  lemma TaskStepKeeps(s: State, s': State, chunkId: nat)
    requires StoreInv(s.store) && ProcessIsGood(s.store, s.process) && TaskStep(s, s', chunkId)
    ensures s'.late == s.late && StoreInv(s'.store) && Extends(s.store, s'.store)
    ensures ProcessIsGood(s'.store, s'.process)
  {
    var Chunks(progress, block, tasks, left) := s.process.phase;
    assert TaskIsGood(s.store, progress, chunkId, tasks[chunkId]);
    assert RowIsGood(s.store, progress.batch);
    TaskStepKeepsStore(s.store, progress, chunkId, tasks[chunkId], s'.store);
    TaskStepKeepsProcess(s.store, s.process.config, progress, block, tasks, left, chunkId, s'.store);
  }

  /** Whatever a process has in flight is a good request, at the time it stops and later. */
  lemma InFlightIsGood(store: Store, process: Process, write: Write)
    requires ProcessIsGood(store, process) && write in InFlight(process)
    ensures WriteIsGood(store, write)
  {
    match process
    case Running(config, StoreDeps(progress, block, deps)) =>
    case Running(config, Insert(progress, block, true)) =>
    case Running(config, Chunks(progress, block, tasks, left)) =>
      var i :| i in tasks && TaskWrite(progress, i, tasks[i]) == Some(write);
      TaskWriteIsGood(store, progress, i, tasks[i]);
  }

  lemma MainStepKeeps(s: State, s': State)
    requires Inv(s) && MainStep(s, s')
    ensures s'.late == s.late && StoreInv(s'.store) && Extends(s.store, s'.store)
    ensures ProcessIsGood(s'.store, s'.process)
  {
    if PutDeps(s, s') {
      PutDepsKeeps(s, s');
    } else if AddSnapshot(s, s') {
      AddSnapshotKeeps(s, s');
    } else {
      ExtendsIsReflexive(s.store);
      if Prepare(s, s') {
        PrepareKeepsProcess(s, s');
      } else if ResolveBlock(s, s') {
        ResolveKeepsProcess(s, s');
      } else {
        ReadingStepsKeepProcess(s, s');
      }
    }
  }

  lemma LateStaysGood(s: State, next: Store, late: set<Write>)
    requires Inv(s) && Extends(s.store, next)
    requires forall write :: write in late ==> write in s.late || write in InFlight(s.process)
    ensures forall write :: write in late ==> WriteIsGood(next, write)
  {
    forall write | write in late ensures WriteIsGood(next, write) {
      if write !in s.late {
        InFlightIsGood(s.store, s.process, write);
      }
      WriteIsStable(s.store, next, write);
    }
  }

  lemma ProcessStepKeepsInv(s: State, s': State)
    requires Inv(s) && ProcessStep(s, s')
    ensures Inv(s') && Extends(s.store, s'.store)
  {
    if MainStep(s, s') {
      MainStepKeeps(s, s');
    } else {
      var chunkId: nat :| TaskStep(s, s', chunkId);
      TaskStepKeeps(s, s', chunkId);
    }
    LateStaysGood(s, s'.store, s'.late);
  }

  lemma LandKeepsInv(s: State, s': State)
    requires Inv(s) && Land(s, s')
    ensures Inv(s') && Extends(s.store, s'.store)
  {
    var write :| LandOf(s, s', write);
    ApplyKeepsStore(s.store, write);
    LateStaysGood(s, s'.store, s'.late);
    ProcessIsStable(s.store, s'.store, s.process);
  }

  lemma GrowKeepsInv(s: State, s': State)
    requires Inv(s) && GrowTables(s, s')
    ensures Inv(s') && Extends(s.store, s'.store)
  {
    GrowKeepsStore(s.store, s'.store.db);
    LateStaysGood(s, s'.store, s'.late);
    ProcessIsStable(s.store, s'.store, s.process);
  }

  /** Every step keeps the invariant, and durable state only grows. */
  lemma NextKeepsInv(s: State, s': State)
    requires Inv(s) && Next(s, s')
    ensures Inv(s') && Extends(s.store, s'.store)
  {
    if ProcessStep(s, s') {
      ProcessStepKeepsInv(s, s');
    } else if Land(s, s') {
      LandKeepsInv(s, s');
    } else if GrowTables(s, s') {
      GrowKeepsInv(s, s');
    } else {
      ExtendsIsReflexive(s.store);
      LateStaysGood(s, s'.store, s'.late);
    }
  }

  // ---------------------------------------------------------------------------------------------
  // Whole runs
  // ---------------------------------------------------------------------------------------------

  lemma RunHasSteps(run: seq<State>)
    requires IsRun(run)
    ensures forall i :: 0 <= i < |run| - 1 ==> Next(run[i], run[i + 1])
  {
    forall i | 0 <= i < |run| - 1 ensures Next(run[i], run[i + 1]) {
      assert StepAt(run, i);
    }
  }

  lemma RunKeepsInv(run: seq<State>, k: nat)
    requires IsRun(run) && Inv(run[0]) && k < |run|
    ensures Inv(run[k])
  {
    RunHasSteps(run);
    forall s, s' ensures Inv(s) && Next(s, s') ==> Inv(s') {
      if Inv(s) && Next(s, s') {
        NextKeepsInv(s, s');
      }
    }
    HoldsAlong(run, 0, k, s => Inv(s), (s, s') => Next(s, s'));
  }

  /** The store has the row, with everything that was recorded in it before. */
  ghost predicate HasExtended(s: State, batch: nat, row: Row) {
    Inv(s) && batch in s.store.rows && RowExtends(row, s.store.rows[batch])
  }

  lemma NextKeepsRow(s: State, s': State, batch: nat, row: Row)
    ensures HasExtended(s, batch, row) && Next(s, s') ==> HasExtended(s', batch, row)
  {
    if HasExtended(s, batch, row) && Next(s, s') {
      NextKeepsInv(s, s');
      RowExtendsIsTransitive(row, s.store.rows[batch], s'.store.rows[batch]);
    }
  }

  lemma RowExtendsIsTransitive(row1: Row, row2: Row, row3: Row)
    requires RowExtends(row1, row2) && RowExtends(row2, row3)
    ensures RowExtends(row1, row3)
  {
  }

  /** Over a run no row disappears, changes shape or loses a recorded path. */
  lemma RunKeepsRow(run: seq<State>, j: nat, k: nat, batch: nat)
    requires IsRun(run) && Inv(run[0]) && j <= k < |run| && batch in run[j].store.rows
    ensures batch in run[k].store.rows && RowExtends(run[j].store.rows[batch], run[k].store.rows[batch])
  {
    RunKeepsInv(run, j);
    RunHasSteps(run);
    var row := run[j].store.rows[batch];
    forall s, s' ensures HasExtended(s, batch, row) && Next(s, s') ==> HasExtended(s', batch, row) {
      NextKeepsRow(s, s', batch, row);
    }
    assert HasExtended(run[j], batch, row);
    HoldsAlong(run, j, k, s => HasExtended(s, batch, row), (s, s') => Next(s, s'));
    assert HasExtended(run[k], batch, row);
  }

  lemma InitIsGood(s: State)
    requires Init(s)
    ensures Inv(s)
  {
  }

  /** In every reachable state a row belongs to a batch with tree data and comes with its factory
      dependencies, and a recorded path names a blob with exactly the logs of that chunk, under the
      chunk count and in the version of the row. */
  lemma RecordedChunksAreStored(run: seq<State>, k: nat, batch: nat)
    requires IsRun(run) && Init(run[0]) && k < |run| && batch in run[k].store.rows
    ensures
      var store := run[k].store;
      var row := store.rows[batch];
      && Ended(store.db, batch) && store.db.batches[batch].hasTreeData && |row.paths| <= I32_MAX
      && row.depsPath == "storage_logs_snapshots" + "/" + EncodeKey(FactoryDeps(batch))
      && HasBlob(store, FactoryDeps(batch))
      && store.blobs[EncodeKey(FactoryDeps(batch))] == ExpectedDeps(store.db, batch)
      && forall i :: 0 <= i < |row.paths| && row.paths[i] != "" ==>
           && row.paths[i] == "storage_logs_snapshots" + "/" + EncodeKey(StorageLogs(batch, i))
           && HasBlob(store, StorageLogs(batch, i))
           && store.blobs[EncodeKey(StorageLogs(batch, i))] ==
                ExpectedLogs(store.db, batch, row.version, i, |row.paths|)
  {
    InitIsGood(run[0]);
    RunKeepsInv(run, k);
    var store := run[k].store;
    assert RowIsGood(store, batch);
    assert IsExpected(store, FactoryDeps(batch), store.blobs[EncodeKey(FactoryDeps(batch))]);
    forall i | 0 <= i < |store.rows[batch].paths| && store.rows[batch].paths[i] != ""
      ensures PathIsBacked(store, batch, i, store.rows[batch].paths[i])
      ensures IsExpected(store, StorageLogs(batch, i), store.blobs[EncodeKey(StorageLogs(batch, i))])
    {
      assert PathIsBacked(store, batch, i, store.rows[batch].paths[i]);
      assert HasBlob(store, StorageLogs(batch, i));
    }
  }

  /** The dependencies stored with a row are the bytecodes of all blocks up to the last block of the
      batch. */
  lemma DependenciesAreStored(run: seq<State>, k: nat, batch: nat, bytecode: nat)
    requires IsRun(run) && Init(run[0]) && k < |run| && batch in run[k].store.rows
    ensures
      var store := run[k].store;
      && Ended(store.db, batch) && HasBlob(store, FactoryDeps(batch))
      && var content := store.blobs[EncodeKey(FactoryDeps(batch))];
         && content.DepsContent?
         && (bytecode in content.bytecodes <==>
             exists block: nat :: block <= store.db.batches[batch].lastBlock.value
               && FactoryDep(block, bytecode) in store.db.factoryDeps)
  {
    RecordedChunksAreStored(run, k, batch);
    var db := run[k].store.db;
    var last := db.batches[batch].lastBlock.value;
    if bytecode in FactoryDepsUpTo(db, last) {
      var dep :| dep in db.factoryDeps && dep.block <= last && dep.bytecode == bytecode;
      assert FactoryDep(dep.block, bytecode) in db.factoryDeps;
    }
    if block: nat :| block <= last && FactoryDep(block, bytecode) in db.factoryDeps {
      assert FactoryDep(block, bytecode).block <= last;
    }
  }

  /** A row has the version that the config it was inserted under asks for by number. */
  lemma VersionIsConfigured(run: seq<State>, k: nat, batch: nat)
    requires IsRun(run) && Init(run[0]) && k < |run| && batch in run[k].store.rows
    ensures batch in run[k].store.creators
    ensures
      var row, config := run[k].store.rows[batch], run[k].store.creators[batch];
      (row.version.Version0? && config.version == 0) || (row.version.Version1? && config.version == 1)
  {
    InitIsGood(run[0]);
    RunKeepsInv(run, k);
    assert RowIsGood(run[k].store, batch);
  }

  ghost predicate InChunkBlob(store: Store, batch: nat, chunkId: nat, log: SnapshotLog) {
    && HasBlob(store, StorageLogs(batch, chunkId))
    && var content := store.blobs[EncodeKey(StorageLogs(batch, chunkId))];
       content.LogsContent? && log in content.logs
  }

  /** Enough chunks: the configured minimum, and no more keys than they take on average. */
  predicate Suffices(chunkCount: nat, keysCount: nat, config: Config) {
    config.minChunks <= chunkCount && keysCount <= chunkCount * config.chunkSize
  }

  lemma DivCeilIsLeast(a: nat, b: nat, n: nat)
    requires 0 < b
    ensures DivCeil(a, b) <= n <==> a <= n * b
  {
    var d := DivCeil(a, b);
    if d <= n {
      MulMonotone(d, n, b);
    } else {
      MulMonotone(n, d - 1, b);
    }
  }

  lemma ChosenCountIsLeast(db: Db, batch: nat, config: Config, version: Version, chunkCount: nat)
    returns (keysCount: nat)
    requires Chooses(db, batch, config, version, chunkCount)
    ensures IsKeysCount(db, batch, keysCount)
    ensures forall n :: Suffices(n, keysCount, config) <==> chunkCount <= n
  {
    keysCount :| IsKeysCount(db, batch, keysCount) && chunkCount == ChunkCount(keysCount, config);
    forall n: nat ensures Suffices(n, keysCount, config) <==> chunkCount <= n {
      DivCeilIsLeast(keysCount, config.chunkSize, n);
    }
  }

  /** Every row has the fewest chunks that suffice for the config it was inserted under. */
  lemma ChunkCountIsLeast(run: seq<State>, k: nat, batch: nat) returns (keysCount: nat)
    requires IsRun(run) && Init(run[0]) && k < |run| && batch in run[k].store.rows
    ensures batch in run[k].store.creators && IsKeysCount(run[k].store.db, batch, keysCount)
    ensures forall n :: Suffices(n, keysCount, run[k].store.creators[batch]) <==> |run[k].store.rows[batch].paths| <= n
  {
    InitIsGood(run[0]);
    RunKeepsInv(run, k);
    var store := run[k].store;
    assert RowIsGood(store, batch);
    var row := store.rows[batch];
    keysCount := ChosenCountIsLeast(store.db, batch, store.creators[batch], row.version, |row.paths|);
  }

  lemma ChosenCountIsPositive(db: Db, batch: nat, config: Config, version: Version, chunkCount: nat)
    requires WellFormed(db) && Chooses(db, batch, config, version, chunkCount)
    ensures 0 < chunkCount
  {
    var keysCount := ChosenCountIsLeast(db, batch, config, version, chunkCount);
    assert !Suffices(0, keysCount, config);
  }

  predicate Holds(store: Store, key: BlobKey, content: Content) {
    HasBlob(store, key) && store.blobs[EncodeKey(key)] == content
  }

  lemma BlobsHoldState(store: Store, batch: nat, version: Version, count: nat, log: SnapshotLog)
    requires WellFormed(store.db) && Ended(store.db, batch) && 0 < count <= I32_MAX
    requires forall i :: 0 <= i < count ==> Holds(store, StorageLogs(batch, i), ExpectedLogs(store.db, batch, version, i, count))
    ensures
      var isState := IsStateLog(store.db, store.db.batches[batch].lastBlock.value, batch, log);
      && (isState ==> log.key <= U256_MAX && ChunkOf(log.key, count) < count)
      && forall i :: 0 <= i < count ==>
           (InChunkBlob(store, batch, i, log) <==> isState && i == ChunkOf(log.key, count))
  {
    ChunksHoldStateOnce(store.db, store.db.batches[batch].lastBlock.value, batch, count, log);
    forall i | 0 <= i < count
      ensures InChunkBlob(store, batch, i, log) <==> log in ExpectedLogs(store.db, batch, version, i, count).logs
    {
      assert Holds(store, StorageLogs(batch, i), ExpectedLogs(store.db, batch, version, i, count));
    }
  }

  lemma CompleteRowHasBlobs(store: Store, batch: nat)
    requires StoreInv(store) && batch in store.rows && IsComplete(store.rows[batch])
    ensures Ended(store.db, batch) && 0 < |store.rows[batch].paths| <= I32_MAX
    ensures
      var row := store.rows[batch];
      forall i :: 0 <= i < |row.paths| ==>
        Holds(store, StorageLogs(batch, i), ExpectedLogs(store.db, batch, row.version, i, |row.paths|))
  {
    assert RowIsGood(store, batch);
    var row := store.rows[batch];
    ChosenCountIsPositive(store.db, batch, store.creators[batch], row.version, |row.paths|);
    forall i | 0 <= i < |row.paths|
      ensures Holds(store, StorageLogs(batch, i), ExpectedLogs(store.db, batch, row.version, i, |row.paths|))
    {
      assert PathIsBacked(store, batch, i, row.paths[i]);
      assert IsExpected(store, StorageLogs(batch, i), store.blobs[EncodeKey(StorageLogs(batch, i))]);
    }
  }

  /** The blobs of a complete snapshot hold the storage at the end of the batch and nothing else,
      every log in exactly one blob: the blob of the chunk its key falls into. */
  lemma CompleteSnapshotHoldsState(run: seq<State>, k: nat, batch: nat, log: SnapshotLog)
    requires IsRun(run) && Init(run[0]) && k < |run| && batch in run[k].store.rows
    requires IsComplete(run[k].store.rows[batch])
    ensures
      var store := run[k].store;
      var count := |store.rows[batch].paths|;
      && Ended(store.db, batch) && 0 < count
      && var isState := IsStateLog(store.db, store.db.batches[batch].lastBlock.value, batch, log);
         && (isState ==> log.key <= U256_MAX && ChunkOf(log.key, count) < count)
         && forall i :: 0 <= i < count ==>
              (InChunkBlob(store, batch, i, log) <==> isState && i == ChunkOf(log.key, count))
  {
    InitIsGood(run[0]);
    RunKeepsInv(run, k);
    var store := run[k].store;
    CompleteRowHasBlobs(store, batch);
    BlobsHoldState(store, batch, store.rows[batch].version, |store.rows[batch].paths|, log);
  }

  /** What a log in a blob of a complete snapshot tells: the value that replaying all logs up to the
      last block of the batch gives its key, and the first write of the key. */
  lemma StoredLogTellsState(run: seq<State>, k: nat, batch: nat, i: nat, log: SnapshotLog)
    requires IsRun(run) && Init(run[0]) && k < |run| && batch in run[k].store.rows
    requires IsComplete(run[k].store.rows[batch]) && i < |run[k].store.rows[batch].paths|
    requires InChunkBlob(run[k].store, batch, i, log)
    ensures Ended(run[k].store.db, batch)
    ensures
      var db := run[k].store.db;
      var state := Replay(db.logs, db.batches[batch].lastBlock.value);
      && log.key in state && log.value == state[log.key]
      && log.key in db.initialWrites
      && log.batchOfInitialWrite == db.initialWrites[log.key].batch <= batch
      && log.index == db.initialWrites[log.key].index
  {
    CompleteSnapshotHoldsState(run, k, batch, log);
  }

  ghost predicate IsFoundAt(store: Store, batch: nat, i: int, key: nat, log: SnapshotLog)
    requires batch in store.rows
  {
    0 <= i < |store.rows[batch].paths| && InChunkBlob(store, batch, i, log) && log.key == key
  }

  /** Reading all blobs of a complete snapshot back gives the replayed storage: every key that has a
      value at the end of the batch and was first written by then has exactly one log in exactly
      one blob, and no other key has any. */
  lemma SnapshotRestoresState(run: seq<State>, k: nat, batch: nat, key: nat)
    requires IsRun(run) && Init(run[0]) && k < |run| && batch in run[k].store.rows
    requires IsComplete(run[k].store.rows[batch])
    ensures Ended(run[k].store.db, batch)
    ensures
      var store := run[k].store;
      var db := store.db;
      var isThere := key in Replay(db.logs, db.batches[batch].lastBlock.value)
        && key in db.initialWrites && db.initialWrites[key].batch <= batch;
      && (isThere ==> exists i, log :: IsFoundAt(store, batch, i, key, log))
      && (forall i, j, log1, log2 :: IsFoundAt(store, batch, i, key, log1) && IsFoundAt(store, batch, j, key, log2) ==>
            isThere && i == j && log1 == log2)
  {
    RecordedChunksAreStored(run, k, batch);
    var store := run[k].store;
    var db, count := store.db, |store.rows[batch].paths|;
    var state := Replay(db.logs, db.batches[batch].lastBlock.value);
    if key in state && key in db.initialWrites && db.initialWrites[key].batch <= batch {
      var log := SnapshotLog(key, state[key], db.initialWrites[key].batch, db.initialWrites[key].index);
      CompleteSnapshotHoldsState(run, k, batch, log);
      assert IsFoundAt(store, batch, ChunkOf(key, count), key, log);
    }
    forall i, j, log1, log2 | IsFoundAt(store, batch, i, key, log1) && IsFoundAt(store, batch, j, key, log2)
      ensures key in state && key in db.initialWrites && db.initialWrites[key].batch <= batch && i == j && log1 == log2
    {
      CompleteSnapshotHoldsState(run, k, batch, log1);
      CompleteSnapshotHoldsState(run, k, batch, log2);
    }
  }
}
