/** The snapshot creator as a state machine.

    Durable state is what Postgres and the object store hold; volatile state is one creator
    process with its main sequence and one task per remaining chunk. Each step below is one
    request of the process, one scheduling decision, or something the environment does: the node
    appends blocks, a process stops at any point, and a request that a stopped process had in
    flight takes effect later or is lost. */
module SnapshotProtocol {
  import opened Wrappers
  import opened KeyChunks
  import opened StorageHistory
  import opened ObjectKeys

  // ---------------------------------------------------------------------------------------------
  // Data
  // ---------------------------------------------------------------------------------------------

  datatype Version = Version0 | Version1

  function ParseVersion(raw: nat): Option<Version> {
    if raw == 0 then Some(Version0) else if raw == 1 then Some(Version1) else None
  }

  /** `minChunks` is the second argument of `run`; the other fields are the creator's config. */
  datatype Config = Config(version: nat, l1Batch: Option<nat>, chunkSize: nat, concurrency: nat, minChunks: nat)

  /** A row of the `snapshots` table. The empty path stands for a chunk not produced yet. */
  datatype Row = Row(version: Version, depsPath: string, paths: seq<string>)

  predicate IsComplete(row: Row) {
    forall i :: 0 <= i < |row.paths| ==> row.paths[i] != ""
  }

  /** What a blob holds. The version decides how keys are written, not which logs are there. */
  datatype Content =
    | LogsContent(version: Version, logs: set<SnapshotLog>)
    | DepsContent(bytecodes: set<nat>)

  const BUCKET := "storage_logs_snapshots"
  const I32_MAX: nat := 0x7FFF_FFFF

  datatype Progress = Progress(version: Version, batch: nat, isNew: bool, chunkCount: nat, remaining: seq<nat>)

  function NewProgress(version: Version, batch: nat, chunkCount: nat): Progress {
    Progress(version, batch, true, chunkCount, seq(chunkCount, i => i))
  }

  /** The chunk ids from `from` on whose path is empty, in order. */
  function Unrecorded(paths: seq<string>, from: nat): seq<nat>
    requires from <= |paths|
    decreases |paths| - from
  {
    if from == |paths| then []
    else (if paths[from] == "" then [from] else []) + Unrecorded(paths, from + 1)
  }

  function FromExisting(batch: nat, row: Row): Progress {
    Progress(row.version, batch, false, |row.paths|, Unrecorded(row.paths, 0))
  }

  function DivCeil(a: nat, b: nat): nat
    requires 0 < b
  {
    if a % b == 0 then a / b else a / b + 1
  }

  function ChunkCount(keysCount: nat, config: Config): nat
    requires 0 < config.chunkSize
  {
    var wanted := DivCeil(keysCount, config.chunkSize);
    if wanted < config.minChunks then config.minChunks else wanted
  }

  /** Where a chunk task stands. It holds its permit from HasPermit to Recorded, a replica
      connection in HasReplica only, and the master connection in HasMaster and Recorded. */
  datatype Stage =
    | Waiting
    | HasPermit
    | HasReplica
    | Loaded(logs: set<SnapshotLog>)
    | Stored
    | HasMaster
    | Recorded
    | Done

  /** Where the main sequence stands; `connected` tells whether it already holds the connection
      that the next request needs. */
  datatype Phase =
    | ReadSealed(connected: bool)
    | ReadRow(batch: nat)
    | Initialize(batch: nat, connected: bool)
    | FindBlock(progress: Progress, connected: bool)
    | LoadDeps(progress: Progress, block: nat, connected: bool)
    | StoreDeps(progress: Progress, block: nat, deps: set<nat>)
    | Insert(progress: Progress, block: nat, connected: bool)
    | Chunks(progress: Progress, block: nat, tasks: map<nat, Stage>, left: int)

  datatype Outcome = NeverRun | Skipped | Completed(batch: nat) | Failed

  datatype Process =
    | Idle(outcome: Outcome)
    | Running(config: Config, phase: Phase)

  /** A request that changes durable state. */
  datatype Write =
    | PutBlob(key: BlobKey, content: Content)
    | InsertRow(batch: nat, row: Row, config: Config)
    | SetPath(batch: nat, chunkId: nat, path: string)

  /** Durable state; `creators` remembers which configuration each row was inserted under. */
  datatype Store = Store(db: Db, rows: map<nat, Row>, blobs: map<string, Content>, creators: map<nat, Config>)

  datatype State = State(store: Store, late: set<Write>, process: Process)

  // ---------------------------------------------------------------------------------------------
  // Requests
  // ---------------------------------------------------------------------------------------------

  function EmptyRow(progress: Progress): Row {
    Row(progress.version, FilePath(BUCKET, FactoryDeps(progress.batch)), seq(progress.chunkCount, _ => ""))
  }

  /** The effect of a request: a put overwrites, an insert fails on an existing row, an update
      touches one slot of an existing row. */
  function Apply(store: Store, write: Write): Store {
    match write
    case PutBlob(key, content) =>
      store.(blobs := store.blobs[EncodeKey(key) := content])
    case InsertRow(batch, row, config) =>
      if batch in store.rows then store
      else store.(rows := store.rows[batch := row], creators := store.creators[batch := config])
    case SetPath(batch, chunkId, path) =>
      if batch in store.rows && chunkId < |store.rows[batch].paths| then
        var row := store.rows[batch];
        store.(rows := store.rows[batch := row.(paths := row.paths[chunkId := path])])
      else store
  }

  function LogsWrite(progress: Progress, chunkId: nat, logs: set<SnapshotLog>): Write {
    PutBlob(StorageLogs(progress.batch, chunkId), LogsContent(progress.version, logs))
  }

  function DepsWrite(progress: Progress, deps: set<nat>): Write {
    PutBlob(FactoryDeps(progress.batch), DepsContent(deps))
  }

  function PathWrite(progress: Progress, chunkId: nat): Write {
    SetPath(progress.batch, chunkId, FilePath(BUCKET, StorageLogs(progress.batch, chunkId)))
  }

  function RowWrite(config: Config, progress: Progress): Write {
    InsertRow(progress.batch, EmptyRow(progress), config)
  }

  /** The requests a process may have sent without having seen the answer. */
  function InFlight(process: Process): set<Write> {
    match process
    case Running(config, StoreDeps(progress, _, deps)) => {DepsWrite(progress, deps)}
    case Running(config, Insert(progress, _, true)) => {RowWrite(config, progress)}
    case Running(config, Chunks(progress, _, tasks, _)) =>
      (set i | i in tasks && tasks[i].Loaded? :: LogsWrite(progress, i, tasks[i].logs)) +
      (set i | i in tasks && tasks[i].HasMaster? :: PathWrite(progress, i))
    case _ => {}
  }

  // ---------------------------------------------------------------------------------------------
  // Permits and connections
  // ---------------------------------------------------------------------------------------------

  predicate HoldsPermit(stage: Stage) {
    !stage.Waiting? && !stage.Done?
  }

  predicate HoldsReplica(stage: Stage) {
    stage.HasReplica?
  }

  predicate HoldsMaster(stage: Stage) {
    stage.HasMaster? || stage.Recorded?
  }

  function PermitHolders(tasks: map<nat, Stage>): set<nat> {
    set i | i in tasks && HoldsPermit(tasks[i])
  }

  function ReplicaHolders(tasks: map<nat, Stage>): set<nat> {
    set i | i in tasks && HoldsReplica(tasks[i])
  }

  function MasterHolders(tasks: map<nat, Stage>): set<nat> {
    set i | i in tasks && HoldsMaster(tasks[i])
  }

  // ---------------------------------------------------------------------------------------------
  // Steps of the main sequence
  // ---------------------------------------------------------------------------------------------

  predicate Move(s: State, s': State, phase: Phase)
    requires s.process.Running?
  {
    s' == s.(process := s.process.(phase := phase))
  }

  predicate Exit(s: State, s': State, outcome: Outcome) {
    s' == s.(process := Idle(outcome))
  }

  /** The main sequence takes a connection; the master pool has one, the replica pool as many as
      there are permits, and no task is running yet. */
  predicate Connect(s: State, s': State) {
    && s.process.Running?
    && match s.process.phase
       case ReadSealed(false) => Move(s, s', ReadSealed(true))
       case Initialize(batch, false) => 0 < s.process.config.concurrency && Move(s, s', Initialize(batch, true))
       case FindBlock(progress, false) => 0 < s.process.config.concurrency && Move(s, s', FindBlock(progress, true))
       case LoadDeps(progress, block, false) =>
         0 < s.process.config.concurrency && Move(s, s', LoadDeps(progress, block, true))
       case Insert(progress, block, false) => Move(s, s', Insert(progress, block, true))
       case _ => false
  }

  /** Picks the batch: the requested one if it is sealed, otherwise the one before the last. */
  ghost predicate PickBatch(s: State, s': State) {
    && s.process.Running? && s.process.phase == ReadSealed(true)
    && ((s.store.db.batches == map[] && Exit(s, s', Failed)) ||
        exists sealed :: IsSealedBatch(s.store.db, sealed) && PickBelow(s, s', sealed))
  }

  predicate PickBelow(s: State, s': State, sealed: nat)
    requires s.process.Running?
  {
    match s.process.config.l1Batch
    case Some(batch) => if batch <= sealed then Move(s, s', ReadRow(batch)) else Exit(s, s', Failed)
    case None => if sealed != 0 then Move(s, s', ReadRow(sealed - 1)) else Exit(s, s', Failed)
  }

  /** Resumes an incomplete snapshot only if its batch was requested, and starts one if there is
      none. */
  predicate Decide(s: State, s': State) {
    && s.process.Running? && s.process.phase.ReadRow?
    && var batch := s.process.phase.batch;
       if batch !in s.store.rows then Move(s, s', Initialize(batch, false))
       else if IsComplete(s.store.rows[batch]) || s.process.config.l1Batch.None? then Exit(s, s', Skipped)
       else Move(s, s', FindBlock(FromExisting(batch, s.store.rows[batch]), false))
  }

  /** The choice a config makes for a new snapshot of a batch. */
  ghost predicate Chooses(db: Db, batch: nat, config: Config, version: Version, chunkCount: nat) {
    && ParseVersion(config.version) == Some(version)
    && 0 < config.chunkSize
    && exists keysCount :: IsKeysCount(db, batch, keysCount) && chunkCount == ChunkCount(keysCount, config)
  }

  ghost predicate CanInitialize(db: Db, batch: nat, config: Config) {
    && batch in db.batches && db.batches[batch].hasTreeData
    && exists version, chunkCount: nat :: Chooses(db, batch, config, version, chunkCount) && chunkCount <= I32_MAX
  }

  /** Fails on an unknown version, without tree data or initial writes, on a zero chunk size, and
      on more chunks than an `INTEGER` counts. */
  ghost predicate Prepare(s: State, s': State) {
    && s.process.Running? && s.process.phase.Initialize? && s.process.phase.connected
    && var batch, config := s.process.phase.batch, s.process.config;
       if CanInitialize(s.store.db, batch, config) then
         exists version, chunkCount: nat :: Chooses(s.store.db, batch, config, version, chunkCount) && chunkCount <= I32_MAX
           && Move(s, s', FindBlock(NewProgress(version, batch, chunkCount), false))
       else Exit(s, s', Failed)
  }

  function ToSet(ids: seq<nat>): set<nat> {
    set id | id in ids
  }

  function StartChunks(progress: Progress, block: nat): Phase {
    Chunks(progress, block, map id | id in ToSet(progress.remaining) :: Waiting, |progress.remaining|)
  }

  predicate ResolveBlock(s: State, s': State) {
    && s.process.Running? && s.process.phase.FindBlock? && s.process.phase.connected
    && var progress := s.process.phase.progress;
       if progress.batch in s.store.db.batches && s.store.db.batches[progress.batch].lastBlock.Some? then
         var block := s.store.db.batches[progress.batch].lastBlock.value;
         Move(s, s', if progress.isNew then LoadDeps(progress, block, false) else StartChunks(progress, block))
       else Exit(s, s', Failed)
  }

  ghost predicate ReadDeps(s: State, s': State) {
    && s.process.Running? && s.process.phase.LoadDeps? && s.process.phase.connected
    && var phase := s.process.phase;
       Move(s, s', StoreDeps(phase.progress, phase.block, FactoryDepsUpTo(s.store.db, phase.block)))
  }

  predicate PutDeps(s: State, s': State) {
    && s.process.Running? && s.process.phase.StoreDeps?
    && var phase := s.process.phase;
       s' == s.(store := Apply(s.store, DepsWrite(phase.progress, phase.deps)),
                process := s.process.(phase := Insert(phase.progress, phase.block, false)))
  }

  predicate AddSnapshot(s: State, s': State) {
    && s.process.Running? && s.process.phase.Insert? && s.process.phase.connected
    && var phase := s.process.phase;
       if phase.progress.batch in s.store.rows then Exit(s, s', Failed)
       else s' == s.(store := Apply(s.store, RowWrite(s.process.config, phase.progress)),
                     process := s.process.(phase := StartChunks(phase.progress, phase.block)))
  }

  /** All tasks are joined. */
  predicate Finish(s: State, s': State) {
    && s.process.Running? && s.process.phase.Chunks?
    && (forall i :: i in s.process.phase.tasks ==> s.process.phase.tasks[i].Done?)
    && Exit(s, s', Completed(s.process.phase.progress.batch))
  }

  // ---------------------------------------------------------------------------------------------
  // Steps of the chunk tasks
  // ---------------------------------------------------------------------------------------------

  /** Whether a task may move: a free permit, a free connection, or nothing to wait for. */
  predicate CanMove(config: Config, tasks: map<nat, Stage>, stage: Stage) {
    match stage
    case Waiting => |PermitHolders(tasks)| < config.concurrency
    case HasPermit => |ReplicaHolders(tasks)| < config.concurrency
    case Stored => |MasterHolders(tasks)| < 1
    case Done => false
    case _ => true
  }

  ghost function NextStage(db: Db, progress: Progress, block: nat, chunkId: nat, stage: Stage): Stage {
    match stage
    case Waiting => HasPermit
    case HasPermit => HasReplica
    case HasReplica =>
      if chunkId < progress.chunkCount <= U64_MAX then
        Loaded(ChunkLogs(db, block, progress.batch, UniformHashedKeysChunk(chunkId, progress.chunkCount)))
      else HasReplica
    case Loaded(_) => Stored
    case Stored => HasMaster
    case HasMaster => Recorded
    case Recorded => Done
    case Done => Done
  }

  /** The blob is put when the logs are loaded, the path recorded once a master connection is
      held. */
  function StoreAfter(store: Store, progress: Progress, chunkId: nat, stage: Stage): Store {
    match stage
    case Loaded(logs) => Apply(store, LogsWrite(progress, chunkId, logs))
    case HasMaster => Apply(store, PathWrite(progress, chunkId))
    case _ => store
  }

  /** One task moves on by one stage; the gauge of chunks left goes down with the last one. */
  ghost predicate TaskStep(s: State, s': State, chunkId: nat) {
    && s.process.Running? && s.process.phase.Chunks? && chunkId in s.process.phase.tasks
    && var Chunks(progress, block, tasks, left) := s.process.phase;
       var stage := tasks[chunkId];
       var next := NextStage(s.store.db, progress, block, chunkId, stage);
       && CanMove(s.process.config, tasks, stage)
       && s' == s.(
            store := StoreAfter(s.store, progress, chunkId, stage),
            process := Running(s.process.config, Chunks(progress, block, tasks[chunkId := next],
              if next.Done? then left - 1 else left)))
  }

  // ---------------------------------------------------------------------------------------------
  // The whole machine
  // ---------------------------------------------------------------------------------------------

  ghost predicate MainStep(s: State, s': State) {
    || Connect(s, s') || PickBatch(s, s') || Decide(s, s') || Prepare(s, s') || ResolveBlock(s, s')
    || ReadDeps(s, s') || PutDeps(s, s') || AddSnapshot(s, s') || Finish(s, s')
  }

  /** A step that the running process takes by itself. */
  ghost predicate ProcessStep(s: State, s': State) {
    MainStep(s, s') || exists chunkId :: TaskStep(s, s', chunkId)
  }

  /** How a process begins: the replica pool is built with as many connections as the config allows
      and opens one of them, so that a config without any fails before the run. */
  function Started(config: Config): Process {
    if 0 < config.concurrency then Running(config, ReadSealed(false)) else Idle(Failed)
  }

  /** A run starts once the previous process is gone. */
  ghost predicate Start(s: State, s': State) {
    s.process.Idle? && exists config :: s' == s.(process := Started(config))
  }

  /** A crash, or an error of any request, such as waiting too long for a connection: joining stops
      at the first error and drops the other tasks. Requests in flight may still arrive. */
  predicate Interrupt(s: State, s': State) {
    && s.process.Running?
    && s'.late <= s.late + InFlight(s.process)
    && s' == s.(process := Idle(Failed), late := s'.late)
  }

  /** A request of a process that is gone takes effect. */
  predicate LandOf(s: State, s': State, write: Write) {
    write in s.late && s' == s.(store := Apply(s.store, write), late := s.late - {write})
  }

  ghost predicate Land(s: State, s': State) {
    exists write :: LandOf(s, s', write)
  }

  ghost predicate GrowTables(s: State, s': State) {
    && Grows(s.store.db, s'.store.db)
    && s' == s.(store := s.store.(db := s'.store.db))
  }

  ghost predicate Next(s: State, s': State) {
    ProcessStep(s, s') || Start(s, s') || Interrupt(s, s') || Land(s, s') || GrowTables(s, s')
  }

  ghost predicate Init(s: State) {
    && WellFormed(s.store.db)
    && s.store.rows == map[] && s.store.blobs == map[] && s.store.creators == map[]
    && s.late == {} && s.process == Idle(NeverRun)
  }

  ghost predicate StepAt(run: seq<State>, k: int)
    requires 0 <= k < |run| - 1
  {
    Next(run[k], run[k + 1])
  }

  /** A run of the machine: any interleaving of any steps. */
  ghost predicate IsRun(run: seq<State>) {
    run != [] && forall k {:trigger StepAt(run, k)} :: 0 <= k < |run| - 1 ==> StepAt(run, k)
  }
}
