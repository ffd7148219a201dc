/** The Postgres tables a snapshot is read from, the queries over them, and how the tables grow
    while the node keeps producing blocks. */
module StorageHistory {
  import opened Wrappers
  import opened KeyChunks

  /** A row of `storage_logs`; hashed keys and values are 256-bit words. */
  datatype LogRow = LogRow(key: nat, block: nat, operation: nat, value: nat)

  /** A row of `initial_writes`, which holds one row per hashed key. */
  datatype InitialWrite = InitialWrite(batch: nat, index: nat)

  /** A row of `l1_batches` with the last L2 block of the batch, if its blocks are stored. */
  datatype BatchInfo = BatchInfo(lastBlock: Option<nat>, hasTreeData: bool)

  datatype FactoryDep = FactoryDep(block: nat, bytecode: nat)

  datatype Db = Db(
    logs: seq<LogRow>,
    initialWrites: map<nat, InitialWrite>,
    batches: map<nat, BatchInfo>,
    factoryDeps: set<FactoryDep>)

  datatype SnapshotLog = SnapshotLog(key: nat, value: nat, batchOfInitialWrite: nat, index: nat)

  predicate Before(r1: LogRow, r2: LogRow) {
    r1.block < r2.block || (r1.block == r2.block && r1.operation < r2.operation)
  }

  /** Logs are written in execution order, keys and enumeration indices fit their columns, and
      enumeration starts from one. */
  ghost predicate WellFormed(db: Db) {
    && (forall i, j :: 0 <= i < j < |db.logs| ==> Before(db.logs[i], db.logs[j]))
    && (forall i :: 0 <= i < |db.logs| ==> db.logs[i].key <= U256_MAX)
    && (forall key :: key in db.initialWrites ==> 0 < db.initialWrites[key].index && 2 * db.initialWrites[key].index <= U64_MAX)
  }

  /** `get_sealed_l1_batch_number`: the largest stored batch number. */
  ghost predicate IsSealedBatch(db: Db, batch: nat) {
    batch in db.batches && forall other :: other in db.batches ==> other <= batch
  }

  /** The row selected by `MAX(ARRAY[miniblock_number, operation_number])` for its key. */
  ghost predicate IsLatest(logs: seq<LogRow>, i: int, block: nat) {
    && 0 <= i < |logs|
    && logs[i].block <= block
    && forall j :: 0 <= j < |logs| && logs[j].key == logs[i].key && logs[j].block <= block ==>
         logs[j] == logs[i] || Before(logs[j], logs[i])
  }

  function ToSnapshotLog(db: Db, key: nat, value: nat): SnapshotLog
    requires key in db.initialWrites
  {
    SnapshotLog(key, value, db.initialWrites[key].batch, db.initialWrites[key].index)
  }

  ghost predicate WrittenBy(db: Db, key: nat, batch: nat) {
    key in db.initialWrites && db.initialWrites[key].batch <= batch
  }

  /** `get_storage_logs_chunk`: for every key of the range the latest log up to the block, kept
      if the key was first written no later than the batch. */
  ghost function ChunkLogs(db: Db, block: nat, batch: nat, range: KeyRange): set<SnapshotLog> {
    set i | 0 <= i < |db.logs| && IsLatest(db.logs, i, block)
      && Contains(range, db.logs[i].key) && WrittenBy(db, db.logs[i].key, batch)
      :: ToSnapshotLog(db, db.logs[i].key, db.logs[i].value)
  }

  /** `get_distinct_storage_logs_keys_count`: the index of the last initial write up to the batch. */
  ghost predicate IsKeysCount(db: Db, batch: nat, count: nat) {
    exists key :: WrittenBy(db, key, batch) && IsLastWrite(db, key, batch) && db.initialWrites[key].index == count
  }

  ghost predicate IsLastWrite(db: Db, key: nat, batch: nat)
    requires key in db.initialWrites
  {
    forall other :: WrittenBy(db, other, batch) ==>
      var w1, w2 := db.initialWrites[other], db.initialWrites[key];
      w1.batch < w2.batch || (w1.batch == w2.batch && w1.index <= w2.index)
  }

  /** `get_all_factory_deps`. */
  ghost function FactoryDepsUpTo(db: Db, block: nat): set<nat> {
    set dep | dep in db.factoryDeps && dep.block <= block :: dep.bytecode
  }

  // ---------------------------------------------------------------------------------------------
  // The state of the storage, by replaying the logs
  // ---------------------------------------------------------------------------------------------

  /** The storage after all logs up to a block: a later log overwrites an earlier one. */
  function Replay(logs: seq<LogRow>, block: nat): map<nat, nat> {
    if logs == [] then map[]
    else
      var last := logs[|logs| - 1];
      var before := Replay(logs[..|logs| - 1], block);
      if last.block <= block then before[last.key := last.value] else before
  }

  /** A log tells the storage at the end of a batch: the replayed value of its key, and the batch
      and the index of the first write of the key, which the batch includes. */
  ghost predicate IsStateLog(db: Db, block: nat, batch: nat, log: SnapshotLog) {
    && log.key in Replay(db.logs, block) && log.value == Replay(db.logs, block)[log.key]
    && log.key in db.initialWrites
    && log.batchOfInitialWrite == db.initialWrites[log.key].batch <= batch
    && log.index == db.initialWrites[log.key].index
  }

  ghost predicate Ordered(logs: seq<LogRow>) {
    forall i, j :: 0 <= i < j < |logs| ==> Before(logs[i], logs[j])
  }

  lemma {:induction false} LatestIsReplayed(logs: seq<LogRow>, block: nat, i: nat)
    requires Ordered(logs) && IsLatest(logs, i, block)
    ensures logs[i].key in Replay(logs, block) && Replay(logs, block)[logs[i].key] == logs[i].value
  {
    var n := |logs| - 1;
    if i < n {
      var init := logs[..n];
      assert IsLatest(init, i, block);
      LatestIsReplayed(init, block, i);
      assert Before(logs[i], logs[n]);
    }
  }

  lemma {:induction false} ReplayedHasLatest(logs: seq<LogRow>, block: nat, key: nat) returns (i: nat)
    requires Ordered(logs) && key in Replay(logs, block)
    ensures IsLatest(logs, i, block) && logs[i].key == key
  {
    var n := |logs| - 1;
    if logs[n].block <= block && logs[n].key == key {
      i := n;
    } else {
      i := ReplayedHasLatest(logs[..n], block, key);
      assert IsLatest(logs[..n], i, block);
      forall j | 0 <= j < |logs| && logs[j].key == logs[i].key && logs[j].block <= block
        ensures logs[j] == logs[i] || Before(logs[j], logs[i])
      {
        assert j < n && logs[j] == logs[..n][j];
      }
    }
  }

  /** The grouped query returns exactly the part of the replayed storage that lies in its range. */
  lemma ChunkLogsAreReplayedState(db: Db, block: nat, batch: nat, range: KeyRange)
    requires WellFormed(db)
    ensures forall log :: log in ChunkLogs(db, block, batch, range) <==>
      IsStateLog(db, block, batch, log) && Contains(range, log.key)
  {
    assert Ordered(db.logs);
    forall log | log in ChunkLogs(db, block, batch, range)
      ensures IsStateLog(db, block, batch, log) && Contains(range, log.key)
    {
      var i :| 0 <= i < |db.logs| && IsLatest(db.logs, i, block)
        && Contains(range, db.logs[i].key) && WrittenBy(db, db.logs[i].key, batch)
        && log == ToSnapshotLog(db, db.logs[i].key, db.logs[i].value);
      LatestIsReplayed(db.logs, block, i);
    }
    forall log | IsStateLog(db, block, batch, log) && Contains(range, log.key)
      ensures log in ChunkLogs(db, block, batch, range)
    {
      var i := ReplayedHasLatest(db.logs, block, log.key);
      LatestIsReplayed(db.logs, block, i);
      assert log == ToSnapshotLog(db, db.logs[i].key, db.logs[i].value);
    }
  }

  lemma {:induction false} ReplayedKeysAreLogged(logs: seq<LogRow>, block: nat, key: nat)
    requires key in Replay(logs, block)
    ensures exists i :: 0 <= i < |logs| && logs[i].key == key
  {
    var n := |logs| - 1;
    if logs[n].key != key {
      ReplayedKeysAreLogged(logs[..n], block, key);
      var i :| 0 <= i < n && logs[..n][i].key == key;
      assert logs[i].key == key;
    }
  }

  /** The chunks of a batch hold every log of the storage exactly once: a log of the storage is
      in the chunk of its key and in no other, and the chunks hold nothing else. */
  lemma ChunksHoldStateOnce(db: Db, block: nat, batch: nat, chunkCount: nat, log: SnapshotLog)
    requires WellFormed(db) && 0 < chunkCount <= U64_MAX
    ensures IsStateLog(db, block, batch, log) ==> log.key <= U256_MAX
    ensures IsStateLog(db, block, batch, log) ==> ChunkOf(log.key, chunkCount) < chunkCount
    ensures forall chunkId :: 0 <= chunkId < chunkCount ==>
      (log in ChunkLogs(db, block, batch, UniformHashedKeysChunk(chunkId, chunkCount)) <==>
       IsStateLog(db, block, batch, log) && chunkId == ChunkOf(log.key, chunkCount))
  {
    if IsStateLog(db, block, batch, log) {
      ReplayedKeysAreLogged(db.logs, block, log.key);
      ChunksPartitionKeys(log.key, chunkCount);
    }
    forall chunkId | 0 <= chunkId < chunkCount
      ensures log in ChunkLogs(db, block, batch, UniformHashedKeysChunk(chunkId, chunkCount)) <==>
        IsStateLog(db, block, batch, log) && chunkId == ChunkOf(log.key, chunkCount)
    {
      ChunkLogsAreReplayedState(db, block, batch, UniformHashedKeysChunk(chunkId, chunkCount));
    }
  }

  // ---------------------------------------------------------------------------------------------
  // Growth of the tables
  // ---------------------------------------------------------------------------------------------

  /** A block past the end of every batch stored so far. */
  predicate IsNewBlock(db: Db, block: nat) {
    forall b :: b in db.batches && db.batches[b].lastBlock.Some? ==> db.batches[b].lastBlock.value < block
  }

  predicate IsNewBatch(db: Db, batch: nat) {
    forall b :: b in db.batches ==> b < batch
  }

  predicate BatchGrows(info: BatchInfo, next: BatchInfo) {
    next.lastBlock == info.lastBlock && (info.hasTreeData ==> next.hasTreeData)
  }

  /** The node appends logs and dependencies of new blocks, first writes of keys never written
      before, and new batches; a stored batch may get its Merkle tree data later. */
  ghost predicate Grows(db: Db, next: Db) {
    && WellFormed(next)
    && db.logs <= next.logs
    && (forall i :: |db.logs| <= i < |next.logs| ==> IsNewBlock(db, next.logs[i].block))
    && (forall key :: key in db.initialWrites ==> key in next.initialWrites && next.initialWrites[key] == db.initialWrites[key])
    && (forall key :: key in next.initialWrites && key !in db.initialWrites ==> IsNewBatch(db, next.initialWrites[key].batch))
    && (forall b :: b in db.batches ==> b in next.batches && BatchGrows(db.batches[b], next.batches[b]))
    && (forall b :: b in next.batches && b !in db.batches ==> IsNewBatch(db, b))
    && db.factoryDeps <= next.factoryDeps
    && (forall dep :: dep in next.factoryDeps && dep !in db.factoryDeps ==> IsNewBlock(db, dep.block))
  }

  lemma GrowsIsReflexive(db: Db)
    requires WellFormed(db)
    ensures Grows(db, db)
  {
  }

  /** One way to grow: a block after all others that writes a key and deploys a bytecode, and ends a
      batch after all others. */
  lemma NodeAppendsBatch(db: Db, row: LogRow, batch: nat, write: InitialWrite, bytecode: nat)
    requires WellFormed(db) && row.key <= U256_MAX && IsNewBlock(db, row.block) && IsNewBatch(db, batch)
    requires forall i :: 0 <= i < |db.logs| ==> Before(db.logs[i], row)
    requires write.batch == batch && 0 < write.index && 2 * write.index <= U64_MAX
    ensures
      var writes := if row.key in db.initialWrites then db.initialWrites else db.initialWrites[row.key := write];
      var deps := db.factoryDeps + {FactoryDep(row.block, bytecode)};
      Grows(db, Db(db.logs + [row], writes, db.batches[batch := BatchInfo(Some(row.block), false)], deps))
  {
  }

  /** Another: a stored batch gets its tree data. */
  lemma NodeAddsTreeData(db: Db, batch: nat)
    requires WellFormed(db) && batch in db.batches
    ensures Grows(db, db.(batches := db.batches[batch := db.batches[batch].(hasTreeData := true)]))
  {
  }

  /** The last block of a stored batch. */
  ghost predicate EndsAt(db: Db, batch: nat, block: nat) {
    batch in db.batches && db.batches[batch].lastBlock == Some(block)
  }

  lemma WrittenByIsStable(db: Db, next: Db, key: nat, batch: nat)
    requires Grows(db, next) && batch in db.batches
    ensures WrittenBy(db, key, batch) <==> WrittenBy(next, key, batch)
  {
  }

  lemma LatestIsStable(db: Db, next: Db, batch: nat, block: nat, i: int)
    requires Grows(db, next) && EndsAt(db, batch, block)
    ensures IsLatest(db.logs, i, block) <==> IsLatest(next.logs, i, block)
  {
  }

  /** What is read for a stored batch does not change while the tables grow. */
  lemma QueriesAreStable(db: Db, next: Db, batch: nat, block: nat)
    requires Grows(db, next) && EndsAt(db, batch, block)
    ensures EndsAt(next, batch, block)
    ensures forall range :: ChunkLogs(next, block, batch, range) == ChunkLogs(db, block, batch, range)
    ensures FactoryDepsUpTo(next, block) == FactoryDepsUpTo(db, block)
  {
    forall range ensures ChunkLogs(next, block, batch, range) == ChunkLogs(db, block, batch, range) {
      ChunkLogsAreStable(db, next, batch, block, range);
    }
    forall dep | dep in next.factoryDeps && dep !in db.factoryDeps ensures block < dep.block {
      assert IsNewBlock(db, dep.block);
    }
  }

  lemma ChunkLogsAreStable(db: Db, next: Db, batch: nat, block: nat, range: KeyRange)
    requires Grows(db, next) && EndsAt(db, batch, block)
    ensures ChunkLogs(next, block, batch, range) == ChunkLogs(db, block, batch, range)
  {
    forall i ensures IsLatest(db.logs, i, block) <==> IsLatest(next.logs, i, block) {
      LatestIsStable(db, next, batch, block, i);
    }
    forall key ensures WrittenBy(db, key, batch) <==> WrittenBy(next, key, batch) {
      WrittenByIsStable(db, next, key, batch);
    }
  }

  lemma KeysCountIsStable(db: Db, next: Db, batch: nat, count: nat)
    requires Grows(db, next) && batch in db.batches
    ensures IsKeysCount(db, batch, count) <==> IsKeysCount(next, batch, count)
  {
  }

  lemma KeysCountIsUnique(db: Db, batch: nat, count1: nat, count2: nat)
    requires IsKeysCount(db, batch, count1) && IsKeysCount(db, batch, count2)
    ensures count1 == count2
  {
  }

  // ---------------------------------------------------------------------------------------------
  // The number of keys
  // ---------------------------------------------------------------------------------------------

  ghost function WrittenKeys(db: Db, batch: nat): set<nat> {
    set key | key in db.initialWrites && db.initialWrites[key].batch <= batch
  }

  /** Keys are numbered from one without gaps, in the order of the batches that first write them. */
  ghost predicate IsEnumerated(db: Db) {
    && (forall k1, k2 :: k1 in db.initialWrites && k2 in db.initialWrites && k1 != k2 ==>
          db.initialWrites[k1].index != db.initialWrites[k2].index)
    && (forall k1, k2 :: k1 in db.initialWrites && k2 in db.initialWrites ==>
          db.initialWrites[k1].batch < db.initialWrites[k2].batch ==>
          db.initialWrites[k1].index < db.initialWrites[k2].index)
    && (forall key :: key in db.initialWrites ==> HasAllBelow(db, db.initialWrites[key].index))
  }

  ghost predicate HasAllBelow(db: Db, n: nat) {
    forall m: nat :: 0 < m < n ==> HasIndex(db, m)
  }

  ghost predicate HasIndex(db: Db, n: nat) {
    exists key :: key in db.initialWrites && db.initialWrites[key].index == n
  }

  lemma {:induction false} LastKeyExists(db: Db, batch: nat, keys: set<nat>) returns (last: nat)
    requires keys != {} && keys <= WrittenKeys(db, batch)
    ensures last in keys
    ensures forall key :: key in keys ==>
      var w1, w2 := db.initialWrites[key], db.initialWrites[last];
      w1.batch < w2.batch || (w1.batch == w2.batch && w1.index <= w2.index)
    decreases keys
  {
    var first :| first in keys;
    var rest := keys - {first};
    last := first;
    if rest != {} {
      var other := LastKeyExists(db, batch, rest);
      var w1, w2 := db.initialWrites[first], db.initialWrites[other];
      if w1.batch < w2.batch || (w1.batch == w2.batch && w1.index <= w2.index) {
        last := other;
      }
      assert keys == rest + {first};
    }
  }

  /** There is an answer exactly when some key is written up to the batch. */
  lemma KeysCountExists(db: Db, batch: nat)
    ensures (exists count :: IsKeysCount(db, batch, count)) <==> WrittenKeys(db, batch) != {}
  {
    if WrittenKeys(db, batch) != {} {
      var last := LastKeyExists(db, batch, WrittenKeys(db, batch));
      assert IsLastWrite(db, last, batch);
      assert IsKeysCount(db, batch, db.initialWrites[last].index);
    } else if exists count :: IsKeysCount(db, batch, count) {
      var count :| IsKeysCount(db, batch, count);
      var key :| WrittenBy(db, key, batch);
      assert key in WrittenKeys(db, batch);
    }
  }

  ghost function KeysUpToIndex(db: Db, n: nat): set<nat> {
    set key | key in db.initialWrites && db.initialWrites[key].index <= n
  }

  lemma {:induction false} KeysAreCounted(db: Db, n: nat)
    requires WellFormed(db) && IsEnumerated(db) && (n == 0 || HasIndex(db, n))
    ensures |KeysUpToIndex(db, n)| == n
  {
    if n == 0 {
      assert KeysUpToIndex(db, 0) == {};
    } else {
      var key :| key in db.initialWrites && db.initialWrites[key].index == n;
      assert HasAllBelow(db, n);
      KeysAreCounted(db, n - 1);
      OneKeyMore(db, n, key);
    }
  }

  lemma OneKeyMore(db: Db, n: nat, key: nat)
    requires IsEnumerated(db) && 0 < n && key in db.initialWrites && db.initialWrites[key].index == n
    ensures |KeysUpToIndex(db, n)| == |KeysUpToIndex(db, n - 1)| + 1
  {
    assert KeysUpToIndex(db, n) == KeysUpToIndex(db, n - 1) + {key};
  }

  /** The index of the last write counts the keys: where keys are numbered without gaps, the answer
      is the number of keys first written up to the batch. */
  lemma KeysCountIsNumberOfKeys(db: Db, batch: nat, count: nat)
    requires WellFormed(db) && IsEnumerated(db)
    ensures IsKeysCount(db, batch, count) <==> 0 < count == |WrittenKeys(db, batch)|
  {
    KeysCountExists(db, batch);
    if WrittenKeys(db, batch) != {} {
      var answer: nat :| IsKeysCount(db, batch, answer);
      var last :| WrittenBy(db, last, batch) && IsLastWrite(db, last, batch) && db.initialWrites[last].index == answer;
      KeysAreCounted(db, answer);
      assert KeysUpToIndex(db, answer) == WrittenKeys(db, batch);
      if IsKeysCount(db, batch, count) {
        KeysCountIsUnique(db, batch, count, answer);
      }
    }
  }

  // ---------------------------------------------------------------------------------------------
  // Factory dependencies
  // ---------------------------------------------------------------------------------------------

  /** The dependencies of the first block, and what one more block adds: exactly its bytecodes. */
  lemma FactoryDepsGrowByBlock(db: Db, block: nat, bytecode: nat)
    ensures bytecode in FactoryDepsUpTo(db, 0) <==> FactoryDep(0, bytecode) in db.factoryDeps
    ensures bytecode in FactoryDepsUpTo(db, block + 1) <==>
      bytecode in FactoryDepsUpTo(db, block) || FactoryDep(block + 1, bytecode) in db.factoryDeps
  {
    if FactoryDep(block + 1, bytecode) in db.factoryDeps {
      assert FactoryDep(block + 1, bytecode).block <= block + 1;
    }
    if bytecode in FactoryDepsUpTo(db, block) {
      var dep :| dep in db.factoryDeps && dep.block <= block && dep.bytecode == bytecode;
      assert dep.block <= block + 1;
    }
    if bytecode in FactoryDepsUpTo(db, block + 1) {
      var dep :| dep in db.factoryDeps && dep.block <= block + 1 && dep.bytecode == bytecode;
      assert dep == FactoryDep(dep.block, bytecode);
    }
    if bytecode in FactoryDepsUpTo(db, 0) {
      var dep :| dep in db.factoryDeps && dep.block <= 0 && dep.bytecode == bytecode;
      assert dep == FactoryDep(0, bytecode);
    }
    if FactoryDep(0, bytecode) in db.factoryDeps {
      assert FactoryDep(0, bytecode).block <= 0;
    }
  }
}
