/** Names under which the blobs of a storage snapshot are put into the object store. */
module ObjectKeys {
  import opened Decimal

  /** What a blob is stored for: one chunk of the storage logs of an L1 batch, or the factory
      dependencies known at that batch. */
  datatype BlobKey =
    | StorageLogs(batch: nat, chunkId: nat)
    | FactoryDeps(batch: nat)

  const PREFIX := "snapshot_l1_batch_"
  const LOGS_INFIX := "_storage_logs_part_"
  const DEPS_SUFFIX := "_factory_deps.proto.gzip"
  const EXTENSION := ".proto.gzip"

  function EncodeKey(key: BlobKey): string {
    PREFIX + (Print(key.batch) + AfterBatch(key))
  }

  /** What follows the batch number in a name. */
  function AfterBatch(key: BlobKey): (rest: string)
    ensures |rest| > 1 && rest[0] == '_' && (rest[1] == 's' <==> key.StorageLogs?)
  {
    match key
    case StorageLogs(_, chunkId) => LOGS_INFIX + (PadLeft(Print(chunkId), 4) + EXTENSION)
    case FactoryDeps(_) => DEPS_SUFFIX
  }

  /** The path recorded in the metadata row: the bucket and the name. */
  function FilePath(bucket: string, key: BlobKey): string {
    bucket + "/" + EncodeKey(key)
  }

  lemma ChunkNumberIsReadable(c1: nat, c2: nat)
    requires LOGS_INFIX + (PadLeft(Print(c1), 4) + EXTENSION) == LOGS_INFIX + (PadLeft(Print(c2), 4) + EXTENSION)
    ensures c1 == c2
  {
    var p1, p2 := PadLeft(Print(c1), 4), PadLeft(Print(c2), 4);
    CancelPrefix(LOGS_INFIX, p1 + EXTENSION, p2 + EXTENSION);
    ValueOfPadded(c1, 4);
    ValueOfPadded(c2, 4);
    DigitRunIsUnique(p1, EXTENSION, p2, EXTENSION);
  }

  /** Two blobs share a name only if they are the same blob: the padded chunk number and the
      batch number can both be read back, and logs are never mistaken for dependencies. */
  lemma EncodeKeyIsInjective(k1: BlobKey, k2: BlobKey)
    requires EncodeKey(k1) == EncodeKey(k2)
    ensures k1 == k2
  {
    var after1, after2 := AfterBatch(k1), AfterBatch(k2);
    CancelPrefix(PREFIX, Print(k1.batch) + after1, Print(k2.batch) + after2);
    ValueOfPrint(k1.batch);
    ValueOfPrint(k2.batch);
    DigitRunIsUnique(Print(k1.batch), after1, Print(k2.batch), after2);
    if k1.StorageLogs? {
      ChunkNumberIsReadable(k1.chunkId, k2.chunkId);
    }
  }

  /** The recorded path tells the blob too. */
  lemma FilePathIsInjective(bucket: string, k1: BlobKey, k2: BlobKey)
    requires FilePath(bucket, k1) == FilePath(bucket, k2)
    ensures k1 == k2
  {
    CancelPrefix(bucket + "/", EncodeKey(k1), EncodeKey(k2));
    EncodeKeyIsInjective(k1, k2);
  }

  /** A chunk number with at least four digits, and no more zeros in front than that takes. */
  predicate IsPartNumber(s: string, chunkId: nat) {
    |s| >= 4 && AllDigits(s) && ValueOf(s) == chunkId && (|s| > 4 ==> s[0] != '0')
  }

  predicate IsBatchNumber(s: string, batch: nat) {
    IsCanonicalNumber(s) && ValueOf(s) == batch
  }

  lemma PaddedIsPartNumber(chunkId: nat)
    ensures IsPartNumber(PadLeft(Print(chunkId), 4), chunkId)
  {
    ValueOfPadded(chunkId, 4);
    PrintIsCanonical(chunkId);
  }

  lemma Regroup(a: string, b: string, c: string, d: string, e: string)
    ensures a + (b + (c + (d + e))) == a + b + c + d + e
    ensures a + (b + c) == a + b + c
  {
  }

  /** The names written out, with the batch number and the part number as digits. */
  lemma NamesAreWrittenOut(batch: nat, chunkId: nat) returns (number: string, part: string)
    ensures IsBatchNumber(number, batch) && IsPartNumber(part, chunkId)
    ensures EncodeKey(StorageLogs(batch, chunkId)) ==
      "snapshot_l1_batch_" + number + "_storage_logs_part_" + part + ".proto.gzip"
    ensures EncodeKey(FactoryDeps(batch)) == "snapshot_l1_batch_" + number + "_factory_deps.proto.gzip"
  {
    number, part := Print(batch), PadLeft(Print(chunkId), 4);
    ValueOfPrint(batch);
    PrintIsCanonical(batch);
    PaddedIsPartNumber(chunkId);
    Regroup(PREFIX, number, LOGS_INFIX, part, EXTENSION);
    Regroup(PREFIX, number, DEPS_SUFFIX, "", "");
  }
}
